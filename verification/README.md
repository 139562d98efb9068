# Host agent: verified model

This project models the state machines at the centre of the host agent in Dafny and proves what they
keep over every run. Where a promise fails, a lemma says exactly when it holds and another shows a run
in which it does not.

| file | what it models |
|---|---|
| `token_rotation.dfy` | any number of processes that refresh a single-use token under a file lock, the two-stage save, crashes, lost answers, recovery by signing key |
| `stdout_sink.dfy` | the forwarder task that hands a child's lines to whichever receiver is attached |
| `agent_index.dfy`, `agent_router.dfy`, `agent_binds.dfy` | the two-map index of Claude sessions; `bind` as a sequence of steps with exits and late resume ids in between; detach, close and sweep; what each of them answers from its call to its end |
| `utf8.dfy`, `stderr_ring.dfy` | the bounded byte tail of stderr and its character boundaries (sections 3 and 4 of RFC 3629) |
| `session_order.dfy`, `session_paging.dfy`, `project_paging.dfy` | the sort order, keyset paging while files come and go, grouping and its hand-over to project paging |
| `parse_cache.dfy` | the parse cache keyed by (mtime, size), and its pruning |
| `path_decoder.dfy` | the backtracking search for a directory from its dashed name, and the drive scan before it |
| `session_title.dfy` | the title normaliser, with its mixture of byte and character limits |
| `upload.dfy` | streamed uploads: start, chunk, end, cancel, expiry, channel close |
| `watchdog.dfy` | the WebSocket ping, pong and idle timers |
| `audit_rotation.dfy`, `audit_paging.dfy` | rotation of the audit log and reading it backwards by timestamp |
| `frame_stream.dfy` | the length-prefixed frames of the local socket, as they arrive in pieces |
| `basics.dfy` | shared definitions and facts about sequences |

Code that changes things step by step is modelled by methods, on a class where the program keeps
fields (`AgentIndex.ManagerState`, `StderrRing.Ring`, `ParseCache.SessionParseCache`, `Upload.Table`,
`Watchdog.Loop`, `AuditRotation.AuditDir`). Each method is proved against a function of the old state,
and the lemmas are about that function. What interleaves across awaits or processes (tokens, sink,
router, cache) is a transition system: `Enabled` and `Next` over labels, where a run is any sequence of
enabled steps. The clock, the file system's answers, the backend, the child and the order of arrival
are labels or parameters.

## What the code does that its comments do not say

- A save of a process's own store (`StateStore::save`) also writes the `auth` it has in memory. With a
  store that is out of date this puts a spent token back on disk (`StaleSaveBurnsDisk`); it is harmless
  exactly when memory and disk hold the same token (`OtherSaveKeepsIff`). Between the two halves of
  another process's save it can even put the old token beside the new expiry (`SaveBetweenHalves`).
- An empty refresh token is answered with `AuthRevoked` before the signing key is tried
  (`EmptyTokenSkipsRecovery`).
- `AgentRouter::close` after `detach` of the same id does nothing, as `detach` has taken the id off the
  record; the child stays registered and running (`CloseAfterDetachDoesNothing`).
- The listing is sorted by path components and the cursor compares text. Two files of equal time and
  source with paths such as `/work-a/x` and `/work-a-b/x` come in different orders, and a page that
  ends between them skips one. No such pair is exactly the condition for exact paging
  (`SessionPaging.PagingIsExactIff`).
- That equal (mtime, size) means equal content does not suffice for the cache: a hit is then right
  exactly if the filling call read what it had looked at (`HitIsDirectParseIff`,
  `RestoredStampReturnsOther`). Only a pair that is new in the file's history rules out answers from
  before the stat in every run (`NothingStaleIff`).
- The drive scan cuts the name one byte at a time and panics on names with a multi-byte character
  right after leading dashes (`DecodePanicsIff`).
- The attach client reads its header inside `select!`. A key press or a window change in the middle of
  a header loses the bytes read so far (`ArrivalIsExactIff`, `KeyPressLosesFrame`).
- `read_audit_tail` is documented to skip events without a readable timestamp, but returns them when
  no boundary is given (`UnreadableIsReturnedIff`).
- A second `upload_start` on a live key leaves the first temporary file behind
  (`TemporaryFilesMatchIff`). An upload may be asked for under another live upload's temporary name, and
  its end then replaces that file (`EndKeepsOthersIff`, `CrossedEndPublishesOther`). `upload_end` does not
  compare what came with the declared size (`EndPublishesIff`).
- The rotation ignores failed renames. A file whose own rename fails is overwritten by the next one
  (`FileIsLostIff`).
- With punctual timers the 90-second idle rule can never be what ends the loop
  (`IdleRuleNeverFires`).

## Model

| member | source | states |
|---|---|---|
| TokenRotation.CallOutcome | crates/host-core/src/auth.rs:92-155 | in every run, under crashes, lost answers and failed saves, an `Err` leaves the caller's store as it was at entry; an `Ok` leaves an auth that was not expiring at some moment of the call, unless the backend once issued a pair shorter than the margin (which answer comes when: `EntryAnswers`, `OutcomeCauses`) |
| TokenRotation.EntryAnswers | crates/host-core/src/auth.rs:92-100 | the entry of a call answers at once and alone: `NotLoggedIn` if and only if auth or host is missing in the caller's store, `Ok` if and only if both are there and the auth is not within the margin, and otherwise it waits for the lock; memory, disk, lock and backend stay as they were |
| TokenRotation.OutcomeCauses | crates/host-core/src/auth.rs:92-207 | whatever else goes on, every outcome of a call has exactly the stated causes: `Ok`, `Io`, `Transient`, `NotLoggedIn` and `AuthRevoked`, each in both directions |
| TokenRotation.LockedCallRestores | crates/host-core/src/auth.rs:102-154 | whenever a call that took the lock returns `Ok`, whatever went wrong before, the lock is free, the caller's store is what the disk holds, and the token on disk has not been burned |
| TokenRotation.UndisturbedCall | crates/host-core/src/auth.rs:92-207 | a call left alone after taking the lock returns, and it succeeds if and only if the disk holds a fresh auth, or a refresh token that is live or can be replaced by the signing key; it fails with `NotLoggedIn` or `AuthRevoked`, each exactly when stated, and then changes neither memory nor disk |
| TokenRotation.UndisturbedWholeCall | crates/host-core/src/auth.rs:92-207 | a call left alone from its very beginning ends with the lock free, and its answer is decided beforehand: success if and only if the caller is logged in and its auth or the disk's has time left or the disk's token can be exchanged or replaced; each error if and only if its cause holds; a failure leaves memory and disk alone, and a fresh auth everything |
| TokenRotation.CrashFreesLock | crates/host-core/src/auth.rs:48-61 | in every state of a run, a crash frees the lock if it was held, and whoever waits can take it |
| TokenRotation.AdoptOrRecover | crates/host-core/src/auth.rs:104-154 | a waiter whose reload finds a fresh token adopts it without asking the backend or touching the disk; near expiry a live or burned token is replaced, after one presentation, and the new disk token is live |
| TokenRotation.EmptyTokenSkipsRecovery | crates/host-core/src/secure.rs:24-29 | a concrete state in which the refresh token is empty and the host key usable and accepted, and the call still ends in `AuthRevoked` |
| TokenRotation.EachTokenPresentedOnce | crates/host-core/src/auth.rs:92-155 | any number of processes, any interleaving, no loss between answer and save: no refresh token reaches the backend twice, none is refused, and while the lock is free the disk token is the one live token |
| TokenRotation.OneRotationPerExpiry | crates/host-core/src/auth.rs:102-112 | in such runs each pair was asked for only after the pair before it had come within the margin: processes waiting together cause one rotation |
| TokenRotation.OtherSaveKeepsIff | crates/host-core/src/store.rs:93-142 | a save of a process's own store, made while no process holds a pair not yet on disk (the lock may be taken), keeps "disk token is the live token" if and only if the save leaves the token that was there |
| TokenRotation.SaveBetweenHalves | crates/host-core/src/store.rs:93-142 | made between another process's keyring write and its state.json write, it leaves the live token on disk if and only if the store carries no token or that very one; otherwise the new expiry ends up beside the store's old token |
| TokenRotation.SaveBeforePair | crates/host-core/src/store.rs:93-142 | made while the new pair is in its process's hands alone, it does no harm once that process has saved |
| TokenRotation.StaleSaveBurnsDisk | crates/host-core/src/store.rs:93-142 | a run of two processes and seven steps after which the disk holds a spent token again |
| StdoutSink.ReceiversGetBlocks | crates/host-core/src/agent_session.rs:964-992 | over every run of lines, installs, clears and dropped receivers, each line reaches at most one receiver, each receiver has consecutive lines in order, and an earlier receiver's lines all precede a later one's |
| StdoutSink.LabelsTellState | crates/host-core/src/agent_session.rs:516-533 | in every run, which receivers exist and are open, who is wanted and whether the session runs is what the history of calls alone says: the last `take_stdout` with no `clear_sink` since |
| StdoutSink.OpenReceiverStaysAttached | crates/host-core/src/agent_session.rs:516-533 | the receiver of the last `take_stdout` that no `clear_sink` has followed, read off the calls made, stays attached while it is open, and nobody else ever is; what the forwarder clears is the very sink its send failed on, whose receiver is gone |
| StdoutSink.AttachedLosesNothing | crates/host-core/src/agent_session.rs:964-992 | a line for which the forwarder looks at the sink while, by the calls made so far, a receiver is wanted is on its way to that receiver, or delivered to it, at every later point, unless the receiver closes or the session stops |
| StdoutSink.DetachDropsLines | crates/host-core/src/agent_session.rs:528-533 | after a `clear_sink` with no `take_stdout` since, every line is dropped, and no receiver gets more than the one line that was being sent at that moment |
| StdoutSink.StopIsFinal | crates/host-core/src/agent_session.rs:964-992 | once the forwarder is stopped no receiver gets anything more, and a line in hand is lost |
| StdoutSink.NextLineGetsThrough | crates/host-core/src/agent_session.rs:964-992 | in every run the next line can be delivered to the attached receiver if that is open and has room for one of 256, and is dropped together with the sink if it is gone |
| StdoutSink.NextLineIsDropped | crates/host-core/src/agent_session.rs:964-992 | with no sink the next line is dropped and the forwarder ready for another |
| AgentIndex.ManagerState.Insert | crates/host-core/src/agent_session.rs:1251-1256 | the new index as a function of the old one |
| AgentIndex.ManagerState.Remove | crates/host-core/src/agent_session.rs:1258-1268 | the removed entry and the new index, where a resume id goes only if it led to the removed agent |
| AgentIndex.ManagerState.Rekey | crates/host-core/src/agent_session.rs:1271-1279 | the moved entry and the new index; nothing changes if the old id is unknown |
| AgentIndex.ManagerState.NoteResumeId | crates/host-core/src/agent_session.rs:1408-1418 | the new index after a late resume id, which is ignored for an unknown agent |
| AgentIndex.ManagerState.MarkDetached | crates/host-core/src/agent_session.rs:1360-1371 | the mark is set on the entry and nothing else changes |
| AgentIndex.InsertIff | crates/host-core/src/agent_session.rs:1251-1256 | inserting keeps the two maps consistent if and only if it does not bury an entry that another resume id still leads to |
| AgentIndex.RekeyIff | crates/host-core/src/agent_session.rs:1271-1279 | the same condition for rekeying, read at the new id and with the moved entry's resume id |
| AgentIndex.RemoveKeeps | crates/host-core/src/agent_session.rs:1258-1268 | removing keeps the maps consistent and takes exactly the resume ids that led to the removed agent |
| AgentRouter.RegistryIsSound | crates/host-core/src/agent_session.rs:1238-1356 | in every reachable state, also inside a bind: the index is consistent, no two agents share a child, and every running Claude child is registered or about to be |
| AgentRouter.RebindReturnsSameChild | crates/host-core/src/agent_session.rs:1297-1356 | a bind whose resume id led to a child still running at the end hands out that child and has spawned nothing, with its entry under the new id and not marked detached; one that spawned has seen the old child's exit |
| AgentRouter.RekeyMovesEntry | crates/host-core/src/agent_session.rs:1302-1330 | the rekey inside a bind always finds its entry; afterwards both maps lead to the new id, the old id is gone and every other entry is as before |
| AgentRouter.BindInstallsSink | crates/host-core/src/agent_session.rs:516-526 | from the moment a bind has taken the stream until it completes, the child's sink is that bind's or has been lost by its receiver |
| AgentRouter.LateCallsAreHarmless | crates/host-core/src/agent_session.rs:1588-1608 | in every run, a late detach or close of any other id leaves a registered Claude session, its sink and its index entries untouched |
| AgentRouter.CodexSinkLostIff | crates/host-core/src/agent_session.rs:1470-1511 | in every run the Codex agent that is bound loses the shared sink if and only if another one takes it, some id on record as Codex is detached, or its own receiver is gone |
| AgentRouter.CodexDetachClearsIff | crates/host-core/src/agent_session.rs:1507-1511 | the detach case: whoever is bound keeps the sink if and only if the detached id was not on record as Codex |
| AgentRouter.CloseEndsChildIff | crates/host-core/src/agent_session.rs:1598-1608 | closing ends a registered child if and only if the router still has the id on record as Claude |
| AgentRouter.CloseAfterDetachDoesNothing | crates/host-core/src/agent_session.rs:1588-1608 | detach followed by close of the same id leaves the child registered and not closed |
| AgentRouter.SweepReapsOnlyExited | crates/host-core/src/agent_session.rs:1377-1393 | in every run, for any list of ids found exited, complete or not, a sweep step closes no running child and takes what it reaps out of the index |
| AgentRouter.ReusedIdForgetsChild | crates/host-core/src/agent_session.rs:1225-1231 | why a bind must not reuse another session's id: after it the resume id leads to the wrong session and a running child is forgotten |
| AgentBinds.BindOutcome | crates/host-core/src/agent_session.rs:1297-1356 | in every run, for a bind under any id, old or new: if the resume id led to a child at the call and that has not exited when the bind completes, the bind hands out that child and no child has been spawned since the call; it reattaches to no other child; otherwise exactly one has been spawned and is handed out. Child and number of children are read in the state of the call |
| AgentBinds.ResumeIdLeadsTo | crates/host-core/src/agent_session.rs:1250-1279 | in every run, which agent a resume id leads to after each step, exactly: who learns it first or is bound with it takes it over, who is dropped, closed or reaped loses it, nothing else changes it; and that agent is registered with it |
| AgentBinds.ReattachCompletes | crates/host-core/src/agent_session.rs:1297-1330 | a bind left alone whose resume id leads to a running child runs through and moves that child, its entry and the resume id to the new id, with the binder's sink, and changes nothing else |
| AgentBinds.RespawnCompletes | crates/host-core/src/agent_session.rs:1297-1356 | if that child has exited, its entry is dropped and one new child is registered under both ids |
| AgentBinds.SpawnCompletes | crates/host-core/src/agent_session.rs:1297-1356 | without such a child one is spawned and registered; if the spawn fails, everything is as before |
| AgentBinds.CodexCompletes | crates/host-core/src/agent_session.rs:1470-1504 | a Codex bind left alone takes the stream of the hub's child if that runs, and otherwise spawns one for the hub |
| AgentBinds.TakeInstallsSink | crates/host-core/src/agent_session.rs:516-526 | in every run the step that takes the stream installs the binder's sink, on a session that has not been closed |
| AgentBinds.ClaudeSinkLostIff | crates/host-core/src/agent_session.rs:516-533 | in every run the sink of a registered Claude child is lost to its holder if and only if another bind takes that child's stream, the child's own id is detached, or the receiver is gone |
| AgentBinds.DetachReleases | crates/host-core/src/agent_session.rs:1588-1595 | detaching a Claude id on record marks its entry and clears its child's sink; the child runs on and every resume id leads where it led |
| AgentBinds.CloseEnds | crates/host-core/src/agent_session.rs:1598-1608 | closing an id on record ends its child, and afterwards no resume id leads to that child |
| AgentBinds.SweepCompletes | crates/host-core/src/agent_session.rs:1612-1627 | a sweep left alone takes exactly the listed ids off the record and out of the index and ends their children |
| Utf8.BoundaryNear | crates/host-core/src/agent_session.rs:1160-1173 | in valid text a character boundary comes within three bytes, so the ring drops at most three bytes too many |
| Utf8.ValidIff | crates/host-core/src/agent_session.rs:1160-1173 | the valid text of these results is exactly what encodes some sequence of Unicode scalar values |
| StderrRing.Ring.Append | crates/host-core/src/agent_session.rs:1160-1173 | the byte-wise trimming loop leaves the tail of the old buffer, the line and a newline, cut at the first boundary that fits |
| StderrRing.RingIsTailOfHistory | crates/host-core/src/agent_session.rs:1160-1173 | trimming after every line is the same as trimming the unbounded history once |
| StderrRing.RingIsLongestSuffix | crates/host-core/src/agent_session.rs:1149-1178 | the ring is the longest suffix of the history of at most 4096 bytes that starts on a character boundary; it is valid text and short by at most three bytes |
| SessionOrder.PathLessAsText | crates/host-core/src/coding_sessions.rs:1036-1054 | of two paths in component order the first is also first as text if and only if they do not clash |
| SessionOrder.SortedByKeyIff | crates/host-core/src/coding_sessions.rs:1036-1064 | the sorted listing is in cursor order if and only if no two files of equal time and source clash |
| SessionOrder.ListingIsNewestFirst | crates/host-core/src/coding_sessions.rs:1036-1041 | in the sorted listing times never increase, and at equal times Claude's sessions come first |
| SessionOrder.TextLessIff | crates/host-core/src/coding_sessions.rs:1043-1054 | text order is decided at the first difference, or by length |
| SessionOrder.PathLessIff | crates/host-core/src/coding_sessions.rs:1036-1041 | path order is decided at the first component that differs, or by the number of components |
| SessionPaging.ListSessions | crates/host-core/src/coding_sessions.rs:238-284 | the loop that filters, takes one more than the clamped limit and parses returns the page's parseable files, its cursor, and `has_more` exactly when there is one |
| SessionPaging.ClampedIsNearest | crates/host-core/src/coding_sessions.rs:198 | the limit used is the allowed one nearest to the limit asked for, and 50 without one |
| SessionPaging.NextShrinks | crates/host-core/src/coding_sessions.rs:256-275 | on any listing, sorted or not, a next cursor leaves strictly fewer files, so following cursors over a fixed set ends |
| SessionPaging.FollowIsSuffix | crates/host-core/src/coding_sessions.rs:238-275 | from the cursor behind the first n files on, the pages together are exactly the rest of the listing |
| SessionPaging.PagingIsExactIff | crates/host-core/src/coding_sessions.rs:238-275 | for all limits from 1 to 200 the pages together are the sorted listing, if and only if no tied paths clash |
| SessionPaging.SkipsWhenUnordered | crates/host-core/src/coding_sessions.rs:1043-1054 | once any page, from any cursor, ends at a file, no later page shows one that does not come after it by key |
| SessionPaging.ClashingDirectories | crates/host-core/src/coding_sessions.rs:1036-1054 | two concrete paths that clash |
| SessionPaging.PageIsInterval | crates/host-core/src/coding_sessions.rs:1043-1064 | a page holds exactly the files after its cursor and not after the next one, and the next cursor is later |
| SessionPaging.PagesAreInOrder | crates/host-core/src/coding_sessions.rs:238-275 | with a different set of files at every page, pages are in order inside and among themselves |
| SessionPaging.StableFileOnExactlyOnePage | crates/host-core/src/coding_sessions.rs:238-275 | a file present and unchanged in every snapshot appears on exactly one page |
| ProjectPaging.NormalizeIdempotent | crates/host-core/src/coding_sessions.rs:421-423 | normalising a project path twice is the same as once |
| ProjectPaging.NormalizeDoes | crates/host-core/src/coding_sessions.rs:421-423 | normalising turns each backslash into a slash and takes off exactly the slashes of either kind at the end |
| ProjectPaging.FilterIsNoneIff | crates/host-core/src/coding_sessions.rs:202-205 | a request selects no project if and only if it has no path or one of slashes only |
| ProjectPaging.GroupPathSelectsGroup | crates/host-core/src/coding_sessions.rs:421-423 | a group's reported path, sent back as a filter, selects that group again, except the empty path, which selects no project |
| ProjectPaging.ListProjectSessions | crates/host-core/src/coding_sessions.rs:371-419 | the loop with its `last` and `next` variables returns the project's total and the keyset page of the project's own listing |
| ProjectPaging.ListGrouped | crates/host-core/src/coding_sessions.rs:296-358 | returns exactly the projects that have a parseable file, each with its total, latest activity, first sessions and last loaded file; sorted by latest activity and then path, the group without a path last; their sessions one group after the other; and group totals that add up to the total |
| ProjectPaging.LatestActivityFirst | crates/host-core/src/coding_sessions.rs:320-337 | of two groups with a path the earlier one has the later activity, or the same and the smaller path; the group without a path comes after all |
| ProjectPaging.LastActivityIsMax | crates/host-core/src/coding_sessions.rs:310-330 | a group's activity is the time of its newest file, and never before the epoch |
| ProjectPaging.GroupLoads | crates/host-core/src/coding_sessions.rs:330-358 | a group loads the smaller of its total and the limit, and has a cursor, behind its last loaded file, if and only if there is more |
| ProjectPaging.GroupHandsOver | crates/host-core/src/coding_sessions.rs:296-419 | a group's slice followed by all project pages from its cursor is the project's full listing, for all page limits |
| ProjectPaging.GroupTotalsAddUp | crates/host-core/src/coding_sessions.rs:296-358 | the totals of the groups add up to the number of sessions shown |
| ParseCache.ReturnsNothingStale | crates/host-core/src/coding_sessions.rs:519-561 | over all runs of stat, write, parse, lookup and prune, restored files included: what a call returns is the parse of what the file held at or after a version with the candidate's stamp; if no earlier version had that stamp it is no older than the candidate, and the direct parse if nothing was written since |
| ParseCache.NothingStaleIff | crates/host-core/src/coding_sessions.rs:519-561 | no run with a given history of a file can answer a candidate of its newest version with something older, if and only if that version's stamp is new in the history |
| ParseCache.RecurringStampGoesStale | crates/host-core/src/coding_sessions.rs:519-561 | for every history whose newest stamp occurred before, a run that returns the parse of the earlier version |
| ParseCache.HitIsDirectParseIff | crates/host-core/src/coding_sessions.rs:519-561 | in every run, where equal stamps of the file mean equal contents, a hit is the direct parse of the candidate's version if and only if what the filling call read parses like the version it had looked at |
| ParseCache.CleanFillGivesDirectParse | crates/host-core/src/coding_sessions.rs:519-561 | hence, under the same hypothesis, a hit is the direct parse if no write fell between stat and read of the filling call |
| ParseCache.RestoredStampReturnsOther | crates/host-core/src/coding_sessions.rs:519-561 | for any two contents, a run in which a stamp comes back with its content and the cache returns the parse of the other content |
| ParseCache.SortPaths | crates/host-core/src/coding_sessions.rs:563-581 | every path of the map once, oldest entry first |
| ParseCache.RemoveFirst | crates/host-core/src/coding_sessions.rs:575-580 | exactly the first n paths go, the others keep their entries |
| ParseCache.SessionParseCache.Prune | crates/host-core/src/coding_sessions.rs:563-581 | after a prune only listed paths are kept, unchanged and at most 20,000; all of them if they fit, otherwise exactly 20,000, and no evicted entry is newer than a kept one |
| ParseCache.PruneIsAStep | crates/host-core/src/coding_sessions.rs:563-581 | what the pruning method leaves is a prune step of the cache machine, so the results over all runs cover it |
| PathDecoder.ResolveIsFirstGoodSplit | crates/host-core/src/coding_sessions.rs:501-517 | the search succeeds if and only if some split into dash-joined components has every prefix on disk, and returns the first such split, shortest components first |
| PathDecoder.ResolveSound | crates/host-core/src/coding_sessions.rs:501-517 | what is returned lies along a good split, and no good split comes before it |
| PathDecoder.ResolveComplete | crates/host-core/src/coding_sessions.rs:501-517 | a good split makes the search succeed |
| PathDecoder.GoodSplitEncodes | crates/host-core/src/coding_sessions.rs:490-517 | any path found exists and has the same dashed name |
| PathDecoder.ResolveFindsPath | crates/host-core/src/coding_sessions.rs:490-499 | an existing path without empty dash segments is found again from its name if no other existing path has that name |
| PathDecoder.ScanCrashesIff | crates/host-core/src/coding_sessions.rs:459-488 | the drive scan slices inside a character exactly on names where a multi-byte character follows leading dashes |
| PathDecoder.DecodePanicsIff | crates/host-core/src/coding_sessions.rs:440-457 | hence the decoder panics exactly on those names, whatever exists on disk |
| PathDecoder.DecodeInvertsEncode | crates/host-core/src/coding_sessions.rs:440-499 | the whole decoder, drive branch first, returns an existing path from its directory name under the named conditions |
| PathDecoder.DecodeAnswers | crates/host-core/src/coding_sessions.rs:440-499 | what the decoder answers for every name and every file system: nothing, the root, a drive path exactly where letter and separator follow the leading dashes, the first existing reading, or, if there is none, the name with its dashes turned into slashes |
| SessionTitle.CharAtOffset | crates/host-core/src/coding_sessions.rs:1114-1137 | the byte offset of a character position is a character boundary and leads back to that position |
| SessionTitle.NormalizeCuts | crates/host-core/src/coding_sessions.rs:1114-1137 | the byte-index cut never falls inside a character, and the result is the collapsed text, or a prefix of it and dots, or a rejection |
| SessionTitle.CollapseKeepsText | crates/host-core/src/coding_sessions.rs:1114-1120 | collapsing keeps every character that is not white space, in order, and has a space between two of them if and only if the raw text had some white space there |
| SessionTitle.MarksDetermineTidy | crates/host-core/src/coding_sessions.rs:1114-1120 | there is one tidy text only with given characters and gaps, so the collapsed text is determined by the raw one |
| SessionTitle.ByteLenIsEncoded | crates/host-core/src/coding_sessions.rs:1114-1137 | the byte lengths in all of this are those of the encoded text |
| SessionTitle.TitleIsWellFormed | crates/host-core/src/coding_sessions.rs:1114-1149 | a title has 3 bytes or more, at most 80 characters, single inner spaces, no edge spaces and no system marker; it is the collapsed text if that has at most 80 characters, and otherwise its first 77, or those up to the last space among them if more than 40 bytes come before it, and dots |
| SessionTitle.RejectedIff | crates/host-core/src/coding_sessions.rs:1139-1149 | a text is rejected if and only if it collapses to fewer than three bytes or contains a system marker |
| SessionTitle.NormalizeIdempotent | crates/host-core/src/coding_sessions.rs:1114-1149 | normalising a title again gives the same title |
| Upload.Table.OnStart | crates/host-core/src/daemon.rs:1718-1811 | the new table, files and outcome of a start frame, with its tests in order: device limit, declared size, path, creation of the temporary file |
| Upload.Table.OnChunk | crates/host-core/src/daemon.rs:1812-1884 | the same for a chunk: an oversized or failed chunk ends the upload and removes its file, an accepted one is appended (which are accepted: `ChunkAcceptedIff`) |
| Upload.Table.OnEnd | crates/host-core/src/daemon.rs:1885-1927 | the same for an end frame: rename, or removal of the temporary file |
| Upload.Table.ExpireStale | crates/host-core/src/daemon.rs:1196-1206 | exactly the entries idle for 300 seconds go, with their files |
| Upload.Table.OnChannelClosed | crates/host-core/src/daemon.rs:1627-1642 | exactly the entries whose key starts with the device prefix go, with their files |
| Upload.KeyTellsDevice | crates/host-core/src/daemon.rs:1715-1731 | a key counts as a device's if and only if the device owns it, or its owner's id continues that device's id after a colon |
| Upload.KeysAreDistinct | crates/host-core/src/daemon.rs:1715 | with no colon in device ids two uploads share a key only if device and request agree |
| Upload.ColonConfusesDevices | crates/host-core/src/daemon.rs:1715 | with a colon two devices can share a key, and one's prefix covers the other's |
| Upload.UploadsAreFaithful | crates/host-core/src/daemon.rs:1717-1942 | after any events every live upload has on disk exactly the chunks sent since its start, in order, within the declared size and the cap; every other path holds what the last upload that ended well there had been sent, or was left behind; no other ending touches a final path. The one condition: no upload ends by being renamed onto another live upload's temporary file |
| Upload.EndKeepsOthersIff | crates/host-core/src/daemon.rs:1885-1927 | an end keeps the other uploads faithful if and only if it does not replace one's file by something else than that one has been sent |
| Upload.CrossedEndPublishesOther | crates/host-core/src/daemon.rs:1718-1927 | for any path and byte, a run of five frames in which an upload is asked for under another's temporary name, and the other publishes something it was not sent |
| Upload.TemporaryFilesMatchIff | crates/host-core/src/daemon.rs:1717-1942 | the files that are neither there from the start nor published nor a live upload's are exactly those left behind by starting a live key again or by a failed removal, and not published over since; there are none if and only if no event left one |
| Upload.DeviceLimitHolds | crates/host-core/src/daemon.rs:1728-1746 | after any events, for every device id whatever, at most three live uploads were started by that device |
| Upload.PrefixCountHolds | crates/host-core/src/daemon.rs:1728-1731 | the prefix count that the start frame looks at also stays within three for every device without a colon, if no starting device has one |
| Upload.EndPublishesIff | crates/host-core/src/daemon.rs:1885-1927 | an end succeeds if and only if the upload is live and the rename works, however little of the declared size has come; the final path then holds what was sent and the temporary file is gone; otherwise no final path changes |
| Upload.StartedIff | crates/host-core/src/daemon.rs:1718-1811 | a start is accepted if and only if fewer than three live keys begin with the device and a colon, the declared size is there and at most 100 MiB, the path resolves and the temporary file can be created; otherwise nothing changes |
| Upload.ChunkAcceptedIff | crates/host-core/src/daemon.rs:1812-1884 | in every uncrossed run a chunk for a live upload is accepted if and only if it has at most 1 MiB, what was sent before and it together have at most the declared size, and the write works; the upload stays live exactly then |
| Upload.WholeUploadPublishes | crates/host-core/src/daemon.rs:1718-1927 | from any state, an accepted start, any chunks that together have at most the declared size, up to the very last byte, and an end with a working rename publish all of them at the path and change nothing else |
| Upload.UploadEndsIff | crates/host-core/src/daemon.rs:1627-1942 | in every uncrossed run a live upload ends if and only if a chunk for it is refused, an end or a cancel comes under its key, a sweep finds it 300 seconds old, or its device's channel closes; its temporary file goes with it unless published or impossible to remove |
| Upload.SweepEndsIdle | crates/host-core/src/daemon.rs:1196-1206 | in every run a sweep ends exactly the uploads whose last accepted frame is 300 seconds old or older |
| Watchdog.Loop.OnPingTick | crates/host-core/src/daemon.rs:3386-3417 | the loop's variables after a ping tick: a pending deadline is not overwritten |
| Watchdog.Loop.OnWatchdogTick | crates/host-core/src/daemon.rs:3418-3434 | the same after a watchdog tick: the idle rule, then the pong rule |
| Watchdog.Loop.OnIncoming | crates/host-core/src/daemon.rs:3436-3562 | the same after a frame, a `daemon_kill` or a failed read |
| Watchdog.SilenceEndsLoop | crates/host-core/src/daemon.rs:3386-3434 | with punctual timers of any phase, if no frame arrives after time s, the loop has been left by s + 30 + 15 + 5 |
| Watchdog.IdleRuleNeverFires | crates/host-core/src/daemon.rs:549-554 | with punctual timers the idle rule never is what ends the loop |
| Watchdog.DeadlineIsOldestUnanswered | crates/host-core/src/daemon.rs:3398-3410 | while the loop runs a deadline is set if and only if some ping has had no Pong since, and it belongs to the oldest such ping |
| Watchdog.PongExitIsDeserved | crates/host-core/src/daemon.rs:3426-3434 | when the pong rule ends the loop, a ping was sent at least 15 seconds before and has had no Pong |
| Watchdog.LoopLeavesIff | crates/host-core/src/daemon.rs:3386-3562 | on every trace the loop is left exactly at the first failed ping, kill, failed read, or watchdog tick that finds more than 90 seconds of silence or a ping without Pong for 15, at that time and for that reason; with none of them it runs on |
| AuditRotation.AuditDir.Rename | crates/host-core/src/audit.rs:258-290 | requires that the target does not exist: no rename of the shift loop destroys a file |
| AuditRotation.AuditDir.RotateAuditLog | crates/host-core/src/audit.rs:258-290 | the descending loop moves every file up by one and loses only the fifth archive, gaps or not |
| AuditRotation.AuditDir.WriteAuditEvent | crates/host-core/src/audit.rs:100-130 | rotation at the size limit, then the event at the end; never more than five archives |
| AuditRotation.WriteKeepsOrder | crates/host-core/src/audit.rs:100-130 | a write adds its event behind everything kept and removes nothing but one whole file at the other end |
| AuditRotation.WindowOnHistory | crates/host-core/src/audit.rs:100-130 | after any writes the dropped files, whole, followed by the archives from oldest to newest and the log are the entire history |
| AuditRotation.DroppedOnlyWhenFull | crates/host-core/src/audit.rs:95-130 | from an empty directory there are no gaps, and something has been dropped only if five full archives remain |
| AuditRotation.FilesStayFilled | crates/host-core/src/audit.rs:100-130 | after any writes every file without its last event is smaller than 5 MiB, and every archive has reached 5 MiB |
| AuditRotation.RotationMoves | crates/host-core/src/audit.rs:258-290 | with any set of failing renames, whose errors are ignored, and whether or not the oldest archive could be removed, every number holds the file that came from one determined number, and no file ends up twice |
| AuditRotation.FileIsLostIff | crates/host-core/src/audit.rs:276-288 | a file, whatever it contains, is lost if and only if no rename takes it away and the one onto its place succeeds |
| AuditPaging.ReadAuditTail | crates/host-core/src/audit.rs:195-253 | the loop with its filters, the reversal and the cut return the newest matching events and whether there are more |
| AuditPaging.MatchingIff | crates/host-core/src/audit.rs:195-253 | an event matches if and only if its kind begins with the prefix and, with a boundary, its time can be read and lies strictly before it |
| AuditPaging.FollowReturns | crates/host-core/src/audit.rs:195-253 | with increasing timestamps, paging on from a boundary behind the first k events returns exactly those, newest first |
| AuditPaging.PagingIsExactIff | crates/host-core/src/audit.rs:195-253 | on every log, for all limits from 1 to 100, the pages return every matching event once, newest first, if and only if there is at most one, or all have readable timestamps that strictly increase along the file |
| AuditPaging.SkipsEqualTimes | crates/host-core/src/audit.rs:233-241 | on every log, after a page that ends at some time no later page shows an event of that time or a later one, nor one with an unreadable timestamp |
| AuditPaging.AppendsKeepOlderPages | crates/host-core/src/audit.rs:195-253 | events appended later, at no earlier time than the boundary, leave the older page as it was |
| AuditPaging.UnreadableIsReturnedIff | crates/host-core/src/audit.rs:176-253 | on every log a page has an event with an unreadable timestamp if and only if no boundary is given and such an event is among the newest `limit` matches |
| AuditPaging.UnreadableTimestampIsReturned | crates/host-core/src/audit.rs:176-253 | a log of two lines on which that happens, and the next page cannot be asked for |
| FrameStream.EncodeFrame | crates/host-core/src/local_attach.rs:17-24 | the pushes and extends yield kind, big-endian length and payload |
| FrameStream.EncodingLayout | crates/host-core/src/local_attach.rs:17-24 | kind, then four bytes of length with the highest first, then the payload |
| FrameStream.ReadFrames | crates/host-agent/src/main.rs:1940-1964 | the read loop on a stream equals feeding it byte by byte: frames, oversized frame, error frame, end inside a frame |
| FrameStream.BigEndianInverts | crates/host-core/src/local_attach.rs:17-24 | the 32-bit and 16-bit big-endian forms are read back |
| FrameStream.ResizeArrives | crates/host-agent/src/main.rs:1920-1926 | a terminal size arrives as sent, unless a side is zero, and then it is ignored |
| FrameStream.DecodeInvertsEncode | crates/host-agent/src/main.rs:1940-1964 | reading the encodings of any list of frames within the size limit gives that list back, up to the first error frame |
| FrameStream.PrefixGivesPrefix | crates/host-agent/src/main.rs:1940-1964 | any part of the stream from its beginning gives a prefix of the list |
| FrameStream.EncodingsArePrefixFree | crates/host-core/src/local_attach.rs:17-24 | no frame's encoding is the beginning of another's |
| FrameStream.RunReadsKept | crates/host-agent/src/main.rs:1940-1992 | with arrivals in any pieces and interruptions by key presses and window changes, the reader has understood exactly the bytes left after taking out the interrupted headers; with no such interruption that is every byte, on every stream |
| FrameStream.ArrivalIsExactIff | crates/host-agent/src/main.rs:1940-1992 | if the whole stream ends in no error, the pieces lead to the same state as the stream read at once if and only if no interruption fell into a header |
| FrameStream.KeyPressLosesFrame | crates/host-agent/src/main.rs:1940-1992 | a key press after two bytes of a header: the frame is lost and its rest is taken for a header |

## Left out

- HTTP, WebRTC, WebSocket and TURN transport, process spawning and signals: foreign effects. The backend, the child and the clock appear as labels with the few facts used.
- Cryptography, signatures, permissions, trust decisions, the contents of audit events, JSON: the cursor's JSON is taken to be an injective encoding, parsed lines and frames are datatypes.
- The CLI, pairing, installation, logging, configuration, `dev_ports.rs`, `alerts.rs`, `project_index.rs`, `error.rs`, launch plans and statistics: they would only add easy members.
- `StateStore` beyond `load`, `save` and the login check: device and trust records are not part of this model. A keyring that fails on `load` counts as a failed load.
- TokenRotation.EachTokenPresentedOnce: speaks of runs in which only these functions write `auth`, as `OtherSaveKeepsIff` shows is needed, and in which the backend withdraws no token by its own decision.
- AgentRouter: the router's detach, close and each reaping of the sweep are one step each, as all of them run on the one event loop; lines, exits, receiver drops and late resume ids come between any two steps of a bind.
- AgentSession::close with its 3-second abort, back-pressure of the channels, and reuse of a pid before it is cleared: timing of the runtime.
- ParseCache: the working-directory fallback of a parse is taken as fixed, and the Codex title stores with their own cache are not part of this model.
- PathDecoder.DecodeInvertsEncode: names that begin like a drive take the Windows branch; what that branch finds on a Windows file system is not modelled beyond its coming first.
- Upload.UploadsAreFaithful: temporary files are followed by path, so a removal or replacement by another program, and what an upload writes after its file has been replaced, are not captured. Creation of missing parent directories is left out.
- Upload.PrefixCountHolds: says nothing about device ids with a colon, which share their counts (`ColonConfusesDevices`).
- Watchdog: every arm takes no time, so the up to ten seconds of a blocked ping are not counted; the shutdown signal and the other arms that can leave the loop are not part of this model.
- AuditRotation.WindowOnHistory: assumes that renames succeed; what single failures cost is `FileIsLostIff`.
- FrameStream.ArrivalIsExactIff: leaves out streams that end in an error frame or an oversized frame.
- `main.rs`: sending input, detaching and the first answer to an attach request, which is read by the same header and payload code.
