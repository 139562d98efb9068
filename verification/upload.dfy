/** Streamed uploads: the frames `upload_start`, `upload_chunk`, `upload_end` and `upload_cancel`, the
    sweep of stale uploads and the clean-up after a closed channel
    (crates/host-core/src/daemon.rs and daemon/files.rs). */
module Upload {
  import opened Basics

  type Byte = b: int | 0 <= b < 256

  type Bytes = seq<Byte>

  datatype Path = Path(parent: string, name: string)

  const MAX_STREAM_UPLOAD_BYTES: nat := 100 * 1024 * 1024
  const MAX_STREAM_UPLOAD_CHUNK_BYTES: nat := 1024 * 1024
  const MAX_ACTIVE_UPLOADS_PER_DEVICE: nat := 3
  const FILES_MESSAGE_TIMEOUT_SECS := 300
  const TMP_SUFFIX := ".pstmp"

  datatype Pending = Pending(finalPath: Path, tmpPath: Path, bytesWritten: nat, expectedSize: Option<nat>, createdAt: int)

  type Uploads = map<string, Pending>

  /** The table of uploads, and the part of the file system that holds their files. */
  datatype State = State(uploads: Uploads, files: map<Path, Bytes>)

  /** What can happen, with what the file system answers: whether the path resolves, whether the
      temporary file can be created, written and renamed. `stamp` is the process id and the clock. */
  datatype Op =
    | Start(device: string, id: string, size: Option<nat>, path: Option<Path>, stamp: string, opens: bool)
    | Chunk(device: string, id: string, payload: Bytes, writes: bool)
    | End(device: string, id: string, renames: bool)
    | Cancel(device: string, id: string)
    | Sweep
    | Closed(device: string)

  /** `stuck`: the paths whose removal fails. */
  datatype Event = Event(op: Op, now: int, stuck: set<Path>)

  datatype Outcome =
    | Started | LimitExceeded | NoSize | PathFailed | OpenFailed
    | Accepted | ChunkTooLarge | NotFound | TooLarge | WriteFailed
    | Done | StateMissing | RenameFailed
    | Cancelled | Cleaned

  // ---------------------------------------------------------------- the keys

  function DevicePrefix(device: string): string {
    device + ":"
  }

  function Key(device: string, id: string): string {
    DevicePrefix(device) + id
  }

  predicate StartsWith(s: string, prefix: string) {
    |prefix| <= |s| && s[..|prefix|] == prefix
  }

  /** The keys that count as the device's. */
  function Mine(uploads: Uploads, device: string): set<string> {
    set k | k in uploads && StartsWith(k, DevicePrefix(device))
  }

  /** A key counts as a device's exactly if it is one of its own, or one of a device whose id goes on
      after a colon. */
  lemma KeyTellsDevice(device: string, other: string, id: string)
    requires ':' !in device
    ensures StartsWith(Key(other, id), DevicePrefix(device)) <==> device == other || StartsWith(other, DevicePrefix(device))
  {
    var k, n := Key(other, id), |device| + 1;
    assert k == other + ":" + id;
    assert device == other ==> k[..n] == DevicePrefix(device);
    if n <= |other| {
      assert k[..n] == other[..n];
    } else if StartsWith(k, DevicePrefix(device)) {
      assert forall i :: 0 <= i < |device| ==> k[i] == k[..n][i] == device[i];
      assert k[|other|] == ':';
      assert |device| == |other|;
      assert device == k[..|device|] == other;
    }
  }

  lemma NoColonNoPrefix(device: string, other: string)
    ensures StartsWith(other, DevicePrefix(device)) ==> ':' in other
  {
    if StartsWith(other, DevicePrefix(device)) {
      assert other[..|device| + 1][|device|] == DevicePrefix(device)[|device|];
    }
  }

  /** With no colon in device ids, two uploads share a key only if device and request agree. */
  lemma KeysAreDistinct(device: string, id: string, other: string, otherId: string)
    requires ':' !in device && ':' !in other
    ensures Key(device, id) == Key(other, otherId) <==> device == other && id == otherId
  {
    if Key(device, id) == Key(other, otherId) {
      assert Key(device, id)[..|device| + 1] == DevicePrefix(device);
      KeyTellsDevice(device, other, otherId);
      NoColonNoPrefix(device, other);
      assert Key(device, id)[|device| + 1..] == id;
      assert Key(other, otherId)[|other| + 1..] == otherId;
    }
  }

  /** With a colon they may not, and one device's frames reach the other's upload. */
  lemma ColonConfusesDevices()
    ensures Key("a", "b:x") == Key("a:b", "x")
    ensures StartsWith(Key("a:b", "x"), DevicePrefix("a"))
  {
    assert Key("a", "b:x") == "a:b:x" == Key("a:b", "x");
    assert "a:b:x"[..2] == "a:";
  }

  // --------------------------------------------------------------- the steps

  function TmpPath(p: Path, stamp: string): (t: Path) {
    Path(p.parent, "." + p.name + "." + stamp + TMP_SUFFIX)
  }

  /** The temporary file lies beside the final one, hidden, with its own ending. */
  lemma TmpPathIsBeside(p: Path, stamp: string)
    ensures var t := TmpPath(p, stamp);
            && t.parent == p.parent && |t.name| == |p.name| + |stamp| + 8 && t.name[0] == '.' && t.name[1..|p.name| + 1] == p.name
            && t.name[|t.name| - 6..] == ".pstmp"
  {
    var t := TmpPath(p, stamp);
    assert t.name == "." + p.name + ("." + stamp + ".pstmp");
    assert t.name == ("." + p.name + "." + stamp) + ".pstmp";
  }

  lemma TmpPathDiffers(p: Path, stamp: string)
    ensures TmpPath(p, stamp) != p
  {
    assert |TmpPath(p, stamp).name| > |p.name|;
  }

  function TmpsOf(uploads: Uploads, keys: set<string>): set<Path>
    requires keys <= uploads.Keys
  {
    set k | k in keys :: uploads[k].tmpPath
  }

  /** Entries go, and with them their temporary files, unless the removal of a file fails. */
  function DropAll(s: State, keys: set<string>, stuck: set<Path>): State
    requires keys <= s.uploads.Keys
  {
    State(s.uploads - keys, s.files - (TmpsOf(s.uploads, keys) - stuck))
  }

  function DropIfLive(s: State, k: string, stuck: set<Path>): State {
    if k in s.uploads then DropAll(s, {k}, stuck) else s
  }

  function Content(files: map<Path, Bytes>, p: Path): Bytes {
    if p in files then files[p] else []
  }

  predicate Fits(size: nat, u: Pending) {
    size <= MAX_STREAM_UPLOAD_BYTES && (u.expectedSize.Some? ==> size <= u.expectedSize.value)
  }

  predicate Idle(u: Pending, now: int) {
    now - u.createdAt >= FILES_MESSAGE_TIMEOUT_SECS
  }

  function Stale(uploads: Uploads, now: int): set<string> {
    set k | k in uploads && Idle(uploads[k], now)
  }

  function StartStep(s: State, op: Op, now: int): (State, Outcome)
    requires op.Start?
  {
    if |Mine(s.uploads, op.device)| >= MAX_ACTIVE_UPLOADS_PER_DEVICE then (s, LimitExceeded)
    else if op.size.None? || op.size.value > MAX_STREAM_UPLOAD_BYTES then (s, NoSize)
    else if op.path.None? then (s, PathFailed)
    else
      var tmp := TmpPath(op.path.value, op.stamp);
      if !op.opens || tmp in s.files then (s, OpenFailed)
      else
        var u := Pending(op.path.value, tmp, 0, op.size, now);
        (State(s.uploads[Key(op.device, op.id) := u], s.files[tmp := []]), Started)
  }

  function ChunkStep(s: State, op: Op, now: int, stuck: set<Path>): (State, Outcome)
    requires op.Chunk?
  {
    var k := Key(op.device, op.id);
    if |op.payload| > MAX_STREAM_UPLOAD_CHUNK_BYTES then (DropIfLive(s, k, stuck), ChunkTooLarge)
    else if k !in s.uploads then (s, NotFound)
    else
      var u := s.uploads[k];
      var next := u.bytesWritten + |op.payload|;
      if !Fits(next, u) then (DropAll(s, {k}, stuck), TooLarge)
      else if !op.writes then (DropAll(s, {k}, stuck), WriteFailed)
      else
        (State(s.uploads[k := u.(bytesWritten := next, createdAt := now)],
               s.files[u.tmpPath := Content(s.files, u.tmpPath) + op.payload]),
         Accepted)
  }

  function EndStep(s: State, op: Op, stuck: set<Path>): (State, Outcome)
    requires op.End?
  {
    var k := Key(op.device, op.id);
    if k !in s.uploads then (s, StateMissing)
    else
      var u := s.uploads[k];
      if op.renames && u.tmpPath in s.files then
        (State(s.uploads - {k}, (s.files - {u.tmpPath})[u.finalPath := s.files[u.tmpPath]]), Done)
      else (DropAll(s, {k}, stuck), RenameFailed)
  }

  function Step(s: State, e: Event): (State, Outcome) {
    match e.op
    case Start(_, _, _, _, _, _) => StartStep(s, e.op, e.now)
    case Chunk(_, _, _, _) => ChunkStep(s, e.op, e.now, e.stuck)
    case End(_, _, _) => EndStep(s, e.op, e.stuck)
    case Cancel(device, id) => (DropIfLive(s, Key(device, id), e.stuck), Cancelled)
    case Sweep => (DropAll(s, Stale(s.uploads, e.now), e.stuck), Cleaned)
    case Closed(device) => (DropAll(s, Mine(s.uploads, device), e.stuck), Cleaned)
  }

  lemma DropOneMore(s: State, keys: set<string>, k: string, stuck: set<Path>)
    requires keys <= s.uploads.Keys && k in s.uploads && k !in keys
    ensures DropAll(s, keys + {k}, stuck) == DropAll(DropAll(s, keys, stuck), {k}, stuck)
  {
    var once, twice := DropAll(s, keys + {k}, stuck), DropAll(DropAll(s, keys, stuck), {k}, stuck);
    assert TmpsOf(s.uploads, keys + {k}) == TmpsOf(s.uploads, keys) + {s.uploads[k].tmpPath};
    assert TmpsOf(s.uploads - keys, {k}) == {s.uploads[k].tmpPath};
    assert once.uploads == twice.uploads;
    assert once.files == twice.files;
  }

  // ---------------------------------------------------------------- the table

  /** The daemon's own table, changed in place frame by frame. */
  class Table {
    var uploads: Uploads
    var files: map<Path, Bytes>

    ghost function View(): State
      reads this
    {
      State(uploads, files)
    }

    constructor (files: map<Path, Bytes>)
      ensures View() == State(map[], files)
    {
      uploads, this.files := map[], files;
    }

    method Remove(k: string, stuck: set<Path>)
      modifies this
      ensures View() == DropIfLive(old(View()), k, stuck)
    {
      if k in uploads {
        var tmp := uploads[k].tmpPath;
        assert TmpsOf(uploads, {k}) == {tmp};
        uploads := uploads - {k};
        if tmp !in stuck {
          files := files - {tmp};
        }
      }
    }

    method CountMine(device: string) returns (n: nat)
      ensures n == |Mine(uploads, device)|
    {
      n := 0;
      var todo := uploads.Keys;
      ghost var seen: set<string> := {};
      while todo != {}
        invariant todo !! seen && todo + seen == uploads.Keys
        invariant n == |Mine(uploads, device) * seen|
      {
        var k :| k in todo;
        ghost var mine := Mine(uploads, device) * seen;
        if StartsWith(k, DevicePrefix(device)) {
          n := n + 1;
          assert Mine(uploads, device) * (seen + {k}) == mine + {k};
        } else {
          assert Mine(uploads, device) * (seen + {k}) == mine;
        }
        todo, seen := todo - {k}, seen + {k};
      }
      assert Mine(uploads, device) * seen == Mine(uploads, device);
    }

    method OnStart(op: Op, now: int) returns (outcome: Outcome)
      requires op.Start?
      modifies this
      ensures (View(), outcome) == StartStep(old(View()), op, now)
    {
      var active := CountMine(op.device);
      if active >= MAX_ACTIVE_UPLOADS_PER_DEVICE {
        return LimitExceeded;
      }
      if op.size.None? || op.size.value > MAX_STREAM_UPLOAD_BYTES {
        return NoSize;
      }
      match op.path {
        case None =>
          return PathFailed;
        case Some(finalPath) =>
          var tmp := TmpPath(finalPath, op.stamp);
          if !op.opens || tmp in files {
            return OpenFailed;
          }
          files := files[tmp := []];
          uploads := uploads[Key(op.device, op.id) := Pending(finalPath, tmp, 0, op.size, now)];
          return Started;
      }
    }

    method OnChunk(op: Op, now: int, stuck: set<Path>) returns (outcome: Outcome)
      requires op.Chunk?
      modifies this
      ensures (View(), outcome) == ChunkStep(old(View()), op, now, stuck)
    {
      var k := Key(op.device, op.id);
      if |op.payload| > MAX_STREAM_UPLOAD_CHUNK_BYTES {
        Remove(k, stuck);
        return ChunkTooLarge;
      }
      if k !in uploads {
        return NotFound;
      }
      var u := uploads[k];
      var next := u.bytesWritten + |op.payload|;
      if next > MAX_STREAM_UPLOAD_BYTES || (u.expectedSize.Some? && next > u.expectedSize.value) {
        Remove(k, stuck);
        return TooLarge;
      }
      if !op.writes {
        Remove(k, stuck);
        return WriteFailed;
      }
      files := files[u.tmpPath := Content(files, u.tmpPath) + op.payload];
      uploads := uploads[k := u.(bytesWritten := next, createdAt := now)];
      return Accepted;
    }

    method OnEnd(op: Op, stuck: set<Path>) returns (outcome: Outcome)
      requires op.End?
      modifies this
      ensures (View(), outcome) == EndStep(old(View()), op, stuck)
    {
      var k := Key(op.device, op.id);
      if k !in uploads {
        return StateMissing;
      }
      var u := uploads[k];
      if op.renames && u.tmpPath in files {
        uploads := uploads - {k};
        files := (files - {u.tmpPath})[u.finalPath := files[u.tmpPath]];
        return Done;
      }
      Remove(k, stuck);
      return RenameFailed;
    }

    /** Both clean-ups: the entries of `keys` go one by one. */
    method RemoveAll(keys: set<string>, stuck: set<Path>)
      requires keys <= uploads.Keys
      modifies this
      ensures View() == DropAll(old(View()), keys, stuck)
    {
      ghost var was := View();
      var todo := keys;
      ghost var gone: set<string> := {};
      assert TmpsOf(uploads, {}) == {};
      assert View().files == DropAll(was, {}, stuck).files && View().uploads == DropAll(was, {}, stuck).uploads;
      while todo != {}
        invariant todo !! gone && todo + gone == keys
        invariant View() == DropAll(was, gone, stuck)
      {
        var k :| k in todo;
        DropOneMore(was, gone, k, stuck);
        Remove(k, stuck);
        todo, gone := todo - {k}, gone + {k};
      }
      assert gone == keys;
    }

    method ExpireStale(now: int, stuck: set<Path>)
      modifies this
      ensures View() == DropAll(old(View()), Stale(old(uploads), now), stuck)
    {
      var staleKeys := set k | k in uploads && now - uploads[k].createdAt >= FILES_MESSAGE_TIMEOUT_SECS;
      assert staleKeys == Stale(uploads, now);
      RemoveAll(staleKeys, stuck);
    }

    method OnChannelClosed(device: string, stuck: set<Path>)
      modifies this
      ensures View() == DropAll(old(View()), Mine(old(uploads), device), stuck)
    {
      var staleKeys := set k | k in uploads && StartsWith(k, DevicePrefix(device));
      assert staleKeys == Mine(uploads, device);
      RemoveAll(staleKeys, stuck);
    }
  }

  // ----------------------------------------------------------------- the runs

  /** An event and what came of it. */
  datatype Logged = Logged(event: Event, outcome: Outcome)

  type Log = seq<Logged>

  function Run(files: map<Path, Bytes>, es: seq<Event>): State {
    if es == [] then State(map[], files) else Step(Run(files, es[..|es| - 1]), es[|es| - 1]).0
  }

  function LogOf(files: map<Path, Bytes>, es: seq<Event>): (log: Log)
    ensures |log| == |es|
  {
    if es == [] then []
    else
      var last := es[|es| - 1];
      LogOf(files, es[..|es| - 1]) + [Logged(last, Step(Run(files, es[..|es| - 1]), last).1)]
  }

  predicate Begins(l: Logged, k: string) {
    l.event.op.Start? && l.outcome.Started? && Key(l.event.op.device, l.event.op.id) == k
  }

  predicate Brings(l: Logged, k: string) {
    l.event.op.Chunk? && Key(l.event.op.device, l.event.op.id) == k
  }

  /** All that was sent under the key since it was last started, whatever became of it. */
  function Sent(log: Log, k: string): Bytes {
    if log == [] then []
    else
      var before, l := log[..|log| - 1], log[|log| - 1];
      if Begins(l, k) then []
      else if Brings(l, k) then Sent(before, k) + l.event.op.payload
      else Sent(before, k)
  }

  /** The last start under the key. */
  function Begun(log: Log, k: string): (op: Option<Op>)
    ensures op.Some? ==> op.value.Start?
  {
    if log == [] then None
    else if Begins(log[|log| - 1], k) then Some(log[|log| - 1].event.op)
    else Begun(log[..|log| - 1], k)
  }

  /** When the key was last heard of with success. */
  function LastHeard(log: Log, k: string): int {
    if log == [] then 0
    else
      var l := log[|log| - 1];
      if Begins(l, k) || (Brings(l, k) && l.outcome.Accepted?) then l.event.now
      else LastHeard(log[..|log| - 1], k)
  }

  predicate Publishes(before: Log, l: Logged, p: Path) {
    l.event.op.End? && l.outcome.Done?
    && var begun := Begun(before, Key(l.event.op.device, l.event.op.id));
       begun.Some? && begun.value.path == Some(p)
  }

  /** What a path holds by the log alone: what was sent for the last upload that ended well there. */
  function Published(files: map<Path, Bytes>, log: Log, p: Path): Option<Bytes> {
    if log == [] then Lookup(files, p)
    else
      var before, l := log[..|log| - 1], log[|log| - 1];
      if Publishes(before, l, p) then Some(Sent(before, Key(l.event.op.device, l.event.op.id)))
      else Published(files, before, p)
  }

  function Lookup(files: map<Path, Bytes>, p: Path): Option<Bytes> {
    if p in files then Some(files[p]) else None
  }

  /** A live upload has on disk all that was sent since its start, within the declared size. */
  ghost predicate Held(s: State, log: Log, k: string)
    requires k in s.uploads
  {
    var u := s.uploads[k];
    && Lookup(s.files, u.tmpPath) == Some(Sent(log, k)) && u.tmpPath != u.finalPath
    && u.bytesWritten == |Sent(log, k)|
    && Begun(log, k).Some? && Begun(log, k).value.path == Some(u.finalPath) && Begun(log, k).value.size == u.expectedSize
    && u.expectedSize.Some? && |Sent(log, k)| <= u.expectedSize.value <= MAX_STREAM_UPLOAD_BYTES
    && u.createdAt == LastHeard(log, k)
  }

  ghost predicate AllHeld(s: State, log: Log) {
    forall k :: k in s.uploads ==> Held(s, log, k)
  }

  ghost predicate OwnFiles(s: State) {
    forall j, k :: j in s.uploads && k in s.uploads && j != k ==> s.uploads[j].tmpPath != s.uploads[k].tmpPath
  }

  /** Dropping entries takes nothing from the others. */
  lemma DropSparesOthers(s: State, log: Log, keys: set<string>, stuck: set<Path>)
    requires keys <= s.uploads.Keys && AllHeld(s, log) && OwnFiles(s)
    ensures AllHeld(DropAll(s, keys, stuck), log) && OwnFiles(DropAll(s, keys, stuck))
  {
    var s' := DropAll(s, keys, stuck);
    forall k | k in s'.uploads ensures Held(s', log, k) {
      assert Held(s, log, k);
      assert s.uploads[k].tmpPath !in TmpsOf(s.uploads, keys);
    }
  }

  /** An entry of the log that does not concern the live uploads. */
  lemma HeldLater(s: State, log: Log, l: Logged)
    requires AllHeld(s, log)
    requires forall k :: k in s.uploads ==> !Begins(l, k) && !Brings(l, k)
    ensures AllHeld(s, log + [l])
  {
    assert (log + [l])[..|log|] == log;
    forall k | k in s.uploads ensures Held(s, log + [l], k) {
      assert Held(s, log, k);
    }
  }

  /** One upload, when an entry is written and a file gets new content: its own or one of another. */
  lemma HeldBesides(s: State, log: Log, l: Logged, key: string, u: Pending, content: Bytes, k: string)
    requires k in s.uploads && k != key && Held(s, log, k) && !Begins(l, k) && !Brings(l, k)
    requires s.uploads[k].tmpPath != u.tmpPath
    ensures Held(State(s.uploads[key := u], s.files[u.tmpPath := content]), log + [l], k)
  {
    assert (log + [l])[..|log|] == log;
  }

  /** The step of an accepted start, without its tests. */
  lemma StartedMeans(s: State, e: Event)
    requires Step(s, e).1.Started?
    ensures e.op.Start? && e.op.path.Some? && e.op.size.Some? && e.op.size.value <= MAX_STREAM_UPLOAD_BYTES
    ensures var u := Pending(e.op.path.value, TmpPath(e.op.path.value, e.op.stamp), 0, e.op.size, e.now);
            u.tmpPath !in s.files
            && Step(s, e).0 == State(s.uploads[Key(e.op.device, e.op.id) := u], s.files[u.tmpPath := []])
  {
  }

  lemma HeldStarted(s: State, log: Log, e: Event)
    requires AllHeld(s, log) && OwnFiles(s) && Step(s, e).1.Started?
    ensures AllHeld(Step(s, e).0, log + [Logged(e, Started)]) && OwnFiles(Step(s, e).0)
  {
    StartedMeans(s, e);
    var key, l := Key(e.op.device, e.op.id), Logged(e, Started);
    var u := Pending(e.op.path.value, TmpPath(e.op.path.value, e.op.stamp), 0, e.op.size, e.now);
    var s' := State(s.uploads[key := u], s.files[u.tmpPath := []]);
    TmpPathDiffers(e.op.path.value, e.op.stamp);
    forall k | k in s.uploads ensures s.uploads[k].tmpPath != u.tmpPath {
      assert Held(s, log, k);
    }
    forall k | k in s'.uploads ensures Held(s', log + [l], k) {
      if k == key {
        assert Begins(l, k) && (log + [l])[|log|] == l;
      } else {
        HeldBesides(s, log, l, key, u, [], k);
      }
    }
  }

  lemma HeldAccepted(s: State, log: Log, e: Event)
    requires e.op.Chunk? && AllHeld(s, log) && OwnFiles(s) && Step(s, e).1.Accepted?
    ensures AllHeld(Step(s, e).0, log + [Logged(e, Accepted)]) && OwnFiles(Step(s, e).0)
  {
    var key, l := Key(e.op.device, e.op.id), Logged(e, Accepted);
    var u := Step(s, e).0.uploads[key];
    var content := Content(s.files, u.tmpPath) + e.op.payload;
    var s' := State(s.uploads[key := u], s.files[u.tmpPath := content]);
    assert Step(s, e).0 == s';
    forall k | k in s'.uploads ensures Held(s', log + [l], k) {
      if k == key {
        assert Held(s, log, key) && (log + [l])[..|log|] == log;
        assert Brings(l, key) && !Begins(l, key) && (log + [l])[|log|] == l;
      } else {
        HeldBesides(s, log, l, key, u, content, k);
      }
    }
  }

  /** The upload with this key would be renamed onto the file of another live upload. */
  predicate Overwrites(uploads: Uploads, k: string, j: string)
    requires k in uploads
  {
    j != k && j in uploads && uploads[j].tmpPath == uploads[k].finalPath
  }

  ghost predicate Crosses(s: State, e: Event) {
    e.op.End? && Step(s, e).1.Done?
    && var k := Key(e.op.device, e.op.id); k in s.uploads && exists j :: Overwrites(s.uploads, k, j)
  }

  /** An end keeps the other uploads faithful exactly if it does not replace one's file by something
      else than that one has been sent. */
  lemma EndKeepsOthersIff(s: State, log: Log, e: Event)
    requires e.op.End? && AllHeld(s, log) && OwnFiles(s) && Step(s, e).1.Done?
    ensures var k := Key(e.op.device, e.op.id);
            AllHeld(Step(s, e).0, log + [Logged(e, Done)])
            <==> forall j :: Overwrites(s.uploads, k, j) ==> Sent(log, j) == Sent(log, k)
  {
    var s', log', key := Step(s, e).0, log + [Logged(e, Done)], Key(e.op.device, e.op.id);
    assert Held(s, log, key) && log'[..|log|] == log;
    forall j | j in s'.uploads ensures Held(s', log', j) <==> (Overwrites(s.uploads, key, j) ==> Sent(log, j) == Sent(log, key)) {
      assert Held(s, log, j);
    }
    forall j | Overwrites(s.uploads, key, j) ensures j in s'.uploads {}
  }

  lemma HeldDone(s: State, log: Log, e: Event)
    requires e.op.End? && AllHeld(s, log) && OwnFiles(s) && Step(s, e).1.Done? && !Crosses(s, e)
    ensures AllHeld(Step(s, e).0, log + [Logged(e, Done)]) && OwnFiles(Step(s, e).0)
  {
    EndKeepsOthersIff(s, log, e);
  }

  function Ended(s: State, e: Event): set<string> {
    s.uploads.Keys - Step(s, e).0.uploads.Keys
  }

  predicate OnlyDrops(o: Outcome) {
    !o.Started? && !o.Accepted? && !o.Done?
  }

  lemma DropNothing(s: State, stuck: set<Path>)
    ensures DropAll(s, {}, stuck) == s
  {
    assert TmpsOf(s.uploads, {}) == {};
    assert s.uploads - {} == s.uploads && s.files - {} == s.files;
  }

  /** A step that starts nothing, accepts nothing and finishes nothing only drops entries. */
  lemma EndedByDrop(s: State, e: Event)
    requires OnlyDrops(Step(s, e).1)
    ensures Step(s, e).0 == DropAll(s, Ended(s, e), e.stuck)
    ensures forall k :: k in Step(s, e).0.uploads ==>
              !Begins(Logged(e, Step(s, e).1), k) && !Brings(Logged(e, Step(s, e).1), k)
  {
    DropNothing(s, e.stuck);
    var keys := match e.op
      case Sweep => Stale(s.uploads, e.now)
      case Closed(device) => Mine(s.uploads, device)
      case Start(_, _, _, _, _, _) => {}
      case _ => if Step(s, e).0 == s then {} else {Key(e.op.device, e.op.id)};
    assert Step(s, e).0 == DropAll(s, keys, e.stuck);
    assert Ended(s, e) == keys;
  }

  lemma HeldStep(s: State, log: Log, e: Event)
    requires AllHeld(s, log) && OwnFiles(s) && !Crosses(s, e)
    ensures AllHeld(Step(s, e).0, log + [Logged(e, Step(s, e).1)]) && OwnFiles(Step(s, e).0)
  {
    match Step(s, e).1
    case Started => HeldStarted(s, log, e);
    case Accepted => HeldAccepted(s, log, e);
    case Done => HeldDone(s, log, e);
    case o =>
      EndedByDrop(s, e);
      DropSparesOthers(s, log, Ended(s, e), e.stuck);
      HeldLater(Step(s, e).0, log, Logged(e, o));
  }

  // ------------------------------------------------------------ the other files

  ghost predicate IsLive(s: State, p: Path) {
    exists k :: k in s.uploads && s.uploads[k].tmpPath == p
  }

  /** What the step leaves behind: the file of a live upload that is started again, and the files that
      could not be removed. */
  function LeftBehind(s: State, e: Event): set<Path> {
    var (s', outcome) := Step(s, e);
    if outcome.Done? then {}
    else if outcome.Started? then
      var k := Key(e.op.device, e.op.id);
      if k in s.uploads then {s.uploads[k].tmpPath} else {}
    else TmpsOf(s.uploads, Ended(s, e)) * e.stuck
  }

  /** The path the step publishes. */
  function PublishedBy(s: State, e: Event): set<Path> {
    if Step(s, e).1.Done? then
      var k := Key(e.op.device, e.op.id);
      if k in s.uploads then {s.uploads[k].finalPath} else {}
    else {}
  }

  /** What has been left behind and not published over since. */
  function Leaked(files: map<Path, Bytes>, es: seq<Event>): set<Path> {
    if es == [] then {}
    else
      var s, e := Run(files, es[..|es| - 1]), es[|es| - 1];
      Leaked(files, es[..|es| - 1]) + LeftBehind(s, e) - PublishedBy(s, e)
  }

  /** Every path is a live temporary file, or left behind, or as the log says; the first two kinds have
      never been published. */
  ghost predicate FileOk(s: State, files: map<Path, Bytes>, log: Log, leaked: set<Path>, p: Path) {
    if IsLive(s, p) || p in leaked
    then p in s.files && Published(files, log, p).None? && !(IsLive(s, p) && p in leaked)
    else Lookup(s.files, p) == Published(files, log, p)
  }

  ghost predicate AllFiles(s: State, files: map<Path, Bytes>, log: Log, leaked: set<Path>) {
    forall p :: FileOk(s, files, log, leaked, p)
  }

  lemma LiveAfterStart(s: State, key: string, u: Pending, files: map<Path, Bytes>, p: Path)
    requires OwnFiles(s)
    ensures IsLive(State(s.uploads[key := u], files), p)
       <==> p == u.tmpPath || (IsLive(s, p) && !(key in s.uploads && p == s.uploads[key].tmpPath))
  {
    var s' := State(s.uploads[key := u], files);
    assert s'.uploads[key] == u;
    if IsLive(s, p) && !(key in s.uploads && p == s.uploads[key].tmpPath) {
      var k :| k in s.uploads && s.uploads[k].tmpPath == p;
      assert s'.uploads[k].tmpPath == p;
    }
    if IsLive(s', p) && p != u.tmpPath {
      var k :| k in s'.uploads && s'.uploads[k].tmpPath == p;
      assert k in s.uploads && s.uploads[k].tmpPath == p;
    }
  }

  lemma LiveAfterDrop(s: State, keys: set<string>, files: map<Path, Bytes>, p: Path)
    requires keys <= s.uploads.Keys && OwnFiles(s)
    ensures IsLive(State(s.uploads - keys, files), p) <==> IsLive(s, p) && p !in TmpsOf(s.uploads, keys)
  {
    if IsLive(s, p) && p !in TmpsOf(s.uploads, keys) {
      var k :| k in s.uploads && s.uploads[k].tmpPath == p;
      assert k in s.uploads - keys;
    }
  }

  lemma NothingPublished(files: map<Path, Bytes>, log: Log, l: Logged, p: Path)
    requires !Publishes(log, l, p)
    ensures Published(files, log + [l], p) == Published(files, log, p)
  {
    assert (log + [l])[..|log|] == log;
  }

  lemma FilesStarted(s: State, files: map<Path, Bytes>, log: Log, leaked: set<Path>, e: Event, p: Path)
    requires OwnFiles(s) && Step(s, e).1.Started? && FileOk(s, files, log, leaked, p)
    ensures FileOk(Step(s, e).0, files, log + [Logged(e, Started)], leaked + LeftBehind(s, e), p)
  {
    StartedMeans(s, e);
    var u := Pending(e.op.path.value, TmpPath(e.op.path.value, e.op.stamp), 0, e.op.size, e.now);
    var key := Key(e.op.device, e.op.id);
    LiveAfterStart(s, key, u, s.files[u.tmpPath := []], p);
    NothingPublished(files, log, Logged(e, Started), p);
    if key in s.uploads && p == s.uploads[key].tmpPath {
      assert IsLive(s, p);
    }
  }

  lemma FilesAccepted(s: State, files: map<Path, Bytes>, log: Log, leaked: set<Path>, e: Event, p: Path)
    requires AllHeld(s, log) && OwnFiles(s) && Step(s, e).1.Accepted? && FileOk(s, files, log, leaked, p)
    ensures FileOk(Step(s, e).0, files, log + [Logged(e, Accepted)], leaked, p) && LeftBehind(s, e) == {}
  {
    var key := Key(e.op.device, e.op.id);
    var u := Step(s, e).0.uploads[key];
    assert Held(s, log, key);
    LiveAfterStart(s, key, u, Step(s, e).0.files, p);
    NothingPublished(files, log, Logged(e, Accepted), p);
    assert Ended(s, e) == {};
    assert IsLive(s, u.tmpPath);
  }

  lemma FilesDone(s: State, files: map<Path, Bytes>, log: Log, leaked: set<Path>, e: Event, p: Path)
    requires AllHeld(s, log) && OwnFiles(s) && Step(s, e).1.Done? && !Crosses(s, e)
    requires FileOk(s, files, log, leaked, p)
    ensures FileOk(Step(s, e).0, files, log + [Logged(e, Done)], leaked - PublishedBy(s, e), p)
  {
    var key, l := Key(e.op.device, e.op.id), Logged(e, Done);
    var u := s.uploads[key];
    assert Held(s, log, key);
    LiveAfterDrop(s, {key}, Step(s, e).0.files, p);
    assert TmpsOf(s.uploads, {key}) == {u.tmpPath} && IsLive(s, u.tmpPath);
    if p == u.finalPath {
      forall j | j in s.uploads ensures s.uploads[j].tmpPath != p {
        assert !Overwrites(s.uploads, key, j);
      }
      assert (log + [l])[..|log|] == log && Publishes(log, l, p);
    } else {
      NothingPublished(files, log, l, p);
    }
  }

  lemma FilesDropped(s: State, files: map<Path, Bytes>, log: Log, leaked: set<Path>, keys: set<string>, stuck: set<Path>, p: Path)
    requires keys <= s.uploads.Keys && OwnFiles(s) && FileOk(s, files, log, leaked, p)
    ensures FileOk(DropAll(s, keys, stuck), files, log, leaked + TmpsOf(s.uploads, keys) * stuck, p)
  {
    LiveAfterDrop(s, keys, DropAll(s, keys, stuck).files, p);
    assert p in TmpsOf(s.uploads, keys) ==> IsLive(s, p);
  }

  lemma FilesStep(s: State, files: map<Path, Bytes>, log: Log, leaked: set<Path>, e: Event)
    requires AllHeld(s, log) && OwnFiles(s) && !Crosses(s, e) && AllFiles(s, files, log, leaked)
    ensures AllFiles(Step(s, e).0, files, log + [Logged(e, Step(s, e).1)], leaked + LeftBehind(s, e) - PublishedBy(s, e))
  {
    var (s', outcome) := Step(s, e);
    var log', leaked' := log + [Logged(e, outcome)], leaked + LeftBehind(s, e) - PublishedBy(s, e);
    forall p ensures FileOk(s', files, log', leaked', p) {
      assert FileOk(s, files, log, leaked, p);
      match outcome
      case Started =>
        FilesStarted(s, files, log, leaked, e, p);
        assert leaked' == leaked + LeftBehind(s, e);
      case Accepted =>
        FilesAccepted(s, files, log, leaked, e, p);
        assert leaked' == leaked;
      case Done =>
        FilesDone(s, files, log, leaked, e, p);
        assert leaked' == leaked - PublishedBy(s, e);
      case _ =>
        EndedByDrop(s, e);
        FilesDropped(s, files, log, leaked, Ended(s, e), e.stuck, p);
        NothingPublished(files, log, Logged(e, outcome), p);
        assert leaked' == leaked + TmpsOf(s.uploads, Ended(s, e)) * e.stuck;
    }
  }

  /** No end of the run replaces another live upload's file. */
  ghost predicate Uncrossed(files: map<Path, Bytes>, es: seq<Event>) {
    es == [] || (Uncrossed(files, es[..|es| - 1]) && !Crosses(Run(files, es[..|es| - 1]), es[|es| - 1]))
  }

  /** After any events: the live uploads hold what was sent, and every path holds exactly what the last
      upload that ended well there had been sent, except for the live temporary files and those left
      behind. */
  lemma {:induction false} UploadsAreFaithful(files: map<Path, Bytes>, es: seq<Event>)
    requires Uncrossed(files, es)
    ensures var s, log := Run(files, es), LogOf(files, es);
            AllHeld(s, log) && OwnFiles(s) && AllFiles(s, files, log, Leaked(files, es))
  {
    if es == [] {
      forall p ensures FileOk(Run(files, es), files, [], {}, p) {}
    } else {
      var before, e := es[..|es| - 1], es[|es| - 1];
      UploadsAreFaithful(files, before);
      HeldStep(Run(files, before), LogOf(files, before), e);
      FilesStep(Run(files, before), files, LogOf(files, before), Leaked(files, before), e);
    }
  }

  /** Files that are neither there from the start nor published nor a live upload's. */
  ghost function Orphans(s: State, files: map<Path, Bytes>, log: Log): set<Path> {
    set p | p in s.files && !IsLive(s, p) && Published(files, log, p).None?
  }

  /** The n-th event leaves the file behind, and nothing is published there afterwards. */
  ghost predicate LeftAt(files: map<Path, Bytes>, es: seq<Event>, n: nat, p: Path) {
    && n < |es| && p in LeftBehind(Run(files, es[..n]), es[n])
    && forall m :: n < m < |es| ==> p !in PublishedBy(Run(files, es[..m]), es[m])
  }

  lemma LeftAtNext(files: map<Path, Bytes>, es: seq<Event>, n: nat, p: Path)
    requires es != []
    ensures var k := |es| - 1;
            LeftAt(files, es, n, p)
            <==> (n < k && LeftAt(files, es[..k], n, p) && p !in PublishedBy(Run(files, es[..k]), es[k]))
                 || (n == k && p in LeftBehind(Run(files, es[..k]), es[k]))
  {
    var k := |es| - 1;
    forall m | 0 <= m < k ensures es[..k][..m] == es[..m] && es[..k][m] == es[m] {}
  }

  lemma {:induction false} LeakedIff(files: map<Path, Bytes>, es: seq<Event>, p: Path)
    ensures p in Leaked(files, es) <==> exists n: nat :: LeftAt(files, es, n, p)
  {
    if es != [] {
      var k := |es| - 1;
      var before := es[..k];
      LeakedIff(files, before, p);
      forall n: nat ensures LeftAt(files, es, n, p)
                       <==> (n < k && LeftAt(files, before, n, p) && p !in PublishedBy(Run(files, before), es[k]))
                            || (n == k && p in LeftBehind(Run(files, before), es[k]))
      {
        LeftAtNext(files, es, n, p);
      }
      assert LeftBehind(Run(files, before), es[k]) * PublishedBy(Run(files, before), es[k]) == {};
      if p in Leaked(files, es) {
        if p in LeftBehind(Run(files, before), es[k]) {
          assert LeftAt(files, es, k, p);
        } else {
          var n: nat :| LeftAt(files, before, n, p);
          assert LeftAt(files, es, n, p);
        }
      }
    }
  }

  /** The files are exactly the published ones and those of the live uploads, as long as no live key
      was started again and no removal failed, or what was left behind was published over later. */
  lemma TemporaryFilesMatchIff(files: map<Path, Bytes>, es: seq<Event>)
    requires Uncrossed(files, es)
    ensures Orphans(Run(files, es), files, LogOf(files, es)) == Leaked(files, es)
    ensures Orphans(Run(files, es), files, LogOf(files, es)) == {} <==> forall n: nat, p :: !LeftAt(files, es, n, p)
  {
    var s, log := Run(files, es), LogOf(files, es);
    UploadsAreFaithful(files, es);
    forall p ensures p in Orphans(s, files, log) <==> p in Leaked(files, es) {
      assert FileOk(s, files, log, Leaked(files, es), p);
    }
    forall p ensures p in Leaked(files, es) <==> exists n: nat :: LeftAt(files, es, n, p) {
      LeakedIff(files, es, p);
    }
  }

  // ------------------------------------------------- when one upload ends on another

  lemma RunOne(files: map<Path, Bytes>, es: seq<Event>, e: Event, s: State, s': State, o: Outcome)
    requires Run(files, es) == s && Step(s, e) == (s', o)
    ensures Run(files, es + [e]) == s' && LogOf(files, es + [e]) == LogOf(files, es) + [Logged(e, o)]
  {
    assert (es + [e])[..|es|] == es;
  }

  lemma LogOne(log: Log, l: Logged, k: string)
    ensures Sent(log + [l], k)
         == if Begins(l, k) then [] else if Brings(l, k) then Sent(log, k) + l.event.op.payload else Sent(log, k)
    ensures Begun(log + [l], k) == if Begins(l, k) then Some(l.event.op) else Begun(log, k)
  {
    assert (log + [l])[..|log|] == log;
  }

  /** Two starts by different devices: the second asks for the first one's temporary file. */
  lemma CrossedStarts(p: Path, stamp: string, other: string, e0: Event, e1: Event)
    requires TmpPath(p, stamp) != TmpPath(TmpPath(p, stamp), other)
    requires e0.op == Start("a", "x", Some(9), Some(p), stamp, true)
    requires e1.op == Start("b", "y", Some(9), Some(TmpPath(p, stamp)), other, true)
    ensures var t, t2 := TmpPath(p, stamp), TmpPath(TmpPath(p, stamp), other);
            var ua, ub := Pending(p, t, 0, Some(9), e0.now), Pending(t, t2, 0, Some(9), e1.now);
            && Step(State(map[], map[]), e0) == (State(map["a:x" := ua], map[t := []]), Started)
            && Step(State(map["a:x" := ua], map[t := []]), e1)
               == (State(map["a:x" := ua, "b:y" := ub], map[t := [], t2 := []]), Started)
  {
    assert Key("a", "x") == "a:x" && Key("b", "y") == "b:y";
    var none: Uploads := map[];
    assert Mine(none, "a") == {};
    KeyTellsDevice("b", "a", "x");
    var ua := Pending(p, TmpPath(p, stamp), 0, Some(9), e0.now);
    assert Mine(map["a:x" := ua], "b") == {};
  }

  /** The first upload gets a chunk, the second ends, then the first. */
  lemma CrossedEnds(p: Path, t: Path, t2: Path, byte: Byte, e2: Event, e3: Event, e4: Event)
    requires t != p && t2 != t && t2 != p
    requires e2.op == Chunk("a", "x", [byte], true) && e3.op == End("b", "y", true) && e4.op == End("a", "x", true)
    ensures var ua, ub := Pending(p, t, 0, Some(9), 0), Pending(t, t2, 0, Some(9), 0);
            var ua' := Pending(p, t, 1, Some(9), e2.now);
            var s3 := State(map["a:x" := ua', "b:y" := ub], map[t := [byte], t2 := []]);
            && Step(State(map["a:x" := ua, "b:y" := ub], map[t := [], t2 := []]), e2) == (s3, Accepted)
            && Step(s3, e3) == (State(map["a:x" := ua'], map[t := []]), Done) && Crosses(s3, e3)
            && Step(State(map["a:x" := ua'], map[t := []]), e4) == (State(map[], map[p := []]), Done)
  {
    assert Key("a", "x") == "a:x" && Key("b", "y") == "b:y";
    assert [] + [byte] == [byte];
    var ua, ub := Pending(p, t, 0, Some(9), 0), Pending(t, t2, 0, Some(9), 0);
    var ua' := Pending(p, t, 1, Some(9), e2.now);
    var s2 := State(map["a:x" := ua, "b:y" := ub], map[t := [], t2 := []]);
    var s3 := State(map["a:x" := ua', "b:y" := ub], map[t := [byte], t2 := []]);
    var s4 := State(map["a:x" := ua'], map[t := []]);
    assert Step(s2, e2).0.uploads == s3.uploads && Step(s2, e2).0.files == s3.files;
    assert Step(s3, e3).0.uploads == s4.uploads && Step(s3, e3).0.files == s4.files;
    assert Step(s4, e4).0.uploads == map[] && Step(s4, e4).0.files == map[p := []];
    assert Overwrites(s3.uploads, "b:y", "a:x");
  }

  function Crossed(p: Path, stamp: string, other: string, byte: Byte, n: nat): Event {
    var op :=
      if n == 0 then Start("a", "x", Some(9), Some(p), stamp, true)
      else if n == 1 then Start("b", "y", Some(9), Some(TmpPath(p, stamp)), other, true)
      else if n == 2 then Chunk("a", "x", [byte], true)
      else if n == 3 then End("b", "y", true)
      else End("a", "x", true);
    Event(op, 0, {})
  }

  lemma CrossedLog(p: Path, stamp: string, other: string, byte: Byte, log: Log)
    requires var e := (n: nat) => Crossed(p, stamp, other, byte, n);
             log == [Logged(e(0), Started)] + [Logged(e(1), Started)] + [Logged(e(2), Accepted)] + [Logged(e(3), Done)]
    ensures Begun(log, "a:x") == Some(Crossed(p, stamp, other, byte, 0).op) && Sent(log, "a:x") == [byte]
  {
    var e := (n: nat) => Crossed(p, stamp, other, byte, n);
    assert Key("a", "x") == "a:x" && Key("b", "y") == "b:y";
    var l1 := [Logged(e(0), Started)];
    LogOne([], Logged(e(0), Started), "a:x");
    assert [] + l1 == l1;
    LogOne(l1, Logged(e(1), Started), "a:x");
    LogOne(l1 + [Logged(e(1), Started)], Logged(e(2), Accepted), "a:x");
    LogOne(l1 + [Logged(e(1), Started)] + [Logged(e(2), Accepted)], Logged(e(3), Done), "a:x");
  }

  /** A run in which the upload of one device is asked for under the name of another's temporary file
      and ends first: what the other publishes is not what it was sent. */
  lemma CrossedEndPublishesOther(p: Path, stamp: string, other: string, byte: Byte)
    returns (es: seq<Event>)
    ensures |es| == 5 && !Uncrossed(map[], es)
    ensures Published(map[], LogOf(map[], es), p) == Some([byte]) && Lookup(Run(map[], es).files, p) == Some([])
  {
    var e := (n: nat) => Crossed(p, stamp, other, byte, n);
    var t := TmpPath(p, stamp);
    var t2 := TmpPath(t, other);
    assert |t2.name| > |t.name| > |p.name|;
    var ua, ub, ua' := Pending(p, t, 0, Some(9), 0), Pending(t, t2, 0, Some(9), 0), Pending(p, t, 1, Some(9), 0);
    var s1, s2 := State(map["a:x" := ua], map[t := []]), State(map["a:x" := ua, "b:y" := ub], map[t := [], t2 := []]);
    var s3 := State(map["a:x" := ua', "b:y" := ub], map[t := [byte], t2 := []]);
    var s4 := State(map["a:x" := ua'], map[t := []]);
    CrossedStarts(p, stamp, other, e(0), e(1));
    CrossedEnds(p, t, t2, byte, e(2), e(3), e(4));
    RunOne(map[], [], e(0), State(map[], map[]), s1, Started);
    assert [] + [e(0)] == [e(0)];
    RunOne(map[], [e(0)], e(1), s1, s2, Started);
    RunOne(map[], [e(0)] + [e(1)], e(2), s2, s3, Accepted);
    var before := [e(0)] + [e(1)] + [e(2)];
    RunOne(map[], before, e(3), s3, s4, Done);
    RunOne(map[], before + [e(3)], e(4), s4, State(map[], map[p := []]), Done);
    es := before + [e(3)] + [e(4)];
    assert es[..4] == before + [e(3)] && (before + [e(3)])[..3] == before;
    CrossedLog(p, stamp, other, byte, LogOf(map[], before + [e(3)]));
    NowPublished(map[], LogOf(map[], before + [e(3)]), Logged(e(4), Done), p);
  }

  lemma NowPublished(files: map<Path, Bytes>, log: Log, l: Logged, p: Path)
    requires Publishes(log, l, p)
    ensures Published(files, log + [l], p) == Some(Sent(log, Key(l.event.op.device, l.event.op.id)))
  {
    assert (log + [l])[..|log|] == log;
  }

  // ------------------------------------------------------------ limits and ends

  /** The live uploads that the device itself has started. */
  ghost function Own(s: State, log: Log, device: string): set<string> {
    set k | k in s.uploads && Begun(log, k).Some? && Begun(log, k).value.device == device
  }

  lemma {:induction false} BegunKey(log: Log, k: string)
    ensures Begun(log, k).Some? ==> Key(Begun(log, k).value.device, Begun(log, k).value.id) == k
  {
    if log != [] {
      BegunKey(log[..|log| - 1], k);
    }
  }

  /** A device's own uploads always count as its own, whatever colons there are. */
  lemma OwnIsMine(s: State, log: Log, device: string)
    ensures Own(s, log, device) <= Mine(s.uploads, device)
  {
    forall k | k in Own(s, log, device) ensures k in Mine(s.uploads, device) {
      BegunKey(log, k);
      assert Key(device, Begun(log, k).value.id)[..|device| + 1] == DevicePrefix(device);
    }
  }

  lemma OnlyStartAdds(s: State, e: Event)
    requires !Step(s, e).1.Started?
    ensures Step(s, e).0.uploads.Keys <= s.uploads.Keys
  {
  }

  lemma OwnStep(s: State, log: Log, e: Event, device: string)
    requires |Own(s, log, device)| <= MAX_ACTIVE_UPLOADS_PER_DEVICE
    ensures |Own(Step(s, e).0, log + [Logged(e, Step(s, e).1)], device)| <= MAX_ACTIVE_UPLOADS_PER_DEVICE
  {
    var (s', outcome) := Step(s, e);
    var l := Logged(e, outcome);
    var was, now := Own(s, log, device), Own(s', log + [l], device);
    assert (log + [l])[..|log|] == log;
    if outcome.Started? {
      StartedMeans(s, e);
      var key := Key(e.op.device, e.op.id);
      assert now <= if device == e.op.device then was + {key} else was;
      if device == e.op.device {
        OwnIsMine(s, log, device);
        SubsetSize(was, Mine(s.uploads, device));
        SubsetSize(now, was + {key});
      } else {
        SubsetSize(now, was);
      }
    } else {
      OnlyStartAdds(s, e);
      assert now <= was;
      SubsetSize(now, was);
    }
  }

  /** After any events no device has more than three live uploads that it has started itself. */
  lemma {:induction false} DeviceLimitHolds(files: map<Path, Bytes>, es: seq<Event>, device: string)
    ensures |Own(Run(files, es), LogOf(files, es), device)| <= MAX_ACTIVE_UPLOADS_PER_DEVICE
  {
    if es == [] {
      assert Own(Run(files, es), LogOf(files, es), device) == {};
    } else {
      var before := es[..|es| - 1];
      DeviceLimitHolds(files, before, device);
      OwnStep(Run(files, before), LogOf(files, before), es[|es| - 1], device);
    }
  }

  /** The count that the start frame looks at stays within three for every device without a colon, if no
      device that starts an upload has one. */
  ghost predicate WithinLimit(s: State) {
    forall device: string :: ':' !in device ==> |Mine(s.uploads, device)| <= MAX_ACTIVE_UPLOADS_PER_DEVICE
  }

  predicate PlainDevice(e: Event) {
    e.op.Start? ==> ':' !in e.op.device
  }

  lemma LimitStep(s: State, e: Event)
    requires WithinLimit(s) && PlainDevice(e)
    ensures WithinLimit(Step(s, e).0)
  {
    var (s', outcome) := Step(s, e);
    forall device: string | ':' !in device ensures |Mine(s'.uploads, device)| <= MAX_ACTIVE_UPLOADS_PER_DEVICE {
      var was, is_ := Mine(s.uploads, device), Mine(s'.uploads, device);
      if outcome.Started? {
        KeyTellsDevice(device, e.op.device, e.op.id);
        NoColonNoPrefix(device, e.op.device);
        var key := Key(e.op.device, e.op.id);
        assert is_ <= if device == e.op.device then was + {key} else was;
        SubsetSize(is_, if device == e.op.device then was + {key} else was);
      } else {
        assert is_ <= was;
        SubsetSize(is_, was);
      }
    }
  }

  lemma {:induction false} PrefixCountHolds(files: map<Path, Bytes>, es: seq<Event>)
    requires forall e <- es :: PlainDevice(e)
    ensures WithinLimit(Run(files, es))
  {
    if es != [] {
      PrefixCountHolds(files, es[..|es| - 1]);
      LimitStep(Run(files, es[..|es| - 1]), es[|es| - 1]);
    } else {
      assert forall device :: Mine(Run(files, es).uploads, device) == {};
    }
  }

  /** An upload can be ended as soon as it is live, however little of the declared size has come: then
      the final path holds what was sent. If the rename fails nothing but the temporary file goes. */
  lemma EndPublishesIff(files: map<Path, Bytes>, es: seq<Event>, e: Event)
    requires e.op.End? && Uncrossed(files, es)
    ensures var s, log, k := Run(files, es), LogOf(files, es), Key(e.op.device, e.op.id);
            var (s', outcome) := Step(s, e);
            && (outcome.Done? <==> k in s.uploads && e.op.renames)
            && k !in s'.uploads
            && (outcome.Done? ==> Lookup(s'.files, s.uploads[k].finalPath) == Some(Sent(log, k))
                                  && s.uploads[k].tmpPath !in s'.files)
            && (!outcome.Done? ==> forall p :: Lookup(s'.files, p) == Lookup(s.files, p)
                                               || (k in s.uploads && p == s.uploads[k].tmpPath))
  {
    var s, log, k := Run(files, es), LogOf(files, es), Key(e.op.device, e.op.id);
    UploadsAreFaithful(files, es);
    if k in s.uploads {
      assert Held(s, log, k);
      assert TmpsOf(s.uploads, {k}) == {s.uploads[k].tmpPath};
    }
  }

  /** The sweep ends exactly the uploads not heard of for 300 seconds. */
  lemma SweepEndsIdle(files: map<Path, Bytes>, es: seq<Event>, now: int, stuck: set<Path>)
    requires Uncrossed(files, es)
    ensures var s, log := Run(files, es), LogOf(files, es);
            forall k :: k in s.uploads ==>
              (k in Step(s, Event(Sweep, now, stuck)).0.uploads <==> now - LastHeard(log, k) < FILES_MESSAGE_TIMEOUT_SECS)
  {
    UploadsAreFaithful(files, es);
    var s, log := Run(files, es), LogOf(files, es);
    assert forall k :: k in s.uploads ==> Held(s, log, k);
  }

  // ------------------------------------------------------------- every answer

  /** A start is accepted exactly if fewer than three live keys begin with the device and a colon, a size
      within the cap is declared, the path resolves and the temporary file can be created anew. */
  lemma StartedIff(s: State, e: Event)
    requires e.op.Start?
    ensures Step(s, e).1 == Started <==>
              && |set k | k in s.uploads && StartsWith(k, e.op.device + ":")| < 3
              && e.op.size.Some? && e.op.size.value <= 100 * 1024 * 1024
              && e.op.path.Some? && e.op.opens && TmpPath(e.op.path.value, e.op.stamp) !in s.files
    ensures Step(s, e).1 != Started ==> Step(s, e).0 == s
  {
    assert Mine(s.uploads, e.op.device) == set k | k in s.uploads && StartsWith(k, e.op.device + ":");
  }

  /** In every run a chunk for a live upload is accepted exactly if it has at most 1 MiB, fits into what is
      still missing of the declared size, and can be written; otherwise the upload is over. */
  lemma ChunkAcceptedIff(files: map<Path, Bytes>, es: seq<Event>, e: Event)
    requires e.op.Chunk? && Uncrossed(files, es) && Key(e.op.device, e.op.id) in Run(files, es).uploads
    ensures var s, log, k := Run(files, es), LogOf(files, es), Key(e.op.device, e.op.id);
            var (s', outcome) := Step(s, e);
            && Begun(log, k).Some? && Begun(log, k).value.size.Some?
            && (outcome == Accepted <==>
                  && |e.op.payload| <= 1024 * 1024 && e.op.writes
                  && |Sent(log, k)| + |e.op.payload| <= Begun(log, k).value.size.value)
            && (outcome == Accepted <==> k in s'.uploads)
            && (outcome == WriteFailed ==> !e.op.writes)
  {
    UploadsAreFaithful(files, es);
    assert Held(Run(files, es), LogOf(files, es), Key(e.op.device, e.op.id));
  }

  /** The exact cause of every answer, in the order in which the tests are made. */
  lemma AnswerCauses(s: State, e: Event)
    ensures var o, op := Step(s, e).1, e.op;
            match op
            case Start(device, _, size, path, stamp, opens) =>
              && (o == LimitExceeded <==> |Mine(s.uploads, device)| >= 3)
              && (o == NoSize <==> o != LimitExceeded && (size.None? || size.value > 100 * 1024 * 1024))
              && (o == PathFailed <==> o != LimitExceeded && o != NoSize && path.None?)
              && (o == Started || o == OpenFailed || o == LimitExceeded || o == NoSize || o == PathFailed)
            case Chunk(device, id, payload, writes) =>
              var k := Key(device, id);
              && (o == ChunkTooLarge <==> |payload| > 1024 * 1024)
              && (o == NotFound <==> |payload| <= 1024 * 1024 && k !in s.uploads)
              && (o == TooLarge <==> |payload| <= 1024 * 1024 && k in s.uploads && !Fits(s.uploads[k].bytesWritten + |payload|, s.uploads[k]))
              && (o == Accepted || o == WriteFailed ==> (o == WriteFailed <==> !writes))
              && (o == Accepted || o == WriteFailed || o == ChunkTooLarge || o == NotFound || o == TooLarge)
            case End(device, id, renames) =>
              && (o == StateMissing <==> Key(device, id) !in s.uploads)
              && (o == RenameFailed ==> !renames || s.uploads[Key(device, id)].tmpPath !in s.files)
              && (o == Done || o == StateMissing || o == RenameFailed)
            case Cancel(_, _) => o == Cancelled
            case _ => o == Cleaned
  {
  }

  /** What takes a live upload off the table. */
  predicate EndsUpload(e: Event, outcome: Outcome, k: string, heard: int) {
    match e.op
    case Start(_, _, _, _, _, _) => false
    case Chunk(device, id, _, _) => Key(device, id) == k && outcome != Accepted
    case End(device, id, _) => Key(device, id) == k
    case Cancel(device, id) => Key(device, id) == k
    case Sweep => e.now - heard >= 300
    case Closed(device) => StartsWith(k, device + ":")
  }

  /** In every run a live upload ends exactly by a refused chunk, an end or a cancel under its key, a sweep
      300 seconds after it was last heard of, or the closing of its device's channel, and its temporary
      file goes too, unless it is published or cannot be removed. */
  lemma UploadEndsIff(files: map<Path, Bytes>, es: seq<Event>, e: Event, k: string)
    requires Uncrossed(files, es) && k in Run(files, es).uploads
    ensures var s, log := Run(files, es), LogOf(files, es);
            k !in Step(s, e).0.uploads <==> EndsUpload(e, Step(s, e).1, k, LastHeard(log, k))
    ensures var s := Run(files, es);
            k !in Step(s, e).0.uploads && s.uploads[k].tmpPath !in e.stuck && Step(s, e).1 != Done
            ==> s.uploads[k].tmpPath !in Step(s, e).0.files
  {
    var s := Run(files, es);
    UploadsAreFaithful(files, es);
    assert Held(s, LogOf(files, es), k);
    EndsAt(s, e, k);
    if k !in Step(s, e).0.uploads && Step(s, e).1 != Done {
      FileGoes(s, e, k);
    }
  }

  lemma EndsAt(s: State, e: Event, k: string)
    requires k in s.uploads
    ensures k !in Step(s, e).0.uploads <==> EndsUpload(e, Step(s, e).1, k, s.uploads[k].createdAt)
  {
    match e.op
    case Closed(device) => assert k in Mine(s.uploads, device) <==> StartsWith(k, device + ":");
    case _ =>
  }

  lemma FileGoes(s: State, e: Event, k: string)
    requires k in s.uploads && k !in Step(s, e).0.uploads && Step(s, e).1 != Done
    ensures s.uploads[k].tmpPath !in e.stuck ==> s.uploads[k].tmpPath !in Step(s, e).0.files
  {
    var o := Step(s, e).1;
    assert o != Started && o != Accepted;
    EndedByDrop(s, e);
    assert s.uploads[k].tmpPath in TmpsOf(s.uploads, Ended(s, e));
  }

  // ----------------------------------------------------------- a whole upload

  function Chunks(device: string, id: string, payloads: seq<Bytes>, now: int): seq<Event> {
    if payloads == [] then []
    else Chunks(device, id, payloads[..|payloads| - 1], now)
         + [Event(Chunk(device, id, payloads[|payloads| - 1], true), now, {})]
  }

  function Total(payloads: seq<Bytes>): Bytes {
    if payloads == [] then [] else Total(payloads[..|payloads| - 1]) + payloads[|payloads| - 1]
  }

  function RunFrom(s: State, es: seq<Event>): State {
    if es == [] then s else Step(RunFrom(s, es[..|es| - 1]), es[|es| - 1]).0
  }

  /** The state after a start and some chunks that together stay within the declared size. */
  lemma {:induction false} ChunksArrive(s: State, k: string, device: string, id: string, payloads: seq<Bytes>, now: int)
    requires k == Key(device, id) && k in s.uploads && s.uploads[k].bytesWritten == 0 && s.uploads[k].expectedSize.Some?
    requires s.uploads[k].tmpPath in s.files && s.files[s.uploads[k].tmpPath] == []
    requires forall p <- payloads :: |p| <= 1024 * 1024
    requires |Total(payloads)| <= s.uploads[k].expectedSize.value <= 100 * 1024 * 1024
    ensures var s', u := RunFrom(s, Chunks(device, id, payloads, now)), s.uploads[k];
            && k in s'.uploads && s'.uploads[k] == u.(bytesWritten := |Total(payloads)|, createdAt := s'.uploads[k].createdAt)
            && s'.uploads - {k} == s.uploads - {k} && s'.files == s.files[u.tmpPath := Total(payloads)]
  {
    var u := s.uploads[k];
    if payloads == [] {
      assert s.files[u.tmpPath := []] == s.files;
    } else {
      var front, last := payloads[..|payloads| - 1], payloads[|payloads| - 1];
      var es, e := Chunks(device, id, front, now), Event(Chunk(device, id, last, true), now, {});
      ChunksArrive(s, k, device, id, front, now);
      var mid := RunFrom(s, es);
      assert (es + [e])[..|es|] == es;
      assert Step(mid, e).0.uploads - {k} == mid.uploads - {k};
      assert Step(mid, e).0.files == s.files[u.tmpPath := Total(front) + last];
    }
  }

  /** From any state: if a start is accepted, then chunks of at most 1 MiB each that together have no more
      bytes than declared (exactly as many, in particular), and an end whose rename works, publish all
      of them at the final path and change no other file. */
  lemma WholeUploadPublishes(s: State, start: Event, payloads: seq<Bytes>, end: Event, now: int)
    requires start.op.Start? && Step(s, start).1 == Started && end.op == End(start.op.device, start.op.id, true)
    requires (forall p <- payloads :: |p| <= 1024 * 1024) && |Total(payloads)| <= start.op.size.value
    ensures var s2 := RunFrom(Step(s, start).0, Chunks(start.op.device, start.op.id, payloads, now));
            Step(s2, end) == (State(s.uploads - {Key(start.op.device, start.op.id)}, s.files[start.op.path.value := Total(payloads)]), Done)
  {
    var k := Key(start.op.device, start.op.id);
    StartedMeans(s, start);
    TmpPathDiffers(start.op.path.value, start.op.stamp);
    var s1 := Step(s, start).0;
    ChunksArrive(s1, k, start.op.device, start.op.id, payloads, now);
    var s2 := RunFrom(s1, Chunks(start.op.device, start.op.id, payloads, now));
    var tmp, p := s1.uploads[k].tmpPath, start.op.path.value;
    assert s2.files == s.files[tmp := []][tmp := Total(payloads)];
    assert s2.uploads - {k} == s1.uploads - {k} == s.uploads - {k};
    assert s2.files - {tmp} == s.files;
  }
}
