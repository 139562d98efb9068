/** What binds, detaches, closes and sweeps of agent sessions answer, from the call to its end
    (`AgentManager`, `CodexHub` and `AgentRouter` in crates/host-core/src/agent_session.rs). */
module AgentBinds {
  import opened Basics
  import opened AgentIndex
  import opened AgentRouter

  /** The registered child that a resume id leads to. */
  function FoundChild(x: Index, resume: Option<ResumeId>): Option<Child> {
    if Indexed(x, resume) then Some(x.byId[x.byResume[resume.value]].child) else None
  }

  // ------------------------------------------------- from the call to its end

  /** Where a bind of `a` can be that began when `found` was registered and `n` children existed. */
  ghost predicate Follows(s: State, a: AgentId, resume: Option<ResumeId>, found: Option<Child>, n: nat) {
    match s.op
    case Found(call, _, child) => SameCall(call, a, resume) && found == Some(child) && |s.children| == n
    case Live(call, _, child) => SameCall(call, a, resume) && found == Some(child) && |s.children| == n
    case Attached(call, _, child) => SameCall(call, a, resume) && found == Some(child) && |s.children| == n
    case Stale(call, _) => SameCall(call, a, resume) && GivenUp(s, found) && found.Some? && |s.children| == n
    case Spawning(call) => SameCall(call, a, resume) && GivenUp(s, found) && |s.children| == n
    case Spawned(call, child) => SameCall(call, a, resume) && GivenUp(s, found) && child == n && |s.children| == n + 1
    case Inserting(call, child) => SameCall(call, a, resume) && GivenUp(s, found) && child == n && |s.children| == n + 1
    case Bound(call, child, reattached) =>
      SameCall(call, a, resume) &&
      if reattached then found == Some(child) && |s.children| == n
      else GivenUp(s, found) && child == n && |s.children| == n + 1
    case _ => true
  }

  predicate SameCall(call: Call, a: AgentId, resume: Option<ResumeId>) {
    call.a == a && call.resume == resume
  }

  /** If there was such a child, it has exited. */
  predicate GivenUp(s: State, found: Option<Child>) {
    found.Some? ==> Exited(s, found.value)
  }

  lemma FollowsStep(s: State, l: Label, a: AgentId, resume: Option<ResumeId>, found: Option<Child>, n: nat)
    requires Inv(s) && Enabled(s, l) && !l.BindClaude? && Follows(s, a, resume, found, n)
    ensures Follows(Next(s, l), a, resume, found, n)
  {
  }

  lemma {:induction false} FollowsBind(states: seq<State>, labels: seq<Label>, i: nat, j: nat)
    requires IsRun(states, labels) && i < j < |states| && labels[i].BindClaude?
    requires forall k :: i < k < j ==> !labels[k].BindClaude?
    ensures Follows(states[j], labels[i].a, labels[i].resume, FoundChild(states[i].x, labels[i].resume), |states[i].children|)
    decreases j
  {
    if j > i + 1 {
      FollowsBind(states, labels, i, j - 1);
      InvAlways(states, labels, j - 1);
      assert !labels[j - 1].BindClaude?;
      FollowsStep(states[j - 1], labels[j - 1], labels[i].a, labels[i].resume,
                  FoundChild(states[i].x, labels[i].resume), |states[i].children|);
    }
  }

  /** In every run, a bind with an agent id and a resume id, old or new, that completes has reattached to the
      child its resume id led to when it was called, without spawning any, if that child has not
      exited; it reattaches to no other; and otherwise it has spawned exactly one child. */
  lemma BindOutcome(states: seq<State>, labels: seq<Label>, i: nat, j: nat)
    requires IsRun(states, labels) && i < j < |states| && labels[i].BindClaude? && states[j].op.Bound?
    requires forall k :: i < k < j ==> !labels[k].BindClaude?
    ensures var s, t, a := states[i], states[j], labels[i].a; var found := FoundChild(s.x, labels[i].resume);
            && t.op.call.a == a && a in t.x.byId && t.x.byId[a].child == t.op.child && !t.x.byId[a].detached
            && (found.Some? && !Exited(t, found.value) ==> t.op.reattached)
            && (t.op.reattached ==> found == Some(t.op.child) && |t.children| == |s.children|)
            && (!t.op.reattached ==> t.op.child == |s.children| && |t.children| == |s.children| + 1)
  {
    FollowsBind(states, labels, i, j);
    InvAlways(states, labels, j);
  }

  // ------------------------------------------------------ who a resume id leads to

  /** The agent that `r` leads to after a step: one that learns it as its first, or is bound with it, takes
      it over; one that is dropped, closed or reaped loses it; nothing else changes it. */
  function NewHolder(s: State, l: Label, r: ResumeId): Option<AgentId>
    requires Enabled(s, l)
  {
    var h := Holder(s.x, r);
    match l
    case Note(n, q) => if q == r && n in s.x.byId && s.x.byId[n].resume.None? then Some(n) else h
    case Rekey => if s.op.call.resume == Some(r) then Some(s.op.call.a) else h
    case Insert => if s.op.call.resume == Some(r) then Some(s.op.call.a) else h
    case DropStale => if h == Some(s.op.prevId) then None else h
    case Close(d) => if h == Some(d) && d in s.backends && s.backends[d].Claude? then None else h
    case ReapNext => if s.op.ids != [] && h == Some(s.op.ids[0]) then None else h
    case _ => h
  }

  lemma HolderStep(s: State, l: Label, r: ResumeId)
    requires Inv(s) && Enabled(s, l)
    ensures Holder(Next(s, l).x, r) == NewHolder(s, l, r)
  {
    match l
    case Note(n, q) => NoteHolder(s.x, n, q, r);
    case Rekey => RekeyHolder(s.x, s.op.prevId, s.op.call.a, r);
    case Insert => InsertHolder(s.x, s.op.call.a, Entry(s.op.child, s.op.call.resume, false), r);
    case DropStale => RemoveHolder(s.x, s.op.prevId, r);
    case Close(d) => CloseHolder(s, d, r);
    case ReapNext => ReapHolder(s, r);
    case _ => assert Holder(Next(s, l).x, r) == Holder(s.x, r);
  }

  lemma CloseHolder(s: State, d: AgentId, r: ResumeId)
    requires Consistent(s.x) && Enabled(s, Close(d))
    ensures Holder(Next(s, Close(d)).x, r)
         == if Holder(s.x, r) == Some(d) && d in s.backends && s.backends[d].Claude? then None else Holder(s.x, r)
  {
    RemoveHolder(s.x, d, r);
  }

  lemma ReapHolder(s: State, r: ResumeId)
    requires Consistent(s.x) && Enabled(s, ReapNext)
    ensures Holder(Next(s, ReapNext).x, r)
         == if s.op.ids != [] && Holder(s.x, r) == Some(s.op.ids[0]) then None else Holder(s.x, r)
  {
    if s.op.ids != [] {
      RemoveHolder(s.x, s.op.ids[0], r);
    }
  }

  /** In every run, who a resume id leads to after a step, exactly; and whoever it is, is registered and
      answers to that id. */
  lemma ResumeIdLeadsTo(states: seq<State>, labels: seq<Label>, i: nat, r: ResumeId)
    requires IsRun(states, labels) && i < |labels|
    ensures Holder(states[i + 1].x, r) == NewHolder(states[i], labels[i], r)
    ensures var y, h := states[i + 1].x, Holder(states[i + 1].x, r);
            h.Some? ==> h.value in y.byId && y.byId[h.value].resume == Some(r) && FoundChild(y, Some(r)) == Some(y.byId[h.value].child)
  {
    InvAlways(states, labels, i);
    InvAlways(states, labels, i + 1);
    HolderStep(states[i], labels[i], r);
  }

  // ------------------------------------------------------------------ the sinks

  /** Taking the stream installs the binder's sink, unless the session has been closed. */
  lemma TakeInstallsSink(states: seq<State>, labels: seq<Label>, i: nat)
    requires IsRun(states, labels) && i < |labels| && labels[i] == TakeStdout
    ensures var s, s' := states[i], states[i + 1];
            && s.op.child < |s.children| == |s'.children| && !s.children[s.op.child].closed
            && s'.children[s.op.child].sink == Some(if s.op.HubTaking? then s.op.a else s.op.call.a)
            && (s'.op.Attached? || s'.op.Inserting? || s'.op.HubBound?)
  {
    InvAlways(states, labels, i);
  }

  /** In every run the agent whose sink a registered Claude child has loses it in exactly three ways: another
      bind takes the stream of that child, the child's own id is detached, or the receiver is gone. */
  lemma ClaudeSinkLostIff(states: seq<State>, labels: seq<Label>, i: nat, a: AgentId, b: AgentId)
    requires IsRun(states, labels) && i < |labels| && a in states[i].x.byId
    requires states[i].x.byId[a].child < |states[i].children| && states[i].children[states[i].x.byId[a].child].sink == Some(b)
    ensures var s, s', l, c := states[i], states[i + 1], labels[i], states[i].x.byId[a].child;
            && c < |s'.children|
            && (s'.children[c].sink != Some(b) <==>
                  || (l == TakeStdout && s.op.Live? && s.op.child == c && s.op.call.a != b)
                  || (l == Detach(a) && a in s.backends && s.backends[a].Claude?)
                  || l == LosesSink(c))
  {
    InvAlways(states, labels, i);
    var s, l, c := states[i], labels[i], states[i].x.byId[a].child;
    match l
    case TakeStdout => TakesFrom(s, a);
    case Detach(d) => DetachTouches(s, d, a);
    case _ => SinkStays(s, l, c);
  }

  /** Which child's stream a bind takes. */
  lemma TakesFrom(s: State, a: AgentId)
    requires Inv(s) && Enabled(s, TakeStdout) && a in s.x.byId
    ensures var c := s.x.byId[a].child;
            && (s.op.child == c ==> s.op.Live?)
            && c < |s.children| && Next(s, TakeStdout).children
               == s.children[s.op.child := s.children[s.op.child].(sink := Some(if s.op.HubTaking? then s.op.a else s.op.call.a))]
  {
    if s.op.Spawned? {
      assert !Registered(s.x, s.op.child);
    }
  }

  lemma DetachTouches(s: State, d: AgentId, a: AgentId)
    requires Inv(s) && s.op.Ready? && a in s.x.byId
    ensures var c := s.x.byId[a].child; var t := Next(s, Detach(d));
            c < |s.children| == |t.children|
            && t.children[c].sink == if d == a && d in s.backends && s.backends[d].Claude? then None else s.children[c].sink
  {
    DetachReleases(s, d);
    assert d in s.x.byId && d != a ==> s.x.byId[d].child != s.x.byId[a].child;
  }

  lemma SinkStays(s: State, l: Label, c: Child)
    requires Enabled(s, l) && c < |s.children| && !l.TakeStdout? && !l.Detach?
    ensures c < |Next(s, l).children|
    ensures Next(s, l).children[c].sink == if l == LosesSink(c) then None else s.children[c].sink
  {
  }

  /** Detaching a Claude id on record marks its entry, clears its sink and does nothing else: its child
      runs on and every resume id still leads to it. Any other detach only takes the id off the record,
      and for Codex clears the hub's sink. */
  lemma DetachReleases(s: State, d: AgentId)
    requires Inv(s) && s.op.Ready?
    ensures var s' := Next(s, Detach(d));
            && s'.backends == s.backends - {d} && s'.hub == s.hub && s'.op == Ready
            && (if d in s.backends && s.backends[d].Claude? && d in s.x.byId
                then var c := s.x.byId[d].child;
                     && s'.children == s.children[c := s.children[c].(sink := None)]
                     && s'.x == s.x.(byId := s.x.byId[d := s.x.byId[d].(detached := true)])
                     && forall r :: FoundChild(s'.x, r) == FoundChild(s.x, r)
                else
                  && s'.x == s.x
                  && s'.children == if d in s.backends && s.backends[d].Codex? && s.hub.Some?
                                    then s.children[s.hub.value := s.children[s.hub.value].(sink := None)] else s.children)
  {
  }

  /** Closing an id on record takes it off the record and ends its child: a Claude entry leaves the
      index, a Codex one takes the hub with it. */
  lemma CloseEnds(s: State, d: AgentId)
    requires Inv(s) && s.op.Ready? && d in s.backends
    ensures var s' := Next(s, Close(d));
            && d !in s'.backends
            && (s.backends[d].Claude? && d in s.x.byId ==>
                  && d !in s'.x.byId && s'.x.byId == s.x.byId - {d} && s'.children[s.x.byId[d].child].closed && s'.hub == s.hub
                  && forall r :: FoundChild(s'.x, r) != Some(s.x.byId[d].child))
            && (s.backends[d].Codex? && s.hub.Some? ==> s'.hub.None? && s'.children[s.hub.value].closed && s'.x == s.x)
  {
  }

  // ---------------------------------------------------------- undisturbed calls

  ghost predicate CanRun(s: State, ls: seq<Label>)
    decreases |ls|
  {
    ls == [] || (Enabled(s, ls[0]) && CanRun(Next(s, ls[0]), ls[1..]))
  }

  ghost function RunTo(s: State, ls: seq<Label>): State
    requires CanRun(s, ls)
    decreases |ls|
  {
    if ls == [] then s else RunTo(Next(s, ls[0]), ls[1..])
  }

  lemma OneStep(s: State, l: Label, ls: seq<Label>)
    requires Enabled(s, l) && CanRun(Next(s, l), ls)
    ensures CanRun(s, [l] + ls) && RunTo(s, [l] + ls) == RunTo(Next(s, l), ls)
  {
    assert ([l] + ls)[1..] == ls;
  }

  /** With a child running behind the resume id, a bind left alone moves that child to the new id. */
  lemma ReattachCompletes(s: State, a: AgentId, r: ResumeId)
    requires Inv(s) && s.op.Ready? && FreshOrMapped(s, BindClaude(a, Some(r))) && Indexed(s.x, Some(r))
    requires !Exited(s, s.x.byId[s.x.byResume[r]].child)
    ensures var ls := [BindClaude(a, Some(r))] + ([ReadExit] + ([TakeStdout] + ([Rekey] + ([Register] + []))));
            var prev := s.x.byResume[r]; var e := s.x.byId[prev];
            && CanRun(s, ls)
            && var t := RunTo(s, ls);
               && t.op == Ready && t.hub == s.hub && t.backends == s.backends[a := Claude]
               && t.children == s.children[e.child := s.children[e.child].(sink := Some(a))]
               && t.x == Index((s.x.byId - {prev})[a := e.(detached := false)], s.x.byResume[r := a])
  {
    var s1 := Next(s, BindClaude(a, Some(r)));
    var s2 := Next(s1, ReadExit);
    var s3 := Next(s2, TakeStdout);
    var s4 := Next(s3, Rekey);
    OneStep(s4, Register, []);
    OneStep(s3, Rekey, [Register] + []);
    OneStep(s2, TakeStdout, [Rekey] + ([Register] + []));
    OneStep(s1, ReadExit, [TakeStdout] + ([Rekey] + ([Register] + [])));
    OneStep(s, BindClaude(a, Some(r)), [ReadExit] + ([TakeStdout] + ([Rekey] + ([Register] + []))));
  }

  /** From a spawn that succeeds to the end of the bind. */
  lemma SpawnTail(s: State, call: Call)
    requires Inv(s) && s.op == Spawning(call)
    ensures var ls := [Spawn(true)] + ([TakeStdout] + ([Insert] + ([Register] + []))); var n := |s.children|;
            && CanRun(s, ls)
            && RunTo(s, ls) == State(Inserted(s.x, call.a, Entry(n, call.resume, false)),
                                     s.children + [ChildState(Claude, false, false, Some(call.a))],
                                     s.hub, s.backends[call.a := Claude], Ready)
  {
    var n := |s.children|;
    var s1 := Next(s, Spawn(true));
    var s2 := Next(s1, TakeStdout);
    var s3 := Next(s2, Insert);
    OneStep(s3, Register, []);
    OneStep(s2, Insert, [Register] + []);
    OneStep(s1, TakeStdout, [Insert] + ([Register] + []));
    OneStep(s, Spawn(true), [TakeStdout] + ([Insert] + ([Register] + [])));
    assert s2.children == s.children + [ChildState(Claude, false, false, Some(call.a))];
  }

  /** Without one, it spawns a child and registers it under the id and the resume id. */
  lemma SpawnCompletes(s: State, a: AgentId, resume: Option<ResumeId>)
    requires Inv(s) && s.op.Ready? && FreshOrMapped(s, BindClaude(a, resume)) && !Indexed(s.x, resume)
    ensures var ls := [BindClaude(a, resume)] + ([Spawn(true)] + ([TakeStdout] + ([Insert] + ([Register] + []))));
            && CanRun(s, ls)
            && var t := RunTo(s, ls);
               && t.op == Ready && t.hub == s.hub && t.backends == s.backends[a := Claude]
               && t.children == s.children + [ChildState(Claude, false, false, Some(a))]
               && t.x.byId == s.x.byId[a := Entry(|s.children|, resume, false)]
               && (resume.Some? ==> FoundChild(t.x, resume) == Some(|s.children|))
    ensures Enabled(Next(s, BindClaude(a, resume)), Spawn(false))
            && Next(Next(s, BindClaude(a, resume)), Spawn(false)) == s
  {
    var s1 := Next(s, BindClaude(a, resume));
    InvStep(s, BindClaude(a, resume));
    SpawnTail(s1, s1.op.call);
    OneStep(s, BindClaude(a, resume), [Spawn(true)] + ([TakeStdout] + ([Insert] + ([Register] + []))));
  }

  /** With a dead child behind the resume id, it drops that child's entry and spawns another. */
  lemma RespawnCompletes(s: State, a: AgentId, r: ResumeId)
    requires Inv(s) && s.op.Ready? && FreshOrMapped(s, BindClaude(a, Some(r))) && Indexed(s.x, Some(r))
    requires Exited(s, s.x.byId[s.x.byResume[r]].child)
    ensures var tail := [Spawn(true)] + ([TakeStdout] + ([Insert] + ([Register] + [])));
            var ls := [BindClaude(a, Some(r))] + ([ReadExit] + ([DropStale] + tail));
            && CanRun(s, ls)
            && var t := RunTo(s, ls);
               && t.op == Ready && t.hub == s.hub && t.backends == s.backends[a := Claude]
               && t.children == s.children + [ChildState(Claude, false, false, Some(a))]
               && t.x.byId == (s.x.byId - {s.x.byResume[r]})[a := Entry(|s.children|, Some(r), false)]
               && FoundChild(t.x, Some(r)) == Some(|s.children|)
  {
    var s1 := Next(s, BindClaude(a, Some(r)));
    var s2 := Next(s1, ReadExit);
    var s3 := Next(s2, DropStale);
    InvStep(s, BindClaude(a, Some(r)));
    InvStep(s1, ReadExit);
    InvStep(s2, DropStale);
    SpawnTail(s3, s3.op.call);
    var tail := [Spawn(true)] + ([TakeStdout] + ([Insert] + ([Register] + [])));
    OneStep(s2, DropStale, tail);
    OneStep(s1, ReadExit, [DropStale] + tail);
    OneStep(s, BindClaude(a, Some(r)), [ReadExit] + ([DropStale] + tail));
  }

  /** A Codex bind uses the hub's child if that runs, and otherwise spawns a new one for all. */
  lemma CodexCompletes(s: State, a: AgentId)
    requires Inv(s) && s.op.Ready?
    ensures var reuse := s.hub.Some? && !Exited(s, s.hub.value);
            var ls := [BindCodex(a)] + (if reuse then [TakeStdout] + ([Register] + []) else [Spawn(true)] + ([TakeStdout] + ([Register] + [])));
            && CanRun(s, ls)
            && var t := RunTo(s, ls);
               && t.op == Ready && t.x == s.x && t.backends == s.backends[a := Codex] && t.hub.Some?
               && (if reuse
                   then t.hub == s.hub && t.children == s.children[s.hub.value := s.children[s.hub.value].(sink := Some(a))]
                   else t.hub == Some(|s.children|)
                        && t.children == s.children + [ChildState(Codex, false, false, Some(a))])
  {
    var reuse := s.hub.Some? && !Exited(s, s.hub.value);
    var s1 := Next(s, BindCodex(a));
    var s2 := if reuse then s1 else Next(s1, Spawn(true));
    var s3 := Next(s2, TakeStdout);
    OneStep(s3, Register, []);
    OneStep(s2, TakeStdout, [Register] + []);
    if !reuse {
      OneStep(s1, Spawn(true), [TakeStdout] + ([Register] + []));
      assert s3.children == s.children + [ChildState(Codex, false, false, Some(a))];
    }
    OneStep(s, BindCodex(a), if reuse then [TakeStdout] + ([Register] + []) else [Spawn(true)] + ([TakeStdout] + ([Register] + [])));
  }

  // ------------------------------------------------------------------ the sweep

  function Reaps(n: nat): seq<Label> {
    if n == 0 then [] else [ReapNext] + Reaps(n - 1)
  }

  lemma ReapOnce(s: State)
    requires Inv(s) && s.op.Reaping? && s.op.ids != []
    ensures var s', id := Next(s, ReapNext), s.op.ids[0];
            && s'.op == Reaping(s.op.ids[1..]) && s'.backends == s.backends && s'.hub == s.hub
            && s'.x.byId == s.x.byId - {id} && |s'.children| == |s.children|
            && (id in s.x.byId ==> s'.children[s.x.byId[id].child].closed)
  {
  }

  ghost predicate Drained(s: State, ids: seq<AgentId>, t: State) {
    && t.op == Ready && t.backends == s.backends && t.hub == s.hub
    && t.x.byId == s.x.byId - (set id | id in ids) && |t.children| == |s.children|
    && forall id :: id in s.x.byId && id in ids && s.x.byId[id].child < |t.children| ==> t.children[s.x.byId[id].child].closed
  }

  lemma {:induction false} ReapsDrain(s: State)
    requires Inv(s) && s.op.Reaping?
    ensures CanRun(s, Reaps(|s.op.ids| + 1)) && Drained(s, s.op.ids, RunTo(s, Reaps(|s.op.ids| + 1)))
    decreases |s.op.ids|
  {
    var ids, s' := s.op.ids, Next(s, ReapNext);
    InvStep(s, ReapNext);
    if ids == [] {
      OneStep(s, ReapNext, []);
      assert s.x.byId - (set id | id in ids) == s.x.byId;
      assert Reaps(1) == [ReapNext] + [];
    } else {
      ReapOnce(s);
      ReapsDrain(s');
      OneStep(s, ReapNext, Reaps(|ids|));
      ClosedStays(s', Reaps(|ids|));
      DrainedToo(s, s', ids, RunTo(s', Reaps(|ids|)));
    }
  }

  lemma DrainedToo(s: State, s': State, ids: seq<AgentId>, t: State)
    requires ids != [] && Drained(s', ids[1..], t)
    requires s'.backends == s.backends && s'.hub == s.hub && |s'.children| == |s.children|
    requires s'.x.byId == s.x.byId - {ids[0]}
    requires ids[0] in s.x.byId && s.x.byId[ids[0]].child < |t.children| ==> t.children[s.x.byId[ids[0]].child].closed
    ensures Drained(s, ids, t)
  {
    assert (set id | id in ids) == {ids[0]} + (set id | id in ids[1..]);
    assert t.x.byId == s.x.byId - (set id | id in ids);
    forall id | id in s.x.byId && id in ids && id != ids[0] ensures id in ids[1..] && id in s'.x.byId {
      assert ids == [ids[0]] + ids[1..];
    }
  }

  lemma {:induction false} ClosedStays(s: State, ls: seq<Label>)
    requires CanRun(s, ls)
    ensures var t := RunTo(s, ls);
            |s.children| <= |t.children| && forall c :: 0 <= c < |s.children| && s.children[c].closed ==> t.children[c].closed
    decreases |ls|
  {
    if ls != [] {
      ClosedStays(Next(s, ls[0]), ls[1..]);
    }
  }

  /** A sweep left alone takes exactly the listed ids off the record and out of the index, and ends their
      children. */
  lemma SweepCompletes(s: State, ids: seq<AgentId>)
    requires Inv(s) && Enabled(s, SweepList(ids))
    ensures var ls := [SweepList(ids)] + Reaps(|ids| + 1);
            && CanRun(s, ls)
            && var t := RunTo(s, ls);
               && t.op == Ready && t.hub == s.hub && |t.children| == |s.children|
               && t.backends == (map d <- s.backends | d !in ids :: s.backends[d])
               && t.x.byId == s.x.byId - (set id | id in ids)
               && forall id :: id in s.x.byId && id in ids ==> t.children[s.x.byId[id].child].closed
  {
    var s1 := Next(s, SweepList(ids));
    InvStep(s, SweepList(ids));
    ReapsDrain(s1);
    OneStep(s, SweepList(ids), Reaps(|ids| + 1));
    assert EntriesOk(s);
  }

  // ------------------------------------------------------------ the surroundings

  /** At any time a child may exit, a resume id may be learnt and a sink may be lost, and a child has exited
      exactly if that has happened. */
  lemma {:induction false} ExitedIff(states: seq<State>, labels: seq<Label>, i: nat, c: Child)
    requires IsRun(states, labels) && i < |states|
    ensures Exited(states[i], c) <==> Exits(c) in labels[..i]
    ensures Exits(c) in labels[..i] ==> c < |states[i].children|
    ensures forall n, r :: Enabled(states[i], Note(n, r))
    ensures c < |states[i].children| ==> Enabled(states[i], Exits(c)) && Enabled(states[i], LosesSink(c))
  {
    if i > 0 {
      ExitedIff(states, labels, i - 1, c);
      ExitStep(states[i - 1], labels[i - 1], c);
      NextPrefix(labels, i - 1);
      assert Exits(c) in labels[..i] <==> Exits(c) in labels[..i - 1] || labels[i - 1] == Exits(c);
    }
  }

  lemma ExitStep(s: State, l: Label, c: Child)
    requires Enabled(s, l)
    ensures Exited(Next(s, l), c) <==> Exited(s, c) || l == Exits(c)
    ensures |Next(s, l).children| >= |s.children|
  {
  }
}
