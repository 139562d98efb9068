/** Binding, detaching, closing and sweeping of agent sessions (`AgentManager`, `CodexHub` and
    `AgentRouter` in crates/host-core/src/agent_session.rs).

    All of these calls come from the daemon's one event loop, so one operation is under way at a
    time. `bind` and the sweep give way at every await, and there the surroundings may move: a
    child exits, a pump learns a resume id, a forwarder loses its sink. `detach` and `close` touch
    nothing between their awaits that the surroundings can change, and are taken in one step. */
module AgentRouter {
  import opened Basics
  import opened AgentIndex

  datatype Backend = Claude | Codex

  /** `sink` names the agent whose bind installed the sink that is there now. */
  datatype ChildState = ChildState(backend: Backend, exited: bool, closed: bool, sink: Option<AgentId>)

  /** What a bind of a Claude agent carries along: `prev` is the child its resume id led to when it
      began, and `mark` the number of children spawned until then. */
  datatype Call = Call(a: AgentId, resume: Option<ResumeId>, prev: Option<Child>, mark: nat)

  datatype Op =
    | Ready
    | Found(call: Call, prevId: AgentId, child: Child)      // before `exit_reason`
    | Live(call: Call, prevId: AgentId, child: Child)       // before `take_stdout`
    | Attached(call: Call, prevId: AgentId, child: Child)   // before `rekey`
    | Stale(call: Call, prevId: AgentId)                    // before `remove`
    | Spawning(call: Call)
    | Spawned(call: Call, child: Child)                     // before `take_stdout`
    | Inserting(call: Call, child: Child)                   // before `insert`
    | Bound(call: Call, child: Child, reattached: bool)     // before `backends.insert`
    | HubSpawning(a: AgentId)
    | HubTaking(a: AgentId, child: Child)                   // before `take_stdout`
    | HubBound(a: AgentId)                                  // before `backends.insert`
    | Reaping(ids: seq<AgentId>)

  datatype State = State(x: Index, children: seq<ChildState>, hub: Option<Child>,
                         backends: map<AgentId, Backend>, op: Op)

  datatype Label =
    | BindClaude(a: AgentId, resume: Option<ResumeId>)
    | ReadExit
    | TakeStdout
    | Rekey
    | DropStale
    | Spawn(ok: bool)
    | Insert
    | Register
    | BindCodex(a: AgentId)
    | Detach(d: AgentId)
    | Close(d: AgentId)
    | SweepList(ids: seq<AgentId>)
    | ReapNext
    | Note(n: AgentId, r: ResumeId)
    | Exits(c: Child)
    | LosesSink(c: Child)

  const INIT := State(Index(map[], map[]), [], None, map[], Ready)

  predicate Exited(s: State, c: Child) {
    c < |s.children| && s.children[c].exited
  }

  /** `close()` on the session: no sink can be installed any more. */
  function CloseChild(s: State, c: Child): State {
    if c < |s.children| then s.(children := s.children[c := s.children[c].(closed := true)]) else s
  }

  function SetSink(s: State, c: Child, sink: Option<AgentId>): State {
    if c < |s.children| then s.(children := s.children[c := s.children[c].(sink := sink)]) else s
  }

  /** `by_resume_id.get(rid)` followed by `by_id.get(..)`. */
  predicate Indexed(x: Index, resume: Option<ResumeId>) {
    resume.Some? && resume.value in x.byResume && x.byResume[resume.value] in x.byId
  }

  predicate Enabled(s: State, l: Label) {
    match l
    case BindClaude(_, _) => s.op.Ready?
    case ReadExit => s.op.Found?
    case TakeStdout => s.op.Live? || s.op.Spawned? || s.op.HubTaking?
    case Rekey => s.op.Attached?
    case DropStale => s.op.Stale?
    case Spawn(_) => s.op.Spawning? || s.op.HubSpawning?
    case Insert => s.op.Inserting?
    case Register => s.op.Bound? || s.op.HubBound?
    case BindCodex(_) => s.op.Ready?
    case Detach(_) => s.op.Ready?
    case Close(_) => s.op.Ready?
    case SweepList(ids) =>
      && s.op.Ready?
      && (forall id <- ids :: id in s.x.byId && Exited(s, s.x.byId[id].child))
    case ReapNext => s.op.Reaping?
    case Note(_, _) => true
    case Exits(c) => c < |s.children|
    case LosesSink(c) => c < |s.children|
  }

  function Next(s: State, l: Label): State
    requires Enabled(s, l)
  {
    match l
    case BindClaude(a, resume) => StepBind(s, a, resume)
    case ReadExit =>
      if Exited(s, s.op.child) then s.(op := Stale(s.op.call, s.op.prevId))
      else s.(op := Live(s.op.call, s.op.prevId, s.op.child))
    case TakeStdout => StepTake(s)
    case Rekey =>
      if s.op.prevId in s.x.byId
      then s.(x := Rekeyed(s.x, s.op.prevId, s.op.call.a), op := Bound(s.op.call, s.op.child, true))
      else s.(op := Stale(s.op.call, s.op.prevId))
    case DropStale => s.(x := Removed(s.x, s.op.prevId), op := Spawning(s.op.call))
    case Spawn(ok) => StepSpawn(s, ok)
    case Insert =>
      s.(x := Inserted(s.x, s.op.call.a, Entry(s.op.child, s.op.call.resume, false)),
         op := Bound(s.op.call, s.op.child, false))
    case Register =>
      if s.op.Bound? then s.(backends := s.backends[s.op.call.a := Claude], op := Ready)
      else s.(backends := s.backends[s.op.a := Codex], op := Ready)
    case BindCodex(a) =>
      if s.hub.None? || Exited(s, s.hub.value) then s.(op := HubSpawning(a))
      else s.(op := HubTaking(a, s.hub.value))
    case Detach(d) => StepDetach(s, d)
    case Close(d) => StepClose(s, d)
    case SweepList(ids) =>
      s.(backends := map d <- s.backends | d !in ids :: s.backends[d], op := Reaping(ids))
    case ReapNext =>
      if s.op.ids == [] then s.(op := Ready) else ManagerClose(s, s.op.ids[0]).(op := Reaping(s.op.ids[1..]))
    case Note(n, r) => s.(x := Noted(s.x, n, r))
    case Exits(c) => s.(children := s.children[c := s.children[c].(exited := true)])
    case LosesSink(c) => SetSink(s, c, None)
  }

  function StepBind(s: State, a: AgentId, resume: Option<ResumeId>): State {
    if Indexed(s.x, resume) then
      var prevId := s.x.byResume[resume.value];
      var child := s.x.byId[prevId].child;
      s.(op := Found(Call(a, resume, Some(child), |s.children|), prevId, child))
    else s.(op := Spawning(Call(a, resume, None, |s.children|)))
  }

  /** `take_stdout` returns `None` on a closed session: a reattach then falls through, a fresh bind fails. */
  function StepTake(s: State): State
    requires s.op.Live? || s.op.Spawned? || s.op.HubTaking?
  {
    var closed := s.op.child < |s.children| && s.children[s.op.child].closed;
    if s.op.HubTaking? then
      if closed then s.(op := Ready) else SetSink(s, s.op.child, Some(s.op.a)).(op := HubBound(s.op.a))
    else if closed then
      if s.op.Live? then s.(op := Stale(s.op.call, s.op.prevId)) else s.(op := Ready)
    else
      SetSink(s, s.op.child, Some(s.op.call.a))
        .(op := if s.op.Live? then Attached(s.op.call, s.op.prevId, s.op.child) else Inserting(s.op.call, s.op.child))
  }

  function StepSpawn(s: State, ok: bool): State
    requires s.op.Spawning? || s.op.HubSpawning?
  {
    var c := |s.children|;
    if !ok then s.(op := Ready)
    else if s.op.Spawning? then
      s.(children := s.children + [ChildState(Claude, false, false, None)], op := Spawned(s.op.call, c))
    else
      s.(children := s.children + [ChildState(Codex, false, false, None)], hub := Some(c), op := HubTaking(s.op.a, c))
  }

  /** `AgentManager::close`. */
  function ManagerClose(s: State, d: AgentId): State {
    if d in s.x.byId then CloseChild(s, s.x.byId[d].child).(x := Removed(s.x, d)) else s
  }

  function StepDetach(s: State, d: AgentId): State {
    var s' := s.(backends := s.backends - {d});
    if d !in s.backends then s'
    else if s.backends[d].Codex? then
      if s.hub.Some? then SetSink(s', s.hub.value, None) else s'
    else if d in s.x.byId then SetSink(s', s.x.byId[d].child, None).(x := Marked(s.x, d))
    else s'
  }

  function StepClose(s: State, d: AgentId): State {
    var s' := s.(backends := s.backends - {d});
    if d !in s.backends then s'
    else if s.backends[d].Codex? then
      if s.hub.Some? then CloseChild(s', s.hub.value).(hub := None) else s'
    else ManagerClose(s', d)
  }

  // -------------------------------------------------------------------- runs

  /** The rule mobile follows: a bind uses a new agent id, or the one its resume id leads to. */
  predicate FreshOrMapped(s: State, l: Label) {
    l.BindClaude? ==> l.a !in s.x.byId || (Indexed(s.x, l.resume) && s.x.byResume[l.resume.value] == l.a)
  }

  ghost predicate IsRun(states: seq<State>, labels: seq<Label>) {
    && |states| == |labels| + 1 && states[0] == INIT
    && forall i :: 0 <= i < |labels| ==>
         Enabled(states[i], labels[i]) && FreshOrMapped(states[i], labels[i]) && states[i + 1] == Next(states[i], labels[i])
  }

  // ------------------------------------------------------------ the invariant

  ghost predicate Registered(x: Index, c: Child) {
    exists id :: id in x.byId && x.byId[id].child == c
  }

  /** Different agents have different children, all of them Claude's and none of them closed. */
  ghost predicate EntriesOk(s: State) {
    && (forall id :: id in s.x.byId ==>
          var c := s.x.byId[id].child; c < |s.children| && s.children[c].backend.Claude? && !s.children[c].closed)
    && (forall i, j :: i in s.x.byId && j in s.x.byId && s.x.byId[i].child == s.x.byId[j].child ==> i == j)
    && (s.hub.Some? ==>
          s.hub.value < |s.children| && s.children[s.hub.value].backend.Codex? && !s.children[s.hub.value].closed)
  }

  /** No running Claude child is forgotten: it is registered, or a bind is about to register it. */
  ghost predicate NoneForgotten(s: State) {
    forall c :: 0 <= c < |s.children| && s.children[c].backend.Claude? && !s.children[c].exited && !s.children[c].closed
      ==> Registered(s.x, c) || ((s.op.Spawned? || s.op.Inserting?) && s.op.child == c)
  }

  ghost predicate OpOk(s: State) {
    match s.op
    case Ready => true
    case Found(call, prevId, child) => ReuseOk(s, call, prevId, child)
    case Live(call, prevId, child) => ReuseOk(s, call, prevId, child)
    case Attached(call, prevId, child) => ReuseOk(s, call, prevId, child)
    case Stale(call, prevId) =>
      prevId in s.x.byId && ReuseOk(s, call, prevId, s.x.byId[prevId].child) && Exited(s, s.x.byId[prevId].child)
    case Spawning(call) =>
      call.a !in s.x.byId && call.mark == |s.children| && (call.prev.Some? ==> Exited(s, call.prev.value))
    case Spawned(call, child) => NewOk(s, call, child) && !Registered(s.x, child)
    case Inserting(call, child) => NewOk(s, call, child) && !Registered(s.x, child)
    case Bound(call, child, reattached) =>
      && call.a in s.x.byId && s.x.byId[call.a].child == child && !s.x.byId[call.a].detached
      && (if reattached then call.prev == Some(child) && |s.children| == call.mark
          else child == call.mark && |s.children| == call.mark + 1
               && (call.prev.Some? ==> Exited(s, call.prev.value)))
    case HubSpawning(_) => true
    case HubTaking(_, child) => s.hub == Some(child)
    case HubBound(_) => true
    case Reaping(ids) => forall id :: id in ids && id in s.x.byId ==> Exited(s, s.x.byId[id].child)
  }

  ghost predicate ReuseOk(s: State, call: Call, prevId: AgentId, child: Child) {
    && prevId in s.x.byId && s.x.byId[prevId].child == child && s.x.byId[prevId].resume == call.resume
    && call.resume.Some? && call.prev == Some(child) && (call.a !in s.x.byId || call.a == prevId)
    && call.mark == |s.children|
  }

  ghost predicate NewOk(s: State, call: Call, child: Child) {
    && call.a !in s.x.byId && child == call.mark && |s.children| == call.mark + 1
    && s.children[child].backend.Claude? && !s.children[child].closed
    && (call.prev.Some? ==> Exited(s, call.prev.value))
  }

  ghost predicate Inv(s: State) {
    Consistent(s.x) && EntriesOk(s) && NoneForgotten(s) && OpOk(s)
  }

  /** Two indexes that register the same child under each agent. */
  ghost predicate SameChildren(x: Index, y: Index) {
    x.byId.Keys == y.byId.Keys && forall id :: id in x.byId ==> x.byId[id].child == y.byId[id].child
  }

  lemma SameRegistered(x: Index, y: Index, c: Child)
    requires SameChildren(x, y)
    ensures Registered(x, c) <==> Registered(y, c)
  {
    if Registered(x, c) {
      var id :| id in x.byId && x.byId[id].child == c;
      assert id in y.byId && y.byId[id].child == c;
    }
    if Registered(y, c) {
      var id :| id in y.byId && y.byId[id].child == c;
      assert id in x.byId && x.byId[id].child == c;
    }
  }

  lemma SameChildrenKeep(s: State, x: Index)
    requires EntriesOk(s) && NoneForgotten(s) && SameChildren(s.x, x)
    ensures EntriesOk(s.(x := x)) && NoneForgotten(s.(x := x))
  {
    forall c: Child ensures Registered(s.x, c) <==> Registered(x, c) { SameRegistered(s.x, x, c); }
  }

  lemma NotedOp(s: State, n: AgentId, r: ResumeId)
    requires OpOk(s)
    ensures OpOk(s.(x := Noted(s.x, n, r)))
  {
    forall c: Child ensures Registered(s.x, c) <==> Registered(Noted(s.x, n, r), c) {
      SameRegistered(s.x, Noted(s.x, n, r), c);
    }
  }

  lemma NoteStep(s: State, n: AgentId, r: ResumeId)
    requires Inv(s)
    ensures Inv(Next(s, Note(n, r)))
  {
    NoteKeeps(s.x, n, r);
    SameChildrenKeep(s, Noted(s.x, n, r));
    NotedOp(s, n, r);
  }

  lemma ChildMoves(s: State, ch: seq<ChildState>)
    requires Inv(s) && |ch| == |s.children|
    requires forall c :: 0 <= c < |ch| ==>
      ch[c].backend == s.children[c].backend && ch[c].closed == s.children[c].closed && (s.children[c].exited ==> ch[c].exited)
    ensures Inv(s.(children := ch))
  {
    var s' := s.(children := ch);
    assert EntriesOk(s');
    assert NoneForgotten(s');
    assert OpOk(s');
  }

  lemma OpMoves(s: State, op: Op)
    requires Consistent(s.x) && EntriesOk(s) && NoneForgotten(s) && !s.op.Spawned? && !s.op.Inserting?
    requires OpOk(s.(op := op))
    ensures Inv(s.(op := op))
  {
    assert NoneForgotten(s.(op := op));
  }

  lemma ReuseSteps(s: State, l: Label)
    requires Inv(s) && Enabled(s, l) && (l.ReadExit? || (l.TakeStdout? && s.op.Live?))
    ensures Inv(Next(s, l))
  {
    var s1 := if l.ReadExit? || s.children[s.op.child].closed then s else SetSink(s, s.op.child, Some(s.op.call.a));
    ChildMoves(s, s1.children);
    OpMoves(s1, Next(s, l).op);
  }

  /** A bind finds the child that its resume id leads to, or starts with a free agent id. */
  lemma BindStep(s: State, l: Label)
    requires Inv(s) && Enabled(s, l) && FreshOrMapped(s, l) && l.BindClaude?
    ensures Inv(Next(s, l))
  {
    OpMoves(s, Next(s, l).op);
  }

  lemma RekeyStep(s: State)
    requires Inv(s) && s.op.Attached?
    ensures Inv(Next(s, Rekey))
  {
    var s', a, prevId := Next(s, Rekey), s.op.call.a, s.op.prevId;
    RekeyIff(s.x, prevId, a);
    forall c | Registered(s.x, c) ensures Registered(s'.x, c) {
      var id :| id in s.x.byId && s.x.byId[id].child == c;
      var id' := if id == prevId then a else id;
      assert id' in s'.x.byId && s'.x.byId[id'].child == c;
    }
    assert EntriesOk(s');
    assert NoneForgotten(s');
    assert OpOk(s');
  }

  /** Taking out `d` forgets no child but its own. */
  lemma RemovedRegistered(x: Index, d: AgentId, c: Child)
    requires Registered(x, c) && d in x.byId && x.byId[d].child != c
    ensures Registered(Removed(x, d), c)
  {
    var id :| id in x.byId && x.byId[id].child == c;
    assert id in Removed(x, d).byId && Removed(x, d).byId[id].child == c;
  }

  lemma DropStaleStep(s: State)
    requires Inv(s) && s.op.Stale?
    ensures Inv(Next(s, DropStale))
  {
    var s', d := Next(s, DropStale), s.op.prevId;
    RemoveKeeps(s.x, d);
    assert EntriesOk(s');
    forall c | 0 <= c < |s.children| && Registered(s.x, c) && !s.children[c].exited ensures Registered(s'.x, c) {
      RemovedRegistered(s.x, d, c);
    }
    assert NoneForgotten(s');
    assert OpOk(s');
  }

  lemma SpawnStep(s: State, ok: bool)
    requires Inv(s) && (s.op.Spawning? || s.op.HubSpawning?)
    ensures Inv(Next(s, Spawn(ok)))
  {
    var s' := Next(s, Spawn(ok));
    if ok {
      assert s'.x == s.x;
      assert EntriesOk(s');
      assert NoneForgotten(s');
      assert OpOk(s');
    } else {
      OpMoves(s, Ready);
    }
  }

  lemma FreshSteps(s: State, l: Label)
    requires Inv(s) && Enabled(s, l) && l.TakeStdout? && !s.op.Live?
    ensures Inv(Next(s, l))
  {
    var s' := Next(s, l);
    var s1 := SetSink(s, s.op.child, Some(if s.op.Spawned? then s.op.call.a else s.op.a));
    ChildMoves(s, s1.children);
    assert NoneForgotten(s');
  }

  lemma InsertedRegistered(x: Index, a: AgentId, e: Entry, c: Child)
    requires a !in x.byId
    ensures Registered(Inserted(x, a, e), c) <==> Registered(x, c) || c == e.child
  {
    var y := Inserted(x, a, e);
    assert y.byId[a].child == e.child;
    if Registered(x, c) {
      var id :| id in x.byId && x.byId[id].child == c;
      assert id in y.byId && y.byId[id].child == c;
    }
  }

  lemma InsertStep(s: State)
    requires Inv(s) && s.op.Inserting?
    ensures Inv(Next(s, Insert))
  {
    var e := Entry(s.op.child, s.op.call.resume, false);
    InsertIff(s.x, s.op.call.a, e);
    forall c: Child ensures Registered(Inserted(s.x, s.op.call.a, e), c) <==> Registered(s.x, c) || c == s.op.child {
      InsertedRegistered(s.x, s.op.call.a, e, c);
    }
    InsertedEntries(s);
    assert NoneForgotten(Next(s, Insert));
    assert OpOk(Next(s, Insert));
  }

  lemma InsertedEntries(s: State)
    requires EntriesOk(s) && OpOk(s) && s.op.Inserting?
    ensures EntriesOk(Next(s, Insert))
  {
    forall id | id in s.x.byId ensures s.x.byId[id].child != s.op.child {
      assert !Registered(s.x, s.op.child);
    }
  }

  /** A step between binds that changes no registration and closes nothing. */
  lemma QuietMove(s: State, x: Index, ch: seq<ChildState>, backends: map<AgentId, Backend>)
    requires Inv(s) && s.op.Ready? && Consistent(x) && SameChildren(s.x, x) && |ch| == |s.children|
    requires forall c :: 0 <= c < |ch| ==>
      ch[c].backend == s.children[c].backend && ch[c].closed == s.children[c].closed && (s.children[c].exited ==> ch[c].exited)
    ensures Inv(s.(x := x, children := ch, backends := backends))
  {
    ChildMoves(s, ch);
    var s1 := s.(children := ch);
    SameChildrenKeep(s1, x);
    var s2 := s.(x := x, children := ch, backends := backends);
    assert EntriesOk(s2);
    assert NoneForgotten(s2);
  }

  lemma DetachStep(s: State, d: AgentId)
    requires Inv(s) && s.op.Ready?
    ensures Inv(Next(s, Detach(d)))
  {
    var s' := Next(s, Detach(d));
    QuietMove(s, s'.x, s'.children, s'.backends);
    assert s' == s.(x := s'.x, children := s'.children, backends := s'.backends);
  }

  lemma ManagerCloseKeeps(s: State, d: AgentId)
    requires Consistent(s.x) && EntriesOk(s) && NoneForgotten(s)
    ensures var s' := ManagerClose(s, d); Consistent(s'.x) && EntriesOk(s') && NoneForgotten(s')
  {
    var s' := ManagerClose(s, d);
    RemoveKeeps(s.x, d);
    if d in s.x.byId {
      assert EntriesOk(s');
      forall c | 0 <= c < |s.children| && Registered(s.x, c) && !s'.children[c].closed ensures Registered(s'.x, c) {
        RemovedRegistered(s.x, d, c);
      }
    }
    assert NoneForgotten(s');
  }

  lemma CloseStep(s: State, d: AgentId)
    requires Inv(s) && s.op.Ready?
    ensures Inv(Next(s, Close(d)))
  {
    var s' := Next(s, Close(d));
    var s1 := s.(backends := s.backends - {d});
    assert EntriesOk(s1) && NoneForgotten(s1);
    ManagerCloseKeeps(s1, d);
    assert EntriesOk(s');
    assert NoneForgotten(s');
  }

  lemma ReapOp(s: State)
    requires OpOk(s) && s.op.Reaping? && s.op.ids != []
    ensures OpOk(ManagerClose(s, s.op.ids[0]).(op := Reaping(s.op.ids[1..])))
  {
    assert forall id :: id in s.op.ids[1..] ==> id in s.op.ids;
  }

  lemma ReapStep(s: State)
    requires Inv(s) && s.op.Reaping?
    ensures Inv(Next(s, ReapNext))
  {
    var s' := Next(s, ReapNext);
    if s.op.ids == [] {
      OpMoves(s, Ready);
    } else {
      var s1 := ManagerClose(s, s.op.ids[0]);
      ManagerCloseKeeps(s, s.op.ids[0]);
      assert s' == s1.(op := Reaping(s.op.ids[1..]));
      ReapOp(s);
      OpMoves(s1, Reaping(s.op.ids[1..]));
    }
  }

  lemma InvStep(s: State, l: Label)
    requires Inv(s) && Enabled(s, l) && FreshOrMapped(s, l)
    ensures Inv(Next(s, l))
  {
    match l
    case BindClaude(_, _) => BindStep(s, l);
    case ReadExit => ReuseSteps(s, l);
    case TakeStdout => if s.op.Live? { ReuseSteps(s, l); } else { FreshSteps(s, l); }
    case Rekey => RekeyStep(s);
    case DropStale => DropStaleStep(s);
    case Spawn(ok) => SpawnStep(s, ok);
    case Insert => InsertStep(s);
    case Register => OpMoves(s.(backends := Next(s, l).backends), Ready);
    case BindCodex(_) => OpMoves(s, Next(s, l).op);
    case Detach(d) => DetachStep(s, d);
    case Close(d) => CloseStep(s, d);
    case SweepList(ids) => OpMoves(s.(backends := Next(s, l).backends), Reaping(ids));
    case ReapNext => ReapStep(s);
    case Note(n, r) => NoteStep(s, n, r);
    case Exits(c) => ChildMoves(s, Next(s, l).children);
    case LosesSink(c) => ChildMoves(s, Next(s, l).children);
  }

  lemma {:induction false} InvAlways(states: seq<State>, labels: seq<Label>, i: nat)
    requires IsRun(states, labels) && i < |states|
    ensures Inv(states[i])
  {
    if i > 0 {
      InvAlways(states, labels, i - 1);
      InvStep(states[i - 1], labels[i - 1]);
    }
  }

  // ------------------------------------------------------------------- results

  /** In every reachable state, in the middle of a bind too: the index is consistent, no two agents
      share a child, and every running Claude child is registered or about to be. */
  lemma RegistryIsSound(states: seq<State>, labels: seq<Label>, i: nat)
    requires IsRun(states, labels) && i < |states|
    ensures Consistent(states[i].x)
    ensures forall a, b :: a in states[i].x.byId && b in states[i].x.byId && a != b
              ==> states[i].x.byId[a].child != states[i].x.byId[b].child
    ensures NoneForgotten(states[i])
  {
    InvAlways(states, labels, i);
  }

  /** A bind whose resume id led to a child that is still running when the bind completes hands out
      that very child and has spawned nothing; its entry stands under the new id and is not marked
      detached. A bind that does spawn has seen the old child's exit. */
  lemma RebindReturnsSameChild(states: seq<State>, labels: seq<Label>, i: nat)
    requires IsRun(states, labels) && i < |states| && states[i].op.Bound?
    ensures var s := states[i]; var call := s.op.call;
            && call.a in s.x.byId && s.x.byId[call.a].child == s.op.child && !s.x.byId[call.a].detached
            && (call.prev.Some? && !Exited(s, call.prev.value) ==> s.op.reattached)
            && (s.op.reattached ==> call.prev == Some(s.op.child) && |s.children| == call.mark)
            && (!s.op.reattached ==> s.op.child == call.mark && |s.children| == call.mark + 1)
  {
    InvAlways(states, labels, i);
  }

  /** The rekey itself always finds its entry, and afterwards both directions of the index lead to the
      new id, the old id is gone and every other entry is as it was. */
  lemma RekeyMovesEntry(states: seq<State>, labels: seq<Label>, i: nat)
    requires IsRun(states, labels) && i < |labels| && labels[i].Rekey?
    ensures var s, s' := states[i], states[i + 1];
            s.op.Attached? && s'.op == Bound(s.op.call, s.op.child, true) && s'.children == s.children
    ensures var x, y := states[i].x, states[i + 1].x; var call, old_ := states[i].op.call, states[i].op.prevId;
            && old_ in x.byId && call.resume.Some? && call.resume.value in y.byResume
            && y.byResume[call.resume.value] == call.a
            && y.byId == (x.byId - {old_})[call.a := x.byId[old_].(detached := false)]
            && (old_ != call.a ==> old_ !in y.byId)
  {
    InvAlways(states, labels, i);
  }

  /** The sink that a bind installs is its own, unless the forwarder has meanwhile lost it. */
  predicate SinkOk(s: State) {
    match s.op
    case Attached(call, _, child) => child < |s.children| && s.children[child].sink in {Some(call.a), None}
    case Inserting(call, child) => child < |s.children| && s.children[child].sink in {Some(call.a), None}
    case Bound(call, child, _) => child < |s.children| && s.children[child].sink in {Some(call.a), None}
    case _ => true
  }

  lemma {:induction false} BindInstallsSink(states: seq<State>, labels: seq<Label>, i: nat)
    requires IsRun(states, labels) && i < |states|
    ensures SinkOk(states[i])
  {
    if i > 0 {
      BindInstallsSink(states, labels, i - 1);
      InvAlways(states, labels, i - 1);
      SinkStep(states[i - 1], labels[i - 1]);
    }
  }

  lemma SinkStep(s: State, l: Label)
    requires OpOk(s) && EntriesOk(s) && SinkOk(s) && Enabled(s, l)
    ensures SinkOk(Next(s, l))
  {
  }

  /** The entry of `a`, its child and sink, and every resume id that leads to it are the same. */
  ghost predicate Untouched(s: State, s': State, a: AgentId)
    requires a in s.x.byId
  {
    && a in s'.x.byId && s'.x.byId[a] == s.x.byId[a] && |s'.children| == |s.children|
    && (s.x.byId[a].child < |s.children| ==> s'.children[s.x.byId[a].child] == s.children[s.x.byId[a].child])
    && forall r :: r in s.x.byResume && s.x.byResume[r] == a ==> r in s'.x.byResume && s'.x.byResume[r] == a
  }

  lemma LateDetach(s: State, d: AgentId, a: AgentId)
    requires Inv(s) && s.op.Ready? && a in s.x.byId && d != a
    ensures Untouched(s, Next(s, Detach(d)), a)
  {
    assert s.hub.Some? ==> s.hub.value != s.x.byId[a].child;
    assert d in s.x.byId ==> s.x.byId[d].child != s.x.byId[a].child;
  }

  lemma LateClose(s: State, d: AgentId, a: AgentId)
    requires Inv(s) && s.op.Ready? && a in s.x.byId && d != a
    ensures Untouched(s, Next(s, Close(d)), a)
  {
    RemoveKeeps(s.x, d);
    assert s.hub.Some? ==> s.hub.value != s.x.byId[a].child;
    assert d in s.x.byId ==> s.x.byId[d].child != s.x.byId[a].child;
  }

  /** A late detach or close of any other id leaves a registered Claude session alone. */
  lemma LateCallsAreHarmless(states: seq<State>, labels: seq<Label>, i: nat, a: AgentId)
    requires IsRun(states, labels) && i < |labels| && a in states[i].x.byId
    requires (labels[i].Detach? && labels[i].d != a) || (labels[i].Close? && labels[i].d != a)
    ensures states[i].x.byId[a].child < |states[i].children| && Untouched(states[i], states[i + 1], a)
  {
    InvAlways(states, labels, i);
    if labels[i].Detach? {
      LateDetach(states[i], labels[i].d, a);
    } else {
      LateClose(states[i], labels[i].d, a);
    }
  }

  /** Codex is different: a detach of any id recorded as Codex takes the sink of whoever is bound now. */
  lemma CodexDetachClearsIff(s: State, d: AgentId, b: AgentId)
    requires Inv(s) && s.op.Ready? && s.hub.Some? && s.children[s.hub.value].sink == Some(b)
    ensures Next(s, Detach(d)).children[s.hub.value].sink == Some(b) <==> !(d in s.backends && s.backends[d].Codex?)
  {
    if d in s.x.byId {
      assert s.x.byId[d].child != s.hub.value;
    }
  }

  /** The bind step of another Codex agent that installs its own sink. */
  predicate TakesHubFrom(s: State, l: Label, b: AgentId) {
    l.TakeStdout? && s.op.HubTaking? && s.op.a != b
  }

  /** In every run the Codex agent that is bound loses the shared sink in exactly three ways: another
      one takes it, any Codex id is detached, or its own receiver is gone. */
  lemma CodexSinkLostIff(states: seq<State>, labels: seq<Label>, i: nat, b: AgentId)
    requires IsRun(states, labels) && i < |labels| && states[i].hub.Some?
    requires states[i].hub.value < |states[i].children| && states[i].children[states[i].hub.value].sink == Some(b)
    ensures var s, s', l, h := states[i], states[i + 1], labels[i], states[i].hub.value;
            && h < |s'.children|
            && (s'.children[h].sink != Some(b) <==>
                  || TakesHubFrom(s, l, b)
                  || (l.Detach? && l.d in s.backends && s.backends[l.d].Codex?)
                  || l == LosesSink(h))
  {
    InvAlways(states, labels, i);
    var s, l := states[i], labels[i];
    match l
    case Detach(d) => CodexDetachClearsIff(s, d, b);
    case TakeStdout => HubTakesItself(s);
    case _ =>
  }

  /** A Claude bind takes the stream of a Claude child, a Codex bind that of the hub. */
  lemma HubTakesItself(s: State)
    requires Inv(s) && Enabled(s, TakeStdout) && s.hub.Some?
    ensures s.op.child == s.hub.value <==> s.op.HubTaking?
  {
  }

  /** Closing ends a registered child exactly when the router still has the id on record. */
  lemma CloseEndsChildIff(s: State, d: AgentId)
    requires Inv(s) && s.op.Ready? && d in s.x.byId
    ensures var s' := Next(s, Close(d)); var c := s.x.byId[d].child;
            s'.children[c].closed <==> d in s.backends && s.backends[d].Claude?
  {
    if s.hub.Some? {
      assert s.x.byId[d].child != s.hub.value;
    }
  }

  /** So a close after the channel has detached does nothing: the child goes on, still registered. */
  lemma CloseAfterDetachDoesNothing(s: State, d: AgentId)
    requires Inv(s) && s.op.Ready? && d in s.x.byId
    ensures var s1 := Next(s, Detach(d)); var s2 := Next(s1, Close(d)); var c := s.x.byId[d].child;
            s2 == s1 && d in s2.x.byId && s2.x.byId[d].child == c && !s2.children[c].closed
  {
    DetachStep(s, d);
    var s1 := Next(s, Detach(d));
    assert d in s1.x.byId;
    assert s1.backends - {d} == s1.backends;
  }

  /** The sweep ends no running child, and what it reaps is out of the index. */
  lemma SweepReapsOnlyExited(states: seq<State>, labels: seq<Label>, i: nat)
    requires IsRun(states, labels) && i < |labels| && labels[i].ReapNext? && states[i].op.ids != []
    ensures states[i].op.ids[0] !in states[i + 1].x.byId
    ensures |states[i + 1].children| == |states[i].children|
    ensures forall c :: 0 <= c < |states[i].children| && states[i + 1].children[c].closed && !states[i].children[c].closed
              ==> states[i].children[c].exited
  {
    InvAlways(states, labels, i);
    RemoveKeeps(states[i].x, states[i].op.ids[0]);
  }

  /** Why a bind must not reuse the id of another session: four undisturbed steps later the resume id
      leads to the wrong session, and the running child behind it is forgotten. */
  lemma ReusedIdForgetsChild(s: State, a: AgentId, r: ResumeId)
    requires Inv(s) && s.op.Ready? && r in s.x.byResume && s.x.byResume[r] == a
    requires !Exited(s, s.x.byId[a].child)
    ensures var s1 := Next(s, BindClaude(a, None)); var s2 := Next(s1, Spawn(true));
            var s3 := Next(s2, TakeStdout); var s4 := Next(s3, Insert);
            !Consistent(s4.x) && !NoneForgotten(s4)
  {
    var s2 := Next(Next(s, BindClaude(a, None)), Spawn(true));
    var s4 := Next(Next(s2, TakeStdout), Insert);
    var c := s.x.byId[a].child;
    assert s4.x.byId[a].child == |s.children| && s4.x.byResume[r] == a;
    forall id | id in s4.x.byId ensures s4.x.byId[id].child != c {}
    assert !s4.children[c].exited && !Registered(s4.x, c);
  }
}
