/** Hand-over of a child's stdout between successive clients (`AgentSession::{take_stdout,
    clear_sink}` and `forwarder_task` in crates/host-core/src/agent_session.rs).

    One forwarder task moves lines from the child to whatever sink is installed. It is cut at every
    await: between taking a line and looking at the sink, while its send waits for room, and between
    a failed send and the attempt to clear the sink. Clients install, clear and drop in between. */
module StdoutSink {
  import opened Basics

  /** Receivers are numbered in the order in which their sinks were installed. */
  type Chan = nat

  /** `STDOUT_CHANNEL_CAPACITY`, of the child's own channel and of every client's. */
  const CAPACITY: nat := 256

  /** Lines are numbered as the child wrote them; `read` of the accepted ones have been received. */
  datatype Receiver = Receiver(accepted: seq<nat>, read: nat, open: bool)

  datatype Pc =
    | Receiving
    | Holding(line: nat)               // taken from the child, sink not looked at yet
    | Sending(line: nat, to: Chan)     // a clone of that sink's sender waits for room
    | Clearing(failed: Chan)           // the send failed; waits for the sink lock
    | Stopped

  datatype Fate = Delivered(to: Chan) | Dropped

  /** `fates` tells what became of each line the forwarder is done with, and `wanted` which receiver
      the clients last asked for and did not clear; the code keeps neither. */
  datatype State = State(emitted: nat, pc: Pc, sink: Option<Chan>, receivers: seq<Receiver>, closed: bool,
                         fates: seq<Fate>, wanted: Option<Chan>)

  datatype Label =
    | Emit
    | TakeLine
    | LookAtSink
    | SendOk
    | SendFails
    | ClearFailed
    | Stop
    | TakeStdout
    | ClearSink
    | Read(c: Chan)
    | DropReceiver(c: Chan)
    | Close

  const INIT := State(0, Receiving, None, [], false, [], None)

  predicate HasLine(pc: Pc) {
    pc.Holding? || pc.Sending?
  }

  /** Lines that have left the child's channel. */
  function Taken(s: State): nat {
    |s.fates| + if HasLine(s.pc) then 1 else 0
  }

  predicate Enabled(s: State, l: Label) {
    match l
    case Emit => s.emitted - Taken(s) < CAPACITY
    case TakeLine => s.pc.Receiving? && Taken(s) < s.emitted
    case LookAtSink => s.pc.Holding?
    case SendOk =>
      && s.pc.Sending? && s.pc.to < |s.receivers| && s.receivers[s.pc.to].open
      && |s.receivers[s.pc.to].accepted| - s.receivers[s.pc.to].read < CAPACITY
    case SendFails => s.pc.Sending? && s.pc.to < |s.receivers| && !s.receivers[s.pc.to].open
    case ClearFailed => s.pc.Clearing?
    case Stop => !s.pc.Stopped?
    case TakeStdout => !s.closed
    case ClearSink => true
    case Read(c) => c < |s.receivers| && s.receivers[c].open && s.receivers[c].read < |s.receivers[c].accepted|
    case DropReceiver(c) => c < |s.receivers|
    case Close => true
  }

  function Next(s: State, l: Label): State
    requires Enabled(s, l)
  {
    match l
    case Emit => s.(emitted := s.emitted + 1)
    case TakeLine => s.(pc := Holding(|s.fates|))
    case LookAtSink =>
      if s.sink.Some? then s.(pc := Sending(s.pc.line, s.sink.value))
      else s.(pc := Receiving, fates := s.fates + [Dropped])
    case SendOk =>
      var r := s.receivers[s.pc.to];
      s.(pc := Receiving, fates := s.fates + [Delivered(s.pc.to)],
         receivers := s.receivers[s.pc.to := r.(accepted := r.accepted + [s.pc.line])])
    case SendFails => s.(pc := Clearing(s.pc.to), fates := s.fates + [Dropped])
    case ClearFailed => s.(pc := Receiving, sink := if s.sink == Some(s.pc.failed) then None else s.sink)
    case Stop => s.(pc := Stopped, fates := if HasLine(s.pc) then s.fates + [Dropped] else s.fates)
    case TakeStdout =>
      var c := |s.receivers|;
      s.(receivers := s.receivers + [Receiver([], 0, true)], sink := Some(c), wanted := Some(c))
    case ClearSink => s.(sink := None, wanted := None)
    case Read(c) => s.(receivers := s.receivers[c := s.receivers[c].(read := s.receivers[c].read + 1)])
    case DropReceiver(c) => s.(receivers := s.receivers[c := s.receivers[c].(open := false)])
    case Close => s.(closed := true)
  }

  ghost predicate IsRun(states: seq<State>, labels: seq<Label>) {
    && |states| == |labels| + 1 && states[0] == INIT
    && forall i :: 0 <= i < |labels| ==> Enabled(states[i], labels[i]) && states[i + 1] == Next(states[i], labels[i])
  }

  // ------------------------------------------------------------ the invariant

  /** The lines that went to `c`, in the order in which they were handed over. */
  function LinesOf(fates: seq<Fate>, c: Chan): seq<nat> {
    if fates == [] then []
    else LinesOf(fates[..|fates| - 1], c) + if fates[|fates| - 1] == Delivered(c) then [|fates| - 1] else []
  }

  /** Later lines go to later receivers, and no receiver's lines have a gap. */
  ghost predicate InBlocks(fates: seq<Fate>) {
    && (forall i, j :: 0 <= i < j < |fates| && fates[i].Delivered? && fates[j].Delivered? ==> fates[i].to <= fates[j].to)
    && (forall i, j, k :: 0 <= i < k < j < |fates| && fates[i].Delivered? && fates[i] == fates[j] ==> fates[k] == fates[i])
  }

  /** The forwarder may still hand a line to `c`. */
  predicate Reachable(s: State, c: Chan) {
    && c < |s.receivers| && s.receivers[c].open && !s.pc.Stopped?
    && (s.sink == Some(c) || (s.pc.Sending? && s.pc.to == c))
  }

  /** Positions are consistent, and the forwarder has never taken a sink away from an open receiver. */
  predicate Shape(s: State) {
    && Taken(s) <= s.emitted
    && (HasLine(s.pc) ==> s.pc.line == |s.fates|)
    && (s.sink.Some? ==> s.sink.value < |s.receivers|)
    && (s.pc.Sending? ==> s.pc.to < |s.receivers| && (s.sink.Some? ==> s.pc.to <= s.sink.value))
    && (s.pc.Clearing? ==> s.pc.failed < |s.receivers| && !s.receivers[s.pc.failed].open)
    && (s.wanted.Some? ==> s.wanted.value < |s.receivers|)
    && (s.sink == s.wanted || (s.sink.None? && !s.receivers[s.wanted.value].open))
  }

  ghost predicate Accounted(s: State) {
    && (forall c :: 0 <= c < |s.receivers| ==> s.receivers[c].accepted == LinesOf(s.fates, c))
    && (forall i :: 0 <= i < |s.fates| && s.fates[i].Delivered? ==> s.fates[i].to < |s.receivers|)
  }

  /** Every receiver served so far lies behind the current one, and the one served last is the only
      one of them that can still be served. */
  ghost predicate Ahead(s: State) {
    forall i :: 0 <= i < |s.fates| && s.fates[i].Delivered? ==>
      && (s.pc.Sending? ==> s.fates[i].to <= s.pc.to)
      && (s.sink.Some? ==> s.fates[i].to <= s.sink.value)
      && (s.fates[|s.fates| - 1] != s.fates[i] ==> !Reachable(s, s.fates[i].to))
  }

  ghost predicate Inv(s: State) {
    Shape(s) && Accounted(s) && InBlocks(s.fates) && Ahead(s)
  }

  lemma NewFate(fates: seq<Fate>, f: Fate, c: Chan)
    ensures LinesOf(fates + [f], c) == LinesOf(fates, c) + if f == Delivered(c) then [|fates|] else []
  {
    assert (fates + [f])[..|fates|] == fates;
  }

  lemma NothingYet(fates: seq<Fate>, c: Chan)
    requires forall i :: 0 <= i < |fates| ==> fates[i] != Delivered(c)
    ensures LinesOf(fates, c) == []
  {
    if fates != [] {
      NothingYet(fates[..|fates| - 1], c);
    }
  }

  /** A step that settles the fate of the line in hand. */
  lemma SettledStep(s: State, l: Label, f: Fate)
    requires Shape(s) && Accounted(s) && Enabled(s, l) && Next(s, l).fates == s.fates + [f]
    ensures Accounted(Next(s, l))
  {
    var s' := Next(s, l);
    assert s'.fates[|s.fates|] == f && |s'.receivers| == |s.receivers|;
    forall c | 0 <= c < |s'.receivers| ensures s'.receivers[c].accepted == LinesOf(s'.fates, c) {
      NewFate(s.fates, f, c);
    }
  }

  lemma AccountedStep(s: State, l: Label)
    requires Shape(s) && Accounted(s) && Enabled(s, l)
    ensures Accounted(Next(s, l))
  {
    var s' := Next(s, l);
    if s'.fates != s.fates {
      SettledStep(s, l, s'.fates[|s.fates|]);
    } else if l.TakeStdout? {
      NothingYet(s.fates, |s.receivers|);
    } else {
      assert forall c :: 0 <= c < |s'.receivers| ==> s'.receivers[c].accepted == s.receivers[c].accepted;
    }
  }

  lemma ShapeStep(s: State, l: Label)
    requires Shape(s) && Enabled(s, l)
    ensures Shape(Next(s, l))
  {
  }

  lemma BlocksStep(s: State, l: Label)
    requires Shape(s) && InBlocks(s.fates) && Ahead(s) && Enabled(s, l)
    ensures InBlocks(Next(s, l).fates)
  {
    var s' := Next(s, l);
    if l.SendOk? {
      forall i, k | 0 <= i < k < |s.fates| && s.fates[i] == Delivered(s.pc.to) ensures s.fates[k] == s.fates[i] {
        assert Reachable(s, s.pc.to);
        assert s.fates[|s.fates| - 1] == s.fates[i];
      }
    }
  }

  lemma AheadStep(s: State, l: Label)
    requires Shape(s) && Accounted(s) && Ahead(s) && Enabled(s, l)
    ensures Ahead(Next(s, l))
  {
    var s' := Next(s, l);
    forall i | 0 <= i < |s'.fates| && s'.fates[i].Delivered?
      ensures s'.pc.Sending? ==> s'.fates[i].to <= s'.pc.to
      ensures s'.sink.Some? ==> s'.fates[i].to <= s'.sink.value
      ensures s'.fates[|s'.fates| - 1] != s'.fates[i] ==> !Reachable(s', s'.fates[i].to)
    {
      if i < |s.fates| {
        assert s'.fates[i] == s.fates[i];
      }
    }
  }

  lemma InvStep(s: State, l: Label)
    requires Inv(s) && Enabled(s, l)
    ensures Inv(Next(s, l))
  {
    ShapeStep(s, l);
    AccountedStep(s, l);
    BlocksStep(s, l);
    AheadStep(s, l);
  }

  lemma {:induction false} InvAlways(states: seq<State>, labels: seq<Label>, i: nat)
    requires IsRun(states, labels) && i < |states|
    ensures Inv(states[i])
  {
    if i > 0 {
      InvAlways(states, labels, i - 1);
      InvStep(states[i - 1], labels[i - 1]);
    }
  }

  // ------------------------------------------------------------------ results

  lemma StepOfRun(states: seq<State>, labels: seq<Label>, i: nat)
    requires IsRun(states, labels) && i < |labels|
    ensures Shape(states[i]) && Enabled(states[i], labels[i]) && states[i + 1] == Next(states[i], labels[i])
  {
    InvAlways(states, labels, i);
  }

  lemma LinesOfIsFilter(fates: seq<Fate>, c: Chan)
    ensures var ls := LinesOf(fates, c);
            && (forall j :: 0 <= j < |ls| ==> ls[j] < |fates| && fates[ls[j]] == Delivered(c))
            && (forall i :: 0 <= i < |fates| && fates[i] == Delivered(c) ==> i in ls)
            && (forall j :: 0 < j < |ls| ==> ls[j - 1] < ls[j])
  {
    if fates != [] {
      var n := |fates| - 1;
      LinesOfIsFilter(fates[..n], c);
      var ls, ms := LinesOf(fates, c), LinesOf(fates[..n], c);
      forall i | 0 <= i < |fates| && fates[i] == Delivered(c) ensures i in ls {
        if i < n {
          assert fates[..n][i] == Delivered(c);
          assert i in ms;
        } else {
          assert ls[|ms|] == i;
        }
      }
    }
  }

  lemma {:induction false} LineAt(fates: seq<Fate>, c: Chan, j: nat)
    requires j < |LinesOf(fates, c)|
    ensures LinesOf(fates, c)[j] < |fates| && fates[LinesOf(fates, c)[j]] == Delivered(c)
  {
    var n := |fates| - 1;
    if j < |LinesOf(fates[..n], c)| {
      LineAt(fates[..n], c, j);
    }
  }

  /** In every run each line reaches at most one receiver; a receiver's lines are consecutive lines of
      the child, in order; and everything an earlier receiver got precedes what a later one gets. */
  lemma ReceiversGetBlocks(states: seq<State>, labels: seq<Label>, i: nat)
    requires IsRun(states, labels) && i < |states|
    ensures var rs := states[i].receivers;
            && (forall c, j :: 0 <= c < |rs| && 0 < j < |rs[c].accepted| ==>
                  rs[c].accepted[j] == rs[c].accepted[j - 1] + 1)
            && (forall c, d, x, y :: 0 <= c < d < |rs| && x in rs[c].accepted && y in rs[d].accepted ==> x < y)
  {
    InvAlways(states, labels, i);
    var s := states[i];
    forall c | 0 <= c < |s.receivers|
      ensures forall j :: 0 < j < |s.receivers[c].accepted| ==>
                s.receivers[c].accepted[j] == s.receivers[c].accepted[j - 1] + 1
      ensures forall x :: x in s.receivers[c].accepted ==> x < |s.fates| && s.fates[x] == Delivered(c)
    {
      assert s.receivers[c].accepted == LinesOf(s.fates, c);
      NoGaps(s.fates, c);
    }
  }

  lemma NoGaps(fates: seq<Fate>, c: Chan)
    requires InBlocks(fates)
    ensures var ls := LinesOf(fates, c);
            && (forall j :: 0 < j < |ls| ==> ls[j] == ls[j - 1] + 1)
            && (forall x :: x in ls ==> x < |fates| && fates[x] == Delivered(c))
  {
    LinesOfIsFilter(fates, c);
    var ls := LinesOf(fates, c);
    forall j | 0 < j < |ls| ensures ls[j] == ls[j - 1] + 1 {
      LineAt(fates, c, j - 1);
      LineAt(fates, c, j);
      var a, b := ls[j - 1], ls[j];
      if a + 1 < b {
        assert fates[a + 1] == Delivered(c);
        Increasing(ls, a + 1, j);
      }
    }
  }

  /** Between two neighbours of an increasing sequence there is no third element. */
  lemma Increasing(ls: seq<nat>, k: nat, j: nat)
    requires 0 < j < |ls| && ls[j - 1] < k < ls[j]
    requires forall i :: 0 < i < |ls| ==> ls[i - 1] < ls[i]
    ensures k !in ls
  {
    if k in ls {
      var i :| 0 <= i < |ls| && ls[i] == k;
      if i < j {
        Ordered(ls, i, j - 1);
      } else {
        Ordered(ls, j, i);
      }
    }
  }

  lemma Ordered(ls: seq<nat>, i: nat, j: nat)
    requires i <= j < |ls|
    requires forall i :: 0 < i < |ls| ==> ls[i - 1] < ls[i]
    ensures ls[i] <= ls[j]
    decreases j - i
  {
    if i < j {
      Ordered(ls, i, j - 1);
    }
  }

  // ------------------------------------------------- what the labels alone say

  function CountOf(labels: seq<Label>, l: Label): nat {
    if labels == [] then 0
    else CountOf(labels[..|labels| - 1], l) + if labels[|labels| - 1] == l then 1 else 0
  }

  /** The receiver of the last `TakeStdout` that no `ClearSink` has followed. */
  function Wanted(labels: seq<Label>): Option<Chan> {
    if labels == [] then None
    else
      var before, l := labels[..|labels| - 1], labels[|labels| - 1];
      if l.TakeStdout? then Some(CountOf(before, TakeStdout)) else if l.ClearSink? then None else Wanted(before)
  }

  /** Whether the receiver was given out and has not been dropped. */
  predicate IsOpen(labels: seq<Label>, c: Chan) {
    c < CountOf(labels, TakeStdout) && DropReceiver(c) !in labels
  }

  lemma CountOne(labels: seq<Label>, l: Label, m: Label)
    ensures CountOf(labels + [l], m) == CountOf(labels, m) + if l == m then 1 else 0
    ensures m in labels + [l] <==> m in labels || m == l
  {
    assert (labels + [l])[..|labels|] == labels;
  }

  ghost predicate ReceiverByLabels(s: State, labels: seq<Label>, c: Chan) {
    if c < |s.receivers|
    then s.receivers[c].read == CountOf(labels, Read(c)) && (s.receivers[c].open <==> DropReceiver(c) !in labels)
    else CountOf(labels, Read(c)) == 0 && DropReceiver(c) !in labels
  }

  ghost predicate ByLabels(s: State, labels: seq<Label>) {
    && s.emitted == CountOf(labels, Emit) && |s.receivers| == CountOf(labels, TakeStdout)
    && s.wanted == Wanted(labels) && (s.closed <==> Close in labels)
    && forall c: Chan :: ReceiverByLabels(s, labels, c)
  }

  lemma ReceiverStep(s: State, labels: seq<Label>, l: Label, c: Chan)
    requires Enabled(s, l) && ReceiverByLabels(s, labels, c)
    ensures ReceiverByLabels(Next(s, l), labels + [l], c)
  {
    CountOne(labels, l, Read(c));
    CountOne(labels, l, DropReceiver(c));
  }

  lemma LabelStep(s: State, labels: seq<Label>, l: Label)
    requires Enabled(s, l) && ByLabels(s, labels)
    ensures ByLabels(Next(s, l), labels + [l])
  {
    CountOne(labels, l, Emit);
    CountOne(labels, l, TakeStdout);
    CountOne(labels, l, Close);
    assert (labels + [l])[..|labels|] == labels;
    forall c: Chan ensures ReceiverByLabels(Next(s, l), labels + [l], c) {
      ReceiverStep(s, labels, l, c);
    }
  }

  /** The lines written, the receivers, which of them are open, what they have read, which one is
      wanted and whether the session is closed, all by counting labels. */
  lemma {:induction false} LabelsTellState(states: seq<State>, labels: seq<Label>, i: nat)
    requires IsRun(states, labels) && i < |states|
    ensures ByLabels(states[i], labels[..i])
  {
    if i > 0 {
      LabelsTellState(states, labels, i - 1);
      NextPrefix(labels, i - 1);
      LabelStep(states[i - 1], labels[..i - 1], labels[i - 1]);
    }
  }

  /** The receiver that the clients' calls ask for stays attached for as long as it is open, and no
      other ever is. What the forwarder clears is the very sink its send failed on, its receiver is
      gone, and afterwards that sink is not installed. */
  lemma OpenReceiverStaysAttached(states: seq<State>, labels: seq<Label>, i: nat)
    requires IsRun(states, labels) && i < |states|
    ensures var s, wanted := states[i], Wanted(labels[..i]);
            && (wanted.Some? && IsOpen(labels[..i], wanted.value) ==> s.sink == wanted)
            && (s.sink.Some? ==> s.sink == wanted)
    ensures i < |labels| && labels[i].ClearFailed? ==>
              && states[i].pc.Clearing? && states[i + 1].sink != Some(states[i].pc.failed)
              && !IsOpen(labels[..i], states[i].pc.failed)
              && (states[i + 1].sink != states[i].sink ==> states[i].sink == Some(states[i].pc.failed))
  {
    InvAlways(states, labels, i);
    LabelsTellState(states, labels, i);
    var s := states[i];
    if s.wanted.Some? {
      assert ReceiverByLabels(s, labels[..i], s.wanted.value);
    }
    if s.pc.Clearing? {
      assert ReceiverByLabels(s, labels[..i], s.pc.failed);
    }
  }

  /** Since `s0` nothing has reached a receiver but the line that was being sent then. */
  ghost predicate OnlyInFlight(s0: State, s: State) {
    && s0.fates <= s.fates
    && (s.pc.Sending? ==> s.pc == s0.pc && |s.fates| == |s0.fates|)
    && forall x :: |s0.fates| <= x < |s.fates| && s.fates[x].Delivered? ==> s0.pc == Sending(x, s.fates[x].to)
  }

  lemma DetachedFirst(s: State)
    requires Shape(s)
    ensures Next(s, ClearSink).sink.None? && OnlyInFlight(s, Next(s, ClearSink))
  {
  }

  lemma DetachedStep(s0: State, s: State, l: Label)
    requires Shape(s) && Enabled(s, l) && l != TakeStdout && s.sink.None? && OnlyInFlight(s0, s)
    ensures Next(s, l).sink.None? && OnlyInFlight(s0, Next(s, l))
  {
  }

  /** From a `ClearSink` until the next `TakeStdout` there is no sink, every line is dropped that was
      not already being sent, and no receiver accepts any other. */
  lemma {:induction false} DetachDropsLines(states: seq<State>, labels: seq<Label>, i: nat, j: nat)
    requires IsRun(states, labels) && i < j < |states| && labels[i] == ClearSink
    requires forall k :: i < k < j ==> labels[k] != TakeStdout
    ensures states[j].sink.None? && OnlyInFlight(states[i], states[j])
    ensures forall x :: |states[i].fates| <= x < |states[j].fates| && !states[i].pc.Sending? ==> states[j].fates[x] == Dropped
    ensures forall c, x :: 0 <= c < |states[j].receivers| && x in states[j].receivers[c].accepted ==>
              c < |states[i].receivers| && (x in states[i].receivers[c].accepted || states[i].pc == Sending(x, c))
    decreases j
  {
    DetachedRun(states, labels, i, j);
    InvAlways(states, labels, i);
    InvAlways(states, labels, j);
    var s, s' := states[i], states[j];
    forall c, x | 0 <= c < |s'.receivers| && x in s'.receivers[c].accepted
      ensures c < |s.receivers| && (x in s.receivers[c].accepted || s.pc == Sending(x, c))
    {
      LinesOfIsFilter(s'.fates, c);
      assert s'.receivers[c].accepted == LinesOf(s'.fates, c);
      assert x < |s'.fates| && s'.fates[x] == Delivered(c);
      if x < |s.fates| {
        assert s.fates[x] == Delivered(c);
        LinesOfIsFilter(s.fates, c);
      }
    }
  }

  lemma {:induction false} DetachedRun(states: seq<State>, labels: seq<Label>, i: nat, j: nat)
    requires IsRun(states, labels) && i < j < |states| && labels[i] == ClearSink
    requires forall k :: i < k < j ==> labels[k] != TakeStdout
    ensures states[j].sink.None? && OnlyInFlight(states[i], states[j])
    decreases j
  {
    if j == i + 1 {
      StepOfRun(states, labels, i);
      DetachedFirst(states[i]);
    } else {
      DetachedRun(states, labels, i, j - 1);
      DetachedNext(states, labels, states[i], j - 1);
    }
  }

  lemma DetachedNext(states: seq<State>, labels: seq<Label>, s0: State, k: nat)
    requires IsRun(states, labels) && k < |labels| && labels[k] != TakeStdout
    requires states[k].sink.None? && OnlyInFlight(s0, states[k])
    ensures states[k + 1].sink.None? && OnlyInFlight(s0, states[k + 1])
  {
    StepOfRun(states, labels, k);
    DetachedStep(s0, states[k], labels[k]);
  }

  /** Once the forwarder is stopped, nothing reaches any receiver any more, and a line in hand is lost. */
  lemma {:induction false} StopIsFinal(states: seq<State>, labels: seq<Label>, i: nat, j: nat)
    requires IsRun(states, labels) && i < j < |states| && labels[i] == Stop
    ensures states[j].pc.Stopped? && states[j].fates == states[i].fates + if HasLine(states[i].pc) then [Dropped] else []
    ensures |states[i].receivers| <= |states[j].receivers|
    ensures forall c :: 0 <= c < |states[j].receivers| ==>
              states[j].receivers[c].accepted == if c < |states[i].receivers| then states[i].receivers[c].accepted else []
    decreases j
  {
    StepOfRun(states, labels, j - 1);
    if j > i + 1 {
      StopIsFinal(states, labels, i, j - 1);
    }
  }

  /** A line taken while receiver `c` is attached is on its way to `c` until it arrives, `c` closes
      or the forwarder is stopped. */
  ghost predicate OnItsWay(s: State, line: nat, c: Chan) {
    || (s.pc == Sending(line, c) && line == |s.fates|)
    || (line < |s.fates| && s.fates[line] == Delivered(c))
    || (c < |s.receivers| && !s.receivers[c].open) || s.pc.Stopped?
  }

  lemma OnItsWayStep(s: State, l: Label, line: nat, c: Chan)
    requires Shape(s) && Enabled(s, l) && OnItsWay(s, line, c)
    ensures OnItsWay(Next(s, l), line, c)
  {
  }

  lemma LooksAtOpen(s: State, c: Chan)
    requires Shape(s) && s.pc.Holding? && s.wanted == Some(c)
    ensures OnItsWay(Next(s, LookAtSink), s.pc.line, c)
  {
  }

  /** No line is lost while a receiver is attached: if the forwarder looks at the sink when `c` is the
      wanted receiver, then that line is delivered to `c` unless `c` closes or the session stops. */
  lemma AttachedLosesNothing(states: seq<State>, labels: seq<Label>, i: nat, j: nat, line: nat, c: Chan)
    requires IsRun(states, labels) && i < j < |states|
    requires labels[i] == LookAtSink && states[i].pc == Holding(line) && Wanted(labels[..i]) == Some(c)
    ensures OnItsWay(states[j], line, c)
  {
    LabelsTellState(states, labels, i);
    StaysOnItsWay(states, labels, i, j, line, c);
  }

  lemma {:induction false} StaysOnItsWay(states: seq<State>, labels: seq<Label>, i: nat, j: nat, line: nat, c: Chan)
    requires IsRun(states, labels) && i < j < |states|
    requires labels[i] == LookAtSink && states[i].pc == Holding(line) && states[i].wanted == Some(c)
    ensures OnItsWay(states[j], line, c)
    decreases j
  {
    var before := states[j - 1];
    StepOfRun(states, labels, j - 1);
    if i + 1 == j {
      LooksAtOpen(before, c);
    } else {
      StaysOnItsWay(states, labels, i, j - 1, line, c);
      OnItsWayStep(before, labels[j - 1], line, c);
    }
  }

  /** Left alone, the forwarder hands the next line to the attached receiver while that has room; if it is
      gone, the line is lost and the sink is cleared, and then it is ready for the next line. */
  lemma NextLineGetsThrough(states: seq<State>, labels: seq<Label>, i: nat, c: Chan)
    requires IsRun(states, labels) && i < |states| && states[i].sink == Some(c) && c < |states[i].receivers|
    requires states[i].pc.Receiving? && |states[i].fates| < states[i].emitted
    ensures var s, line := states[i], |states[i].fates|; var r := s.receivers[c];
            && Enabled(s, TakeLine) && Enabled(Next(s, TakeLine), LookAtSink)
            && var s2 := Next(Next(s, TakeLine), LookAtSink);
               && (r.open && |r.accepted| - r.read < 256 ==>
                     && Enabled(s2, SendOk)
                     && Next(s2, SendOk) == s.(fates := s.fates + [Delivered(c)],
                                               receivers := s.receivers[c := r.(accepted := r.accepted + [line])]))
               && (!r.open ==>
                     && Enabled(s2, SendFails) && Enabled(Next(s2, SendFails), ClearFailed)
                     && Next(Next(s2, SendFails), ClearFailed) == s.(fates := s.fates + [Dropped], sink := None))
  {
    InvAlways(states, labels, i);
  }

  /** Nothing holds the surroundings back: the child writes while fewer than 256 lines wait, clients take the
      stream until the session is closed, clear, read and drop at any time, and the task may be stopped
      anywhere. */
  lemma SurroundingsAreFree(states: seq<State>, labels: seq<Label>, i: nat, c: Chan)
    requires IsRun(states, labels) && i < |states|
    ensures var s := states[i];
            && (Enabled(s, Emit) <==> s.emitted < |s.fates| + (if HasLine(s.pc) then 1 else 0) + 256)
            && (Enabled(s, TakeStdout) <==> Close !in labels[..i])
            && Enabled(s, ClearSink) && Enabled(s, Close) && (!s.pc.Stopped? ==> Enabled(s, Stop))
            && (c < |s.receivers| ==> Enabled(s, DropReceiver(c)))
            && (c < |s.receivers| && IsOpen(labels[..i], c) && s.receivers[c].read < |s.receivers[c].accepted| ==> Enabled(s, Read(c)))
  {
    LabelsTellState(states, labels, i);
    assert ReceiverByLabels(states[i], labels[..i], c);
  }

  /** Left alone without a sink, it drops the next line and is ready for another. */
  lemma NextLineIsDropped(s: State)
    requires s.sink.None? && s.pc.Receiving? && |s.fates| < s.emitted
    ensures Enabled(s, TakeLine) && Enabled(Next(s, TakeLine), LookAtSink)
    ensures Next(Next(s, TakeLine), LookAtSink) == s.(fates := s.fates + [Dropped])
  {
  }
}
