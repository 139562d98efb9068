/** The daemon's watchdog over its WebSocket (crates/host-core/src/daemon.rs, inside the main loop).
    Time is counted in seconds since the loop began; every arm takes no time. */
module Watchdog {
  import opened Basics

  type Time = int

  const WS_READ_IDLE_LIMIT: Time := 90
  const WS_PONG_DEADLINE: Time := 15
  const PING_PERIOD: Time := 30
  const WATCHDOG_PERIOD: Time := 5

  datatype Reason = PingFailed | Idle | PongMissing | ReadFailed | Killed

  datatype Exit = Exit(reason: Reason, at: Time)

  /** The arms of the loop that matter here: a ping tick (and whether the send succeeded), a watchdog
      tick, a frame (and whether it is a Pong), the backend's `daemon_kill`, a failed read. */
  datatype Event = Ping(sent: bool) | Tick | Frame(pong: bool) | Kill | Failure

  /** What the receiving arm handles. */
  predicate Incoming(e: Event) {
    e.Frame? || e.Kill? || e.Failure?
  }

  datatype Timed = Timed(at: Time, event: Event)

  datatype Watch = Watch(lastMessageAt: Time, pending: Option<Time>, left: Option<Exit>)

  const START := Watch(0, None, None)

  function Step(w: Watch, e: Timed): Watch {
    if w.left.Some? then w
    else
      match e.event
      case Ping(sent) =>
        if !sent then w.(left := Some(Exit(PingFailed, e.at)))
        else if w.pending.None? then w.(pending := Some(e.at + WS_PONG_DEADLINE))
        else w
      case Tick =>
        if e.at - w.lastMessageAt > WS_READ_IDLE_LIMIT then w.(left := Some(Exit(Idle, e.at)))
        else if w.pending.Some? && e.at >= w.pending.value then w.(left := Some(Exit(PongMissing, e.at)))
        else w
      case Frame(pong) => w.(lastMessageAt := e.at, pending := if pong then None else w.pending)
      case Kill => w.(lastMessageAt := e.at, left := Some(Exit(Killed, e.at)))
      case Failure => w.(lastMessageAt := e.at, left := Some(Exit(ReadFailed, e.at)))
  }

  /** The loop's own variables, updated arm by arm. */
  class Loop {
    var lastMessageAt: Time
    var pendingPingDeadline: Option<Time>
    var left: Option<Exit>

    ghost function View(): Watch
      reads this
    {
      Watch(lastMessageAt, pendingPingDeadline, left)
    }

    constructor ()
      ensures View() == START
    {
      lastMessageAt, pendingPingDeadline, left := 0, None, None;
    }

    method OnPingTick(now: Time, sent: bool)
      requires left.None?
      modifies this
      ensures View() == Step(old(View()), Timed(now, Ping(sent)))
    {
      if sent {
        if pendingPingDeadline.None? {
          pendingPingDeadline := Some(now + WS_PONG_DEADLINE);
        }
      } else {
        left := Some(Exit(PingFailed, now));
      }
    }

    method OnWatchdogTick(now: Time)
      requires left.None?
      modifies this
      ensures View() == Step(old(View()), Timed(now, Tick))
    {
      if now - lastMessageAt > WS_READ_IDLE_LIMIT {
        left := Some(Exit(Idle, now));
        return;
      }
      if pendingPingDeadline.Some? {
        if now >= pendingPingDeadline.value {
          left := Some(Exit(PongMissing, now));
        }
      }
    }

    method OnIncoming(now: Time, event: Event)
      requires left.None? && Incoming(event)
      modifies this
      ensures View() == Step(old(View()), Timed(now, event))
    {
      lastMessageAt := now;
      match event {
        case Frame(pong) =>
          if pong {
            pendingPingDeadline := None;
          }
        case Kill =>
          left := Some(Exit(Killed, now));
        case Failure =>
          left := Some(Exit(ReadFailed, now));
      }
    }
  }

  // -------------------------------------------------------------------- traces

  function Run(trace: seq<Timed>): Watch {
    if trace == [] then START else Step(Run(trace[..|trace| - 1]), trace[|trace| - 1])
  }

  ghost predicate Ordered(trace: seq<Timed>) {
    && (forall i :: 0 <= i < |trace| ==> trace[i].at >= 0)
    && (forall i, j :: 0 <= i < j < |trace| ==> trace[i].at <= trace[j].at)
  }

  /** A ping tick comes within one period after `t`. */
  ghost predicate PingAfter(trace: seq<Timed>, t: Time) {
    exists i :: 0 <= i < |trace| && trace[i].event.Ping? && t < trace[i].at <= t + 30
  }

  /** A watchdog tick comes within one period after `t`. */
  ghost predicate TickAfter(trace: seq<Timed>, t: Time) {
    exists i :: 0 <= i < |trace| && trace[i].event.Tick? && t < trace[i].at <= t + 5
  }

  /** The timers have been punctual up to time `end`: whatever their phases, every half-open span of
      one period contains a tick. */
  ghost predicate Punctual(trace: seq<Timed>, end: Time) {
    && (forall t :: 0 <= t <= end - 30 ==> PingAfter(trace, t))
    && (forall t :: 0 <= t <= end - 5 ==> TickAfter(trace, t))
  }

  ghost predicate SilentAfter(trace: seq<Timed>, s: Time) {
    forall i :: 0 <= i < |trace| && Incoming(trace[i].event) ==> trace[i].at <= s
  }

  lemma {:induction false} LeftStays(trace: seq<Timed>, n: nat)
    requires Ordered(trace) && n <= |trace| && Run(trace[..n]).left.Some?
    ensures Run(trace).left == Run(trace[..n]).left
    decreases |trace| - n
  {
    if n == |trace| {
      assert trace[..n] == trace;
    } else {
      assert trace[..n + 1][..n] == trace[..n];
      LeftStays(trace, n + 1);
    }
  }

  lemma {:induction false} LeftAtMost(trace: seq<Timed>, t: Time)
    requires Run(trace).left.Some? && forall i :: 0 <= i < |trace| ==> trace[i].at <= t
    ensures Run(trace).left.value.at <= t
  {
    if trace != [] && Run(trace[..|trace| - 1]).left.Some? {
      LeftAtMost(trace[..|trace| - 1], t);
    }
  }

  /** No deadline is ever set further ahead than the pong limit. */
  lemma {:induction false} DeadlineIsNear(trace: seq<Timed>, t: Time)
    requires forall i :: 0 <= i < |trace| ==> trace[i].at <= t
    ensures Run(trace).pending.Some? ==> Run(trace).pending.value <= t + WS_PONG_DEADLINE
  {
    if trace != [] {
      DeadlineIsNear(trace[..|trace| - 1], t);
    }
  }

  /** After a ping at `i` some deadline is set, and nothing moves it as long as no frame comes. */
  lemma {:induction false} Armed(trace: seq<Timed>, s: Time, i: nat, n: nat)
    requires Ordered(trace) && SilentAfter(trace, s)
    requires i < n <= |trace| && trace[i].event.Ping? && trace[i].at > s
    ensures var w := Run(trace[..n]);
            w.left.Some? || (w.pending.Some? && w.pending.value <= trace[i].at + WS_PONG_DEADLINE)
    decreases n
  {
    assert trace[..n][..n - 1] == trace[..n - 1];
    if n > i + 1 {
      Armed(trace, s, i, n - 1);
    } else {
      DeadlineIsNear(trace[..i], trace[i].at);
    }
  }

  /** The first watchdog tick after that deadline ends the loop, if it is still running. */
  lemma TickEnds(trace: seq<Timed>, s: Time, i: nat, j: nat)
    requires Ordered(trace) && SilentAfter(trace, s)
    requires i < |trace| && trace[i].event.Ping? && s < trace[i].at
    requires j < |trace| && trace[j].event.Tick? && trace[i].at + WS_PONG_DEADLINE < trace[j].at
    ensures Run(trace).left.Some? && Run(trace).left.value.at <= trace[j].at
  {
    Armed(trace, s, i, j);
    assert trace[..j + 1][..j] == trace[..j];
    LeftAtMost(trace[..j + 1], trace[j].at);
    LeftStays(trace, j + 1);
  }

  /** If no frame arrives after time `s`, the loop has been left by s + 30 + 15 + 5. */
  lemma SilenceEndsLoop(trace: seq<Timed>, s: Time)
    requires Ordered(trace) && s >= 0 && SilentAfter(trace, s)
    requires Punctual(trace, s + 30 + 15 + 5)
    ensures var w := Run(trace); w.left.Some? && w.left.value.at <= s + 30 + 15 + 5
  {
    var d := s + PING_PERIOD + WS_PONG_DEADLINE;
    assert PingAfter(trace, s) && TickAfter(trace, d);
    var i :| 0 <= i < |trace| && trace[i].event.Ping? && s < trace[i].at <= s + PING_PERIOD;
    var j :| 0 <= j < |trace| && trace[j].event.Tick? && d < trace[j].at <= d + WATCHDOG_PERIOD;
    TickEnds(trace, s, i, j);
  }

  /** The last message was at the time of some frame, or at the beginning, and none came after it. */
  lemma {:induction false} LastMessage(trace: seq<Timed>)
    requires Ordered(trace) && Run(trace).left.None?
    ensures SilentAfter(trace, Run(trace).lastMessageAt) && Run(trace).lastMessageAt >= 0
  {
    if trace != [] {
      var before := trace[..|trace| - 1];
      LastMessage(before);
      forall i | 0 <= i < |trace| && Incoming(trace[i].event)
        ensures trace[i].at <= Run(trace).lastMessageAt
      {
        if i < |before| {
          assert before[i] == trace[i];
        }
      }
    }
  }

  /** So with punctual timers the limit of 90 idle seconds is never what ends the loop. */
  lemma {:induction false} IdleRuleNeverFires(trace: seq<Timed>)
    requires Ordered(trace) && Punctual(trace, if trace == [] then 0 else trace[|trace| - 1].at)
    ensures Run(trace).left.Some? ==> Run(trace).left.value.reason != Idle
  {
    if Run(trace).left.Some? && Run(trace).left.value.reason == Idle {
      assert trace[..|trace|] == trace;
      var n := ExitIndex(trace, |trace|);
      var before := trace[..n];
      LastMessage(before);
      var s, t := Run(before).lastMessageAt, trace[n].at;
      assert t - s > WS_READ_IDLE_LIMIT;
      PunctualBefore(trace, n, s + PING_PERIOD + WS_PONG_DEADLINE + WATCHDOG_PERIOD);
      SilenceEndsLoop(before, s);
      assert false;
    }
  }

  /** The event that ended the loop. */
  lemma {:induction false} ExitIndex(trace: seq<Timed>, m: nat) returns (n: nat)
    requires m <= |trace| && Run(trace[..m]).left.Some?
    ensures n < m && Run(trace[..n]).left.None? && Run(trace[..n + 1]).left == Run(trace[..m]).left
    ensures Run(trace[..n + 1]) == Step(Run(trace[..n]), trace[n])
  {
    assert m > 0;
    assert trace[..m][..m - 1] == trace[..m - 1];
    if Run(trace[..m - 1]).left.None? {
      n := m - 1;
    } else {
      n := ExitIndex(trace, m - 1);
    }
  }

  /** Ticks due well before the n-th event are among the events before it. */
  lemma PunctualBefore(trace: seq<Timed>, n: nat, end: Time)
    requires Ordered(trace) && n < |trace| && end < trace[n].at && Punctual(trace, trace[|trace| - 1].at)
    ensures Punctual(trace[..n], end)
  {
    assert trace[n].at <= trace[|trace| - 1].at;
    forall t | 0 <= t <= end - PING_PERIOD ensures PingAfter(trace[..n], t) {
      assert PingAfter(trace, t);
      var i :| 0 <= i < |trace| && trace[i].event.Ping? && t < trace[i].at <= t + PING_PERIOD;
      assert i < n && trace[..n][i] == trace[i];
    }
    forall t | 0 <= t <= end - WATCHDOG_PERIOD ensures TickAfter(trace[..n], t) {
      assert TickAfter(trace, t);
      var i :| 0 <= i < |trace| && trace[i].event.Tick? && t < trace[i].at <= t + WATCHDOG_PERIOD;
      assert i < n && trace[..n][i] == trace[i];
    }
  }

  // ------------------------------------------------------- what a deadline means

  predicate SentPing(e: Timed) {
    e.event == Ping(true)
  }

  predicate IsPong(e: Timed) {
    e.event == Frame(true)
  }

  /** The i-th event sent a ping, and no Pong came after it. */
  ghost predicate Unanswered(trace: seq<Timed>, i: int) {
    0 <= i < |trace| && SentPing(trace[i]) && forall n :: i < n < |trace| ==> !IsPong(trace[n])
  }

  ghost predicate OldestUnanswered(trace: seq<Timed>, i: int) {
    Unanswered(trace, i) && forall j :: j < i ==> !Unanswered(trace, j)
  }

  lemma UnansweredNext(trace: seq<Timed>, i: int)
    requires trace != []
    ensures var n := |trace| - 1;
            Unanswered(trace, i)
            <==> (Unanswered(trace[..n], i) && !IsPong(trace[n])) || (i == n && SentPing(trace[n]))
  {
    var n := |trace| - 1;
    assert forall k :: 0 <= k < n ==> trace[..n][k] == trace[k];
  }

  /** While the loop runs, a deadline is set exactly if some ping has had no Pong since, and then it
      belongs to the oldest such ping: a later ping does not postpone it. */
  lemma {:induction false} DeadlineIsOldestUnanswered(trace: seq<Timed>)
    requires Run(trace).left.None?
    ensures Run(trace).pending.None? ==> forall i :: !Unanswered(trace, i)
    ensures Run(trace).pending.Some? ==>
              exists i :: OldestUnanswered(trace, i) && Run(trace).pending == Some(trace[i].at + WS_PONG_DEADLINE)
  {
    if trace != [] {
      var n := |trace| - 1;
      var before := trace[..n];
      DeadlineIsOldestUnanswered(before);
      forall i: int ensures Unanswered(trace, i) <==> (Unanswered(before, i) && !IsPong(trace[n])) || (i == n && SentPing(trace[n])) {
        UnansweredNext(trace, i);
      }
      if Run(before).pending.Some? {
        var i :| OldestUnanswered(before, i) && Run(before).pending == Some(before[i].at + WS_PONG_DEADLINE);
        assert Unanswered(before, i) && before[i] == trace[i];
        assert !IsPong(trace[n]) ==> OldestUnanswered(trace, i);
      } else {
        assert SentPing(trace[n]) ==> OldestUnanswered(trace, n);
      }
    }
  }

  /** If the pong rule ends the loop, a ping was sent at least 15 seconds earlier and has had no Pong. */
  lemma PongExitIsDeserved(trace: seq<Timed>) returns (i: nat, n: nat)
    requires Run(trace).left.Some? && Run(trace).left.value.reason == PongMissing
    ensures i < n < |trace| && Unanswered(trace[..n], i)
    ensures Run(trace).left.value.at == trace[n].at && trace[i].at <= trace[n].at - WS_PONG_DEADLINE
  {
    Whole(trace);
    n := ExitIndex(trace, |trace|);
    i := OldestPing(trace[..n]);
  }

  lemma OldestPing(trace: seq<Timed>) returns (i: nat)
    requires Run(trace).left.None? && Run(trace).pending.Some?
    ensures i < |trace| && Unanswered(trace, i) && Run(trace).pending.value == trace[i].at + WS_PONG_DEADLINE
  {
    DeadlineIsOldestUnanswered(trace);
    i :| OldestUnanswered(trace, i) && Run(trace).pending == Some(trace[i].at + WS_PONG_DEADLINE);
  }

  // ---------------------------------------------------- exactly when it is left

  /** A failed ping, a kill or a failed read. */
  predicate EndsAtOnce(e: Event) {
    e == Ping(false) || e.Kill? || e.Failure?
  }

  /** A watchdog tick more than 90 seconds after everything that came in, and after the beginning. */
  ghost predicate IdleAt(trace: seq<Timed>, n: int) {
    && 0 <= n < |trace| && trace[n].event.Tick? && trace[n].at > 90
    && forall i :: 0 <= i < n && Incoming(trace[i].event) ==> trace[n].at - trace[i].at > 90
  }

  /** A watchdog tick 15 seconds or more after some ping that no Pong has followed. */
  ghost predicate PongLate(trace: seq<Timed>, n: int) {
    && 0 <= n < |trace| && trace[n].event.Tick?
    && exists i :: Unanswered(trace[..n], i) && trace[n].at >= trace[i].at + 15
  }

  ghost predicate Leaves(trace: seq<Timed>, n: int) {
    0 <= n < |trace| && (EndsAtOnce(trace[n].event) || IdleAt(trace, n) || PongLate(trace, n))
  }

  ghost function ReasonAt(trace: seq<Timed>, n: int): Reason
    requires 0 <= n < |trace|
  {
    match trace[n].event
    case Ping(_) => PingFailed
    case Kill => Killed
    case Failure => ReadFailed
    case _ => if IdleAt(trace, n) then Idle else PongMissing
  }

  lemma {:induction false} LastMessageIsLatest(trace: seq<Timed>)
    requires Ordered(trace) && Run(trace).left.None?
    ensures SilentAfter(trace, Run(trace).lastMessageAt) && Run(trace).lastMessageAt >= 0
    ensures Run(trace).lastMessageAt == 0 ||
            exists i :: 0 <= i < |trace| && Incoming(trace[i].event) && trace[i].at == Run(trace).lastMessageAt
  {
    LastMessage(trace);
    if trace != [] {
      var before := trace[..|trace| - 1];
      LastMessageIsLatest(before);
      if i :| 0 <= i < |before| && Incoming(before[i].event) && before[i].at == Run(before).lastMessageAt {
        assert trace[i] == before[i];
      }
    }
  }

  lemma IdleRuleIff(trace: seq<Timed>, n: nat)
    requires Ordered(trace) && n < |trace| && Run(trace[..n]).left.None? && trace[n].event.Tick?
    ensures trace[n].at - Run(trace[..n]).lastMessageAt > WS_READ_IDLE_LIMIT <==> IdleAt(trace, n)
  {
    var before := trace[..n];
    LastMessageIsLatest(before);
    assert forall i :: 0 <= i < n ==> before[i] == trace[i];
  }

  lemma PongRuleIff(trace: seq<Timed>, n: nat)
    requires Ordered(trace) && n < |trace| && Run(trace[..n]).left.None? && trace[n].event.Tick?
    ensures var w := Run(trace[..n]);
            w.pending.Some? && trace[n].at >= w.pending.value <==> PongLate(trace, n)
  {
    var before := trace[..n];
    DeadlineIsOldestUnanswered(before);
    if Run(before).pending.Some? {
      var i :| OldestUnanswered(before, i) && Run(before).pending == Some(before[i].at + WS_PONG_DEADLINE);
      assert Unanswered(before, i) && before[i] == trace[i];
      forall j | Unanswered(before, j) ensures trace[i].at <= trace[j].at {
        assert i <= j;
      }
    }
  }

  lemma LeavesNow(trace: seq<Timed>, n: nat)
    requires Ordered(trace) && n < |trace| && Run(trace[..n]).left.None?
    ensures var left := Step(Run(trace[..n]), trace[n]).left;
            && (left.Some? <==> Leaves(trace, n))
            && (left.Some? ==> left == Some(Exit(ReasonAt(trace, n), trace[n].at)))
  {
    if trace[n].event.Tick? {
      IdleRuleIff(trace, n);
      PongRuleIff(trace, n);
    }
  }

  /** The loop is left at the first event that ends it, for that event's reason: at once by a failed
      ping, a kill or a failed read, and by a watchdog tick if nothing has come in for more than 90
      seconds or some ping has had no Pong for 15; otherwise it runs on. */
  lemma {:induction false} LoopLeavesIff(trace: seq<Timed>)
    requires Ordered(trace)
    ensures Run(trace).left.None? <==> forall n :: !Leaves(trace, n)
    ensures Run(trace).left.Some? ==>
              exists n :: Leaves(trace, n) && (forall m :: m < n ==> !Leaves(trace, m))
                          && Run(trace).left == Some(Exit(ReasonAt(trace, n), trace[n].at))
  {
    if trace != [] {
      var k := |trace| - 1;
      var before := trace[..k];
      LoopLeavesIff(before);
      forall n: int | n < k ensures Leaves(before, n) <==> Leaves(trace, n)
        ensures 0 <= n ==> ReasonAt(before, n) == ReasonAt(trace, n)
      {
        LeavesEarlier(trace, n);
      }
      if Run(before).left.None? {
        LeavesNow(trace, k);
        assert forall n :: Leaves(trace, n) ==> n == k;
      } else {
        var n :| Leaves(before, n) && (forall m :: m < n ==> !Leaves(before, m))
                 && Run(before).left == Some(Exit(ReasonAt(before, n), before[n].at));
        assert Leaves(trace, n);
      }
    }
  }

  lemma LeavesEarlier(trace: seq<Timed>, n: int)
    requires trace != [] && n < |trace| - 1
    ensures Leaves(trace[..|trace| - 1], n) <==> Leaves(trace, n)
    ensures 0 <= n ==> ReasonAt(trace[..|trace| - 1], n) == ReasonAt(trace, n)
  {
    var before := trace[..|trace| - 1];
    if 0 <= n {
      TakeTake(trace, |trace| - 1, n);
      assert forall i :: 0 <= i <= n ==> before[i] == trace[i];
    }
  }
}
