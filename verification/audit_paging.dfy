/** Paging backwards through the audit log by timestamp (`read_audit_tail` in
    crates/host-core/src/audit.rs). */
module AuditPaging {
  import opened Basics

  /** `at` is missing when the timestamp does not parse. */
  datatype Event = Event(kind: string, at: Option<int>)

  datatype Line = Empty | Malformed | Entry(event: Event)

  /** The `before_ts` argument: absent, not a timestamp, or a timestamp. */
  datatype Boundary = Unbounded | Unreadable | Before(t: int)

  predicate Matches(l: Line, before: Boundary, prefix: Option<string>) {
    && l.Entry?
    && (prefix.Some? ==> prefix.value <= l.event.kind)
    && (before.Before? ==> l.event.at.Some? && l.event.at.value < before.t)
  }

  /** The matching events, in file order. */
  function Matching(ls: seq<Line>, before: Boundary, prefix: Option<string>): seq<Event> {
    if ls == [] then []
    else
      var l := ls[|ls| - 1];
      Matching(ls[..|ls| - 1], before, prefix) + if Matches(l, before, prefix) then [l.event] else []
  }

  function NewestFirst(m: seq<Event>): (r: seq<Event>)
    ensures |r| == |m|
  {
    if m == [] then [] else [m[|m| - 1]] + NewestFirst(m[..|m| - 1])
  }

  lemma {:induction false} NewestAt(m: seq<Event>, i: nat)
    requires i < |m|
    ensures NewestFirst(m)[i] == m[|m| - 1 - i]
  {
    if i > 0 {
      NewestAt(m[..|m| - 1], i - 1);
    }
  }

  /** The largest page that `audit/list` hands out (crates/host-core/src/rpc.rs). */
  const AUDIT_LIST_MAX_LIMIT: nat := 100

  type Limit = n: nat | 1 <= n <= AUDIT_LIST_MAX_LIMIT witness 1

  datatype Page = Page(events: seq<Event>, more: bool)

  function PageOf(ls: seq<Line>, limit: nat, before: Boundary, prefix: Option<string>): Page {
    if before.Unreadable? then Page([], false)
    else
      var newest := NewestFirst(Matching(ls, before, prefix));
      if |newest| > limit then Page(newest[..limit], true) else Page(newest, false)
  }

  method ReadAuditTail(ls: seq<Line>, limit: nat, before: Boundary, prefix: Option<string>)
    returns (events: seq<Event>, more: bool)
    ensures Page(events, more) == PageOf(ls, limit, before, prefix)
  {
    if before.Unreadable? {
      return [], false;
    }
    var matched: seq<Event> := [];
    for i := 0 to |ls|
      invariant matched == Matching(ls[..i], before, prefix)
    {
      assert ls[..i + 1][..i] == ls[..i];
      match ls[i] {
        case Empty =>
        case Malformed =>
        case Entry(ev) =>
          if prefix.Some? {
            if !(prefix.value <= ev.kind) {
              continue;
            }
          }
          if before.Before? {
            if ev.at.None? || ev.at.value >= before.t {
              continue;
            }
          }
          matched := matched + [ev];
      }
    }
    assert ls[..|ls|] == ls;
    matched := NewestFirst(matched);
    more := |matched| > limit;
    events := if more then matched[..limit] else matched;
  }

  // ------------------------------------------------------- following the pages

  /** The events at the end of each page serve as the next boundary, while there are more. */
  function Follow(ls: seq<Line>, limits: nat -> Limit, i: nat, before: Boundary, prefix: Option<string>): seq<Event>
    decreases |Matching(ls, before, prefix)|
  {
    var page := PageOf(ls, limits(i), before, prefix);
    if !page.more || page.events[|page.events| - 1].at.None? then page.events
    else
      var t := page.events[|page.events| - 1].at.value;
      NewestAt(Matching(ls, before, prefix), |page.events| - 1);
      BoundaryShrinks(ls, before, prefix, page.events[|page.events| - 1]);
      page.events + Follow(ls, limits, i + 1, Before(t), prefix)
  }

  lemma {:induction false} MatchingMember(ls: seq<Line>, before: Boundary, prefix: Option<string>, e: Event)
    ensures e in Matching(ls, before, prefix) ==> Matches(Entry(e), before, prefix)
  {
    if ls != [] {
      MatchingMember(ls[..|ls| - 1], before, prefix, e);
    }
  }

  /** Moving the boundary down to a matching event leaves strictly fewer events. */
  lemma {:induction false} BoundaryShrinks(ls: seq<Line>, before: Boundary, prefix: Option<string>, e: Event)
    requires e in Matching(ls, before, prefix) && e.at.Some?
    ensures |Matching(ls, Before(e.at.value), prefix)| < |Matching(ls, before, prefix)|
  {
    var n := |ls| - 1;
    MatchingMember(ls, before, prefix, e);
    NeverMore(ls[..n], before, prefix, e.at.value);
    if e in Matching(ls[..n], before, prefix) {
      BoundaryShrinks(ls[..n], before, prefix, e);
    }
  }

  lemma {:induction false} NeverMore(ls: seq<Line>, before: Boundary, prefix: Option<string>, t: int)
    requires before.Before? ==> t < before.t
    ensures |Matching(ls, Before(t), prefix)| <= |Matching(ls, before, prefix)|
  {
    if ls != [] {
      NeverMore(ls[..|ls| - 1], before, prefix, t);
    }
  }

  /** Every matching event has a timestamp, and they strictly increase along the file. */
  ghost predicate Increasing(m: seq<Event>) {
    && (forall i :: 0 <= i < |m| ==> m[i].at.Some?)
    && (forall i, j :: 0 <= i < j < |m| ==> m[i].at.value < m[j].at.value)
  }

  predicate AllTimed(m: seq<Event>) {
    forall i :: 0 <= i < |m| ==> m[i].at.Some?
  }

  function Until(m: seq<Event>, t: int): seq<Event> {
    if m == [] then []
    else
      var e := m[|m| - 1];
      Until(m[..|m| - 1], t) + if e.at.Some? && e.at.value < t then [e] else []
  }

  lemma {:induction false} BoundaryIsUntil(ls: seq<Line>, prefix: Option<string>, t: int)
    ensures Matching(ls, Before(t), prefix) == Until(Matching(ls, Unbounded, prefix), t)
  {
    if ls != [] {
      var n := |ls| - 1;
      BoundaryIsUntil(ls[..n], prefix, t);
      var m := Matching(ls[..n], Unbounded, prefix);
      if Matches(ls[n], Unbounded, prefix) {
        assert (m + [ls[n].event])[..|m|] == m;
      } else {
        assert m + [] == m && Until(m, t) + [] == Until(m, t);
      }
    }
  }

  lemma {:induction false} UntilIsPrefix(m: seq<Event>, t: int, k: nat)
    requires AllTimed(m) && k <= |m|
    requires (forall i :: 0 <= i < k ==> m[i].at.value < t) && (forall i :: k <= i < |m| ==> m[i].at.value >= t)
    ensures Until(m, t) == m[..k]
  {
    if m != [] {
      var n := |m| - 1;
      UntilIsPrefix(m[..n], t, if k < |m| then k else n);
      if k == |m| {
        assert m[..n] + [m[n]] == m && m[..n][..n] == m[..n];
      } else {
        assert m[..n][..k] == m[..k];
      }
    }
  }

  lemma NewestSplit(s: seq<Event>, n: nat)
    requires 1 <= n <= |s|
    ensures NewestFirst(s) == NewestFirst(s)[..n] + NewestFirst(s[..|s| - n])
    ensures NewestFirst(s)[..n][n - 1] == s[|s| - n]
  {
    NewestAt(s, n - 1);
    SplitAt(NewestFirst(s), n);
    NewestRest(s, n);
  }

  lemma {:induction false} NewestRest(s: seq<Event>, n: nat)
    requires n <= |s|
    ensures NewestFirst(s)[n..] == NewestFirst(s[..|s| - n])
  {
    if n == 0 {
      Whole(s);
      Whole(NewestFirst(s));
    } else {
      NewestRest(s[..|s| - 1], n - 1);
      TakeTake(s, |s| - 1, |s| - n);
      SplitRest(NewestFirst(s), 1, n - 1);
    }
  }

  /** One turn of the paging, when there is more to come after an event of time `t`. */
  lemma FollowOn(ls: seq<Line>, m: seq<Event>, limits: nat -> Limit, i: nat, before: Boundary, prefix: Option<string>,
                 n: nat, t: int)
    requires !before.Unreadable? && Matching(ls, before, prefix) == m
    requires n == limits(i) < |m| && m[|m| - n].at == Some(t)
    ensures Follow(ls, limits, i, before, prefix)
         == NewestFirst(m)[..n] + Follow(ls, limits, i + 1, Before(t), prefix)
  {
    var page := PageOf(ls, n, before, prefix);
    NewestAt(m, n - 1);
    assert page == Page(NewestFirst(m)[..n], true);
    assert page.events[|page.events| - 1].at == Some(t);
  }

  lemma FollowEnds(ls: seq<Line>, limits: nat -> Limit, i: nat, before: Boundary, prefix: Option<string>)
    requires !before.Unreadable? && |Matching(ls, before, prefix)| <= limits(i)
    ensures Follow(ls, limits, i, before, prefix) == NewestFirst(Matching(ls, before, prefix))
  {
  }

  /** With increasing timestamps, a boundary at the k-th event leaves the k events before it. */
  lemma BoundaryLeaves(ls: seq<Line>, m: seq<Event>, prefix: Option<string>, k: nat)
    requires m == Matching(ls, Unbounded, prefix) && Increasing(m) && k < |m|
    ensures Matching(ls, Before(m[k].at.value), prefix) == m[..k]
  {
    BoundaryIsUntil(ls, prefix, m[k].at.value);
    UntilIsPrefix(m, m[k].at.value, k);
  }

  /** With increasing timestamps, paging on from a boundary that leaves the first k events returns
      exactly those, newest first. */
  lemma {:induction false} FollowReturns(ls: seq<Line>, m: seq<Event>, limits: nat -> Limit, i: nat, before: Boundary,
                                        prefix: Option<string>, k: nat)
    requires !before.Unreadable?
    requires m == Matching(ls, Unbounded, prefix) && Increasing(m)
    requires k <= |m| && Matching(ls, before, prefix) == m[..k]
    ensures Follow(ls, limits, i, before, prefix) == NewestFirst(m[..k])
    decreases k
  {
    var n: nat := limits(i);
    if k <= n {
      FollowEnds(ls, limits, i, before, prefix);
    } else {
      var t := m[k - n].at.value;
      TakeTake(m, k, k - n);
      FollowOn(ls, m[..k], limits, i, before, prefix, n, t);
      BoundaryLeaves(ls, m, prefix, k - n);
      FollowReturns(ls, m, limits, i + 1, Before(t), prefix, k - n);
      NewestSplit(m[..k], n);
    }
  }

  lemma {:induction false} NewestMember(s: seq<Event>, e: Event)
    ensures e in NewestFirst(s) <==> e in s
  {
    if s != [] {
      NewestMember(s[..|s| - 1], e);
      assert e in s <==> e == s[|s| - 1] || e in s[..|s| - 1];
    }
  }

  lemma {:induction false} FollowStaysBefore(ls: seq<Line>, limits: nat -> Limit, i: nat, t: int, prefix: Option<string>, e: Event)
    requires e in Follow(ls, limits, i, Before(t), prefix)
    ensures e.at.Some? && e.at.value < t
    decreases |Matching(ls, Before(t), prefix)|
  {
    var m, n := Matching(ls, Before(t), prefix), limits(i);
    if e in NewestFirst(m) {
      NewestMember(m, e);
      MatchingMember(ls, Before(t), prefix, e);
    } else {
      if |m| <= n {
        FollowEnds(ls, limits, i, Before(t), prefix);
      }
      var last := m[|m| - n];
      MatchingMember(ls, Before(t), prefix, last);
      FollowOn(ls, m, limits, i, Before(t), prefix, n, last.at.value);
      BoundaryShrinks(ls, Before(t), prefix, last);
      FollowStaysBefore(ls, limits, i + 1, last.at.value, prefix, e);
    }
  }

  /** Once a page ends at time `t`, no later page shows an event of that time or a later one, nor one
      whose timestamp does not parse. */
  lemma SkipsEqualTimes(ls: seq<Line>, limits: nat -> Limit, i: nat, t: int, prefix: Option<string>, e: Event)
    requires !(e.at.Some? && e.at.value < t)
    ensures e !in Follow(ls, limits, i, Before(t), prefix)
  {
    if e in Follow(ls, limits, i, Before(t), prefix) {
      FollowStaysBefore(ls, limits, i, t, prefix, e);
    }
  }

  predicate Later(a: Event, b: Event) {
    a.at.Some? && b.at.Some? && a.at.value > b.at.value
  }

  ghost predicate Descending(r: seq<Event>) {
    forall i, j :: 0 <= i < j < |r| ==> Later(r[i], r[j])
  }

  /** Pages of one event each descend strictly in time, and all but a single event have a timestamp. */
  lemma {:induction false} SinglesDescend(ls: seq<Line>, limits: nat -> Limit, i: nat, before: Boundary, prefix: Option<string>)
    requires forall n :: limits(n) == 1
    ensures Descending(Follow(ls, limits, i, before, prefix))
    decreases |Matching(ls, before, prefix)|
  {
    var m, page := Matching(ls, before, prefix), PageOf(ls, 1, before, prefix);
    if page.more && page.events[0].at.Some? {
      var e := page.events[0];
      NewestAt(m, 0);
      BoundaryShrinks(ls, before, prefix, e);
      SinglesDescend(ls, limits, i + 1, Before(e.at.value), prefix);
      var rest := Follow(ls, limits, i + 1, Before(e.at.value), prefix);
      forall f | f in rest ensures Later(e, f) {
        FollowStaysBefore(ls, limits, i + 1, e.at.value, prefix, f);
      }
      assert Follow(ls, limits, i, before, prefix) == [e] + rest;
    }
  }

  lemma DescendingRest(e: Event, rest: seq<Event>)
    requires Descending([e] + rest)
    ensures Descending(rest) && forall f <- rest :: Later(e, f)
  {
    var r := [e] + rest;
    forall i, j | 0 <= i < j < |rest| ensures Later(rest[i], rest[j]) {
      assert Later(r[i + 1], r[j + 1]);
    }
    forall j | 0 <= j < |rest| ensures Later(e, rest[j]) {
      assert Later(r[0], r[j + 1]);
    }
  }

  lemma {:induction false} DescendingIsIncreasing(m: seq<Event>)
    requires |m| > 1 && Descending(NewestFirst(m))
    ensures Increasing(m)
  {
    var n := |m| - 1;
    DescendingRest(m[n], NewestFirst(m[..n]));
    forall i | 0 <= i < n ensures Later(m[n], m[i]) {
      NewestMember(m[..n], m[..n][i]);
    }
    if n > 1 {
      DescendingIsIncreasing(m[..n]);
    }
    IncreasingOneMore(m);
  }

  lemma IncreasingOneMore(m: seq<Event>)
    requires |m| > 1 && (|m| > 2 ==> Increasing(m[..|m| - 1]))
    requires forall i :: 0 <= i < |m| - 1 ==> Later(m[|m| - 1], m[i])
    ensures Increasing(m)
  {
    var n := |m| - 1;
    assert Later(m[n], m[0]);
    assert forall i :: 0 <= i < n ==> m[..n][i] == m[i];
  }

  /** All the pages together are all the matching events, newest first. */
  ghost predicate PagesAreExact(ls: seq<Line>, limits: nat -> Limit, prefix: Option<string>)
  {
    Follow(ls, limits, 0, Unbounded, prefix) == NewestFirst(Matching(ls, Unbounded, prefix))
  }

  /** Whatever limits are asked for, the pages return every matching event exactly once, newest first,
      exactly when there is at most one, or all of them have timestamps that strictly increase along
      the file. */
  lemma PagingIsExactIff(ls: seq<Line>, prefix: Option<string>)
    ensures (forall limits: nat -> Limit :: PagesAreExact(ls, limits, prefix))
            <==> |Matching(ls, Unbounded, prefix)| <= 1 || Increasing(Matching(ls, Unbounded, prefix))
  {
    var m := Matching(ls, Unbounded, prefix);
    if |m| <= 1 {
      forall limits: nat -> Limit ensures PagesAreExact(ls, limits, prefix) {
        FollowEnds(ls, limits, 0, Unbounded, prefix);
      }
    } else if Increasing(m) {
      forall limits: nat -> Limit ensures PagesAreExact(ls, limits, prefix) {
        Whole(m);
        FollowReturns(ls, m, limits, 0, Unbounded, prefix, |m|);
      }
    } else {
      var limits: nat -> Limit := n => 1;
      if PagesAreExact(ls, limits, prefix) {
        SinglesDescend(ls, limits, 0, Unbounded, prefix);
        DescendingIsIncreasing(m);
      }
    }
  }

  ghost predicate HasUnreadable(events: seq<Event>) {
    exists i :: 0 <= i < |events| && events[i].at.None?
  }

  /** The i-th event of a page is the i-th newest match. */
  lemma OnPage(ls: seq<Line>, limit: nat, before: Boundary, prefix: Option<string>, i: nat)
    requires !before.Unreadable?
    ensures var m, events := Matching(ls, before, prefix), PageOf(ls, limit, before, prefix).events;
            && |events| == (if |m| < limit then |m| else limit)
            && (i < |events| ==> events[i] == m[|m| - 1 - i])
  {
    var m := Matching(ls, before, prefix);
    if i < |m| {
      NewestAt(m, i);
    }
  }

  /** Among the newest `limit` of these events is one whose timestamp does not parse. */
  ghost predicate NewestUnreadable(m: seq<Event>, limit: nat) {
    exists i :: 0 <= i < |m| && |m| - limit <= i && m[i].at.None?
  }

  /** Against its own description, the reader returns an event with an unreadable timestamp: exactly
      when no boundary is given and such an event is among the newest `limit` matches. */
  lemma UnreadableIsReturnedIff(ls: seq<Line>, limit: nat, before: Boundary, prefix: Option<string>)
    ensures HasUnreadable(PageOf(ls, limit, before, prefix).events)
            <==> before.Unbounded? && NewestUnreadable(Matching(ls, Unbounded, prefix), limit)
  {
    var m, events := Matching(ls, before, prefix), PageOf(ls, limit, before, prefix).events;
    if HasUnreadable(events) {
      var i :| 0 <= i < |events| && events[i].at.None?;
      OnPage(ls, limit, before, prefix, i);
      MatchingMember(ls, before, prefix, m[|m| - 1 - i]);
      assert before == Unbounded;
    }
    if before == Unbounded && NewestUnreadable(m, limit) {
      var i :| 0 <= i < |m| && |m| - limit <= i && m[i].at.None?;
      var k := |m| - 1 - i;
      OnPage(ls, limit, before, prefix, k);
      assert events[k].at.None?;
    }
  }

  /** Events appended later, at no earlier time than the boundary, leave an older page as it was. */
  lemma {:induction false} AppendsKeepOlderPages(ls: seq<Line>, new_: seq<Line>, limit: nat, t: int, prefix: Option<string>)
    requires forall l <- new_ :: l.Entry? && l.event.at.Some? ==> l.event.at.value >= t
    ensures PageOf(ls + new_, limit, Before(t), prefix) == PageOf(ls, limit, Before(t), prefix)
  {
    if new_ == [] {
      assert ls + new_ == ls;
    } else {
      var n := |new_| - 1;
      assert (ls + new_)[..|ls + new_| - 1] == ls + new_[..n];
      assert (ls + new_)[|ls + new_| - 1] == new_[n];
      AppendsKeepOlderPages(ls, new_[..n], limit, t, prefix);
      assert Matching(ls + new_, Before(t), prefix) == Matching(ls + new_[..n], Before(t), prefix);
    }
  }

  /** A log on which an unreadable timestamp is returned, and then the next page cannot be asked for. */
  lemma UnreadableTimestampIsReturned(kind: string)
    ensures PageOf([Entry(Event(kind, Some(1))), Entry(Event(kind, None))], 1, Unbounded, None)
            == Page([Event(kind, None)], true)
  {
    var ls := [Entry(Event(kind, Some(1))), Entry(Event(kind, None))];
    assert ls[..1] == [Entry(Event(kind, Some(1)))];
    assert ls[..1][..0] == [];
    assert Matching(ls[..1], Unbounded, None) == [Event(kind, Some(1))];
    var m := Matching(ls, Unbounded, None);
    assert m == [Event(kind, Some(1)), Event(kind, None)];
    NewestAt(m, 0);
    assert NewestFirst(m)[..1] == [NewestFirst(m)[0]];
  }

  /** What matches: the entries of a kind that begins with the prefix and, if there is a boundary, with a
      time strictly before it. */
  lemma {:induction false} MatchingIff(ls: seq<Line>, before: Boundary, prefix: Option<string>, e: Event)
    ensures e in Matching(ls, before, prefix) <==>
              && Entry(e) in ls
              && (prefix.Some? ==> |prefix.value| <= |e.kind| && e.kind[..|prefix.value|] == prefix.value)
              && (before.Before? ==> e.at.Some? && e.at.value < before.t)
  {
    if ls != [] {
      var n := |ls| - 1;
      MatchingIff(ls[..n], before, prefix, e);
      assert Entry(e) in ls <==> Entry(e) in ls[..n] || ls[n] == Entry(e);
    }
  }

  /** In the order of the file. */
  lemma {:induction false} MatchingInOrder(a: seq<Line>, b: seq<Line>, before: Boundary, prefix: Option<string>)
    ensures Matching(a + b, before, prefix) == Matching(a, before, prefix) + Matching(b, before, prefix)
  {
    if b == [] {
      assert a + b == a;
    } else {
      var n := |b| - 1;
      assert (a + b)[..|a + b| - 1] == a + b[..n];
      MatchingInOrder(a, b[..n], before, prefix);
      Associative(Matching(a, before, prefix), Matching(b[..n], before, prefix),
                  if Matches(b[n], before, prefix) then [b[n].event] else []);
    }
  }
}
