/** The bounded tail of a child's stderr (`StderrRing` in crates/host-core/src/agent_session.rs). */
module StderrRing {
  import opened Basics
  import opened Utf8

  /** `STDERR_RING_BYTES`. */
  const MAX: nat := 4096

  const NEWLINE: Byte := 10

  /** The first boundary at or after `i`. */
  function NextBoundary(s: seq<Byte>, i: nat): (k: nat)
    requires i <= |s|
    ensures i <= k <= |s| && Boundary(s, k)
    ensures forall j :: i <= j < k ==> !Boundary(s, j)
    decreases |s| - i
  {
    if Boundary(s, i) then i else NextBoundary(s, i + 1)
  }

  /** Trimming a whole log once. */
  function Tail(log: seq<Byte>): seq<Byte> {
    if |log| <= MAX then log else log[NextBoundary(log, |log| - MAX)..]
  }

  class Ring {
    var buf: seq<Byte>

    constructor ()
      ensures buf == []
    {
      buf := [];
    }

    method Append(line: seq<Byte>)
      modifies this
      ensures buf == Tail(old(buf) + line + [NEWLINE])
    {
      buf := buf + line;
      buf := buf + [NEWLINE];
      if |buf| > MAX {
        var drop := |buf| - MAX;
        var idx := drop;
        while !Boundary(buf, idx) && idx < |buf|
          invariant drop <= idx <= |buf|
          invariant NextBoundary(buf, drop) == NextBoundary(buf, idx)
        {
          idx := idx + 1;
        }
        buf := buf[idx..];
      }
    }

    method Snapshot() returns (s: seq<Byte>)
      ensures s == buf
    {
      s := buf;
    }
  }

  /** Everything the child has ever written, line by line. */
  function History(lines: seq<seq<Byte>>): seq<Byte> {
    if lines == [] then [] else History(lines[..|lines| - 1]) + lines[|lines| - 1] + [NEWLINE]
  }

  /** The ring's content after these appends, by `Append`'s contract. */
  function RingAfter(lines: seq<seq<Byte>>): seq<Byte> {
    if lines == [] then [] else Tail(RingAfter(lines[..|lines| - 1]) + lines[|lines| - 1] + [NEWLINE])
  }

  lemma BoundaryIsFirst(s: seq<Byte>, from: nat, k: nat)
    requires from <= k <= |s| && Boundary(s, k) && forall j :: from <= j < k ==> !Boundary(s, j)
    ensures NextBoundary(s, from) == k
  {
  }

  /** Cutting at a boundary first changes no later cut. */
  lemma CutAgain(all: seq<Byte>, k: nat, from: nat)
    requires k <= |all| && Boundary(all, k) && from <= |all| && k < |all|
    requires forall j :: from <= j < k ==> !Boundary(all, j)
    ensures k <= from ==> NextBoundary(all, from) == k + NextBoundary(all[k..], from - k)
    ensures k > from ==> NextBoundary(all, from) == k
  {
    if k <= from {
      var m := NextBoundary(all[k..], from - k);
      forall j | from <= j <= |all| ensures Boundary(all, j) <==> Boundary(all[k..], j - k) {
      }
      BoundaryIsFirst(all, from, k + m);
    } else {
      BoundaryIsFirst(all, from, k);
    }
  }

  /** Only whole text is appended, so it starts on a boundary wherever it is appended. */
  lemma TailOfTail(log: seq<Byte>, more: seq<Byte>)
    requires more != [] && !IsCont(more[0])
    ensures Tail(Tail(log) + more) == Tail(log + more)
  {
    if |log| > MAX {
      var all, k, from := log + more, NextBoundary(log, |log| - MAX), |log| + |more| - MAX;
      var kept := all[k..];
      assert log[k..] + more == kept;
      assert Boundary(all, k);
      forall j | from <= j < k ensures !Boundary(all, j) {
        assert !Boundary(log, j);
      }
      CutAgain(all, k, from);
      if from <= k {
        assert Tail(kept) == kept && Tail(all) == all[k..];
      } else {
        SplitRest(all, k, NextBoundary(kept, from - k));
      }
    }
  }

  lemma {:induction false} HistoryValid(lines: seq<seq<Byte>>)
    requires forall l <- lines :: Valid(l)
    ensures Valid(History(lines))
  {
    if lines != [] {
      var l := lines[|lines| - 1];
      HistoryValid(lines[..|lines| - 1]);
      ConcatValid(History(lines[..|lines| - 1]), l);
      assert Valid([NEWLINE]);
      ConcatValid(History(lines[..|lines| - 1]) + l, [NEWLINE]);
    }
  }

  /** Trimming after every line is the same as trimming the unbounded log once. */
  lemma {:induction false} RingIsTailOfHistory(lines: seq<seq<Byte>>)
    requires forall l <- lines :: Valid(l)
    ensures RingAfter(lines) == Tail(History(lines))
  {
    if lines != [] {
      var before, l := lines[..|lines| - 1], lines[|lines| - 1];
      RingIsTailOfHistory(before);
      var more := l + [NEWLINE];
      assert Valid(l);
      assert more[0] == if l == [] then NEWLINE else l[0];
      TailOfTail(History(before), more);
      assert Tail(History(before)) + l + [NEWLINE] == Tail(History(before)) + more;
      assert History(before) + l + [NEWLINE] == History(before) + more;
    }
  }

  /** The ring is the longest suffix of the history that fits and starts on a character: nothing
      longer qualifies, it is valid text, and it falls short of the limit by three bytes at most. */
  lemma RingIsLongestSuffix(lines: seq<seq<Byte>>) returns (k: nat)
    requires forall l <- lines :: Valid(l)
    ensures var h := History(lines);
            && k <= |h| && RingAfter(lines) == h[k..] && |h| - k <= 4096 && Boundary(h, k)
            && (forall j: nat :: j < k && Boundary(h, j) ==> |h| - j > 4096)
            && Valid(RingAfter(lines))
            && (|h| >= 4096 ==> |RingAfter(lines)| >= 4093)
  {
    var h := History(lines);
    RingIsTailOfHistory(lines);
    HistoryValid(lines);
    if |h| <= MAX {
      k := 0;
      Whole(h);
    } else {
      k := NextBoundary(h, |h| - MAX);
      SuffixValid(h, k);
      var j := BoundaryNear(h, |h| - MAX);
    }
  }
}
