/** Keyset paging through the session listing (`list_sessions_in_home` in
    crates/host-core/src/coding_sessions.rs). */
module SessionPaging {
  import opened Basics
  import opened SessionOrder

  const DEFAULT_LIMIT: nat := 50
  const MAX_LIMIT: nat := 200

  /** What a limit is clamped to. */
  type Limit = n: nat | 1 <= n <= MAX_LIMIT witness 1

  /** `next` is present exactly when `has_more` is true. */
  datatype Page = Page(candidates: seq<Candidate>, next: Option<Cursor>)

  /** `limit.unwrap_or(DEFAULT_LIMIT).clamp(1, MAX_LIMIT)`. */
  function Clamped(limit: Option<nat>): Limit {
    var n := if limit.Some? then limit.value else DEFAULT_LIMIT;
    if n < 1 then 1 else if n > MAX_LIMIT then MAX_LIMIT else n
  }

  /** The files of a listing that come after the cursor, in listing order. */
  function After(l: seq<Candidate>, cursor: Option<Cursor>): (r: seq<Candidate>)
    ensures |r| <= |l|
  {
    if l == [] then []
    else (if IsAfter(l[0], cursor) then [l[0]] else []) + After(l[1..], cursor)
  }

  /** One page: the first `limit` files after the cursor, and a cursor at the last of them if there are more. */
  function PageOf(l: seq<Candidate>, cursor: Option<Cursor>, limit: nat): Page
    requires limit >= 1
  {
    var rest := After(l, cursor);
    if |rest| > limit then Page(rest[..limit], Some(Key(rest[limit - 1]))) else Page(rest, None)
  }

  /** The sessions shown for some files: those that parse, in order. */
  function Shown<S>(l: seq<Candidate>, parse: Candidate -> Option<S>): seq<S> {
    if l == [] then []
    else
      var last := parse(l[|l| - 1]);
      Shown(l[..|l| - 1], parse) + if last.Some? then [last.value] else []
  }

  /** The listing as the program runs it: filter, take one more than the limit, then parse. */
  method ListSessions<S>(l: seq<Candidate>, cursor: Option<Cursor>, limit: Option<nat>, parse: Candidate -> Option<S>)
    returns (sessions: seq<S>, hasMore: bool, next: Option<Cursor>)
    ensures var page := PageOf(l, cursor, Clamped(limit));
            sessions == Shown(page.candidates, parse) && next == page.next && (hasMore <==> next.Some?)
  {
    var n: nat := Clamped(limit);
    var rest := After(l, cursor);
    var page := if |rest| > n + 1 then rest[..n + 1] else rest;
    hasMore := |page| > n;
    next := if hasMore then Some(Key(page[n - 1])) else None;
    var kept := if |page| > n then page[..n] else page;
    sessions := [];
    for i := 0 to |kept|
      invariant sessions == Shown(kept[..i], parse)
    {
      NextPrefix(kept, i);
      var parsed := parse(kept[i]);
      if parsed.Some? {
        sessions := sessions + [parsed.value];
      }
    }
    Whole(kept);
    assert kept == PageOf(l, cursor, n).candidates by {
      TakeOneMore(rest, n);
    }
  }

  lemma TakeOneMore(rest: seq<Candidate>, n: nat)
    ensures |rest| > n ==> rest[..n + 1][..n] == rest[..n]
  {
  }

  // --------------------------------------------------- following the cursors

  lemma {:induction false} AfterMember(l: seq<Candidate>, cursor: Option<Cursor>, c: Candidate)
    ensures c in After(l, cursor) <==> c in l && IsAfter(c, cursor)
  {
    if l != [] {
      assert c in l <==> c == l[0] || c in l[1..];
      AfterMember(l[1..], cursor, c);
    }
  }

  lemma AfterTransitive(c: Candidate, k: Cursor, cursor: Option<Cursor>)
    requires IsAfter(c, Some(k)) && (cursor.Some? ==> KeyLess(cursor.value, k))
    ensures IsAfter(c, cursor)
  {
    if cursor.Some? {
      IsAfterKey(c, k);
      IsAfterKey(c, cursor.value);
      KeyLessTransitive(cursor.value, k, Key(c));
    }
  }

  /** A cursor at a file that is after the old cursor leaves strictly fewer files. */
  lemma {:induction false} AfterShrinks(l: seq<Candidate>, cursor: Option<Cursor>, c: Candidate)
    requires c in l && IsAfter(c, cursor)
    ensures |After(l, Some(Key(c)))| < |After(l, cursor)|
  {
    IsAfterKey(c, Key(c));
    KeyLessTotal(Key(c), Key(c));
    if cursor.Some? {
      IsAfterKey(c, cursor.value);
    }
    NeverMore(l[1..], cursor, c);
    if IsAfter(l[0], Some(Key(c))) {
      AfterTransitive(l[0], Key(c), cursor);
    }
    if c in l[1..] {
      AfterShrinks(l[1..], cursor, c);
    }
  }

  lemma {:induction false} NeverMore(l: seq<Candidate>, cursor: Option<Cursor>, c: Candidate)
    requires cursor.Some? ==> KeyLess(cursor.value, Key(c))
    ensures |After(l, Some(Key(c)))| <= |After(l, cursor)|
  {
    if l != [] {
      NeverMore(l[1..], cursor, c);
      if IsAfter(l[0], Some(Key(c))) {
        AfterTransitive(l[0], Key(c), cursor);
      }
    }
  }

  lemma NextShrinks(l: seq<Candidate>, cursor: Option<Cursor>, limit: nat)
    requires limit >= 1 && PageOf(l, cursor, limit).next.Some?
    ensures |After(l, PageOf(l, cursor, limit).next)| < |After(l, cursor)|
  {
    var c := After(l, cursor)[limit - 1];
    AfterMember(l, cursor, c);
    AfterShrinks(l, cursor, c);
  }

  /** What all pages from a cursor on show together, over a fixed set of files; the i-th page has limit
      `limits(i)`. The recursion ends on every listing, sorted or not. */
  ghost function Follow(l: seq<Candidate>, cursor: Option<Cursor>, limits: nat -> Limit, i: nat): seq<Candidate>
    decreases |After(l, cursor)|
  {
    var page := PageOf(l, cursor, limits(i));
    if page.next.None? then page.candidates
    else
      NextShrinks(l, cursor, limits(i));
      page.candidates + Follow(l, page.next, limits, i + 1)
  }

  /** In a listing that is in cursor order, a cursor at one of its files leaves exactly what follows it. */
  lemma {:induction false} AfterIsSuffix(l: seq<Candidate>, n: nat)
    requires SortedByKey(l) && 0 < n <= |l|
    ensures After(l, Some(Key(l[n - 1]))) == l[n..]
  {
    IsAfterKey(l[0], Key(l[n - 1]));
    if n == 1 {
      KeyLessTotal(Key(l[0]), Key(l[0]));
      AllAfter(l[1..], Key(l[0]));
    } else {
      assert KeyLess(Key(l[0]), Key(l[n - 1]));
      KeyLessTotal(Key(l[0]), Key(l[n - 1]));
      SplitRest(l, 1, n - 1);
      AfterIsSuffix(l[1..], n - 1);
    }
  }

  lemma {:induction false} AllAfter(l: seq<Candidate>, k: Cursor)
    requires forall i :: 0 <= i < |l| ==> KeyLess(k, Key(l[i]))
    ensures After(l, Some(k)) == l
  {
    if l != [] {
      IsAfterKey(l[0], k);
      AllAfter(l[1..], k);
    }
  }

  lemma {:induction false} AfterNothing(l: seq<Candidate>)
    ensures After(l, None) == l
  {
    if l != [] {
      AfterNothing(l[1..]);
    }
  }

  /** The cursor that stands after the first n files. */
  function CursorAt(l: seq<Candidate>, n: nat): Option<Cursor>
    requires n <= |l|
  {
    if n == 0 then None else Some(Key(l[n - 1]))
  }

  lemma AfterCursorAt(l: seq<Candidate>, n: nat)
    requires SortedByKey(l) && n <= |l|
    ensures After(l, CursorAt(l, n)) == l[n..]
  {
    if n == 0 {
      AfterNothing(l);
      Whole(l);
    } else {
      AfterIsSuffix(l, n);
    }
  }

  /** Every cursor leaves exactly what follows its file. */
  ghost predicate CursorsFit(l: seq<Candidate>) {
    forall n :: 0 <= n <= |l| ==> After(l, CursorAt(l, n)) == l[n..]
  }

  lemma {:induction false} FollowFits(l: seq<Candidate>, n: nat, limits: nat -> Limit, i: nat)
    requires CursorsFit(l) && n <= |l|
    ensures Follow(l, CursorAt(l, n), limits, i) == l[n..]
    decreases |l| - n
  {
    var limit, page := limits(i), PageOf(l, CursorAt(l, n), limits(i));
    assert After(l, CursorAt(l, n)) == l[n..];
    if page.next.Some? {
      SplitRest(l, n, limit);
      assert page.next == CursorAt(l, n + limit);
      FollowFits(l, n + limit, limits, i + 1);
    }
  }

  lemma FollowIsSuffix(l: seq<Candidate>, n: nat, limits: nat -> Limit, i: nat)
    requires SortedByKey(l) && n <= |l|
    ensures Follow(l, CursorAt(l, n), limits, i) == l[n..]
  {
    forall n | 0 <= n <= |l| ensures After(l, CursorAt(l, n)) == l[n..] {
      AfterCursorAt(l, n);
    }
    FollowFits(l, n, limits, i);
  }

  lemma OnPageIsAfter(l: seq<Candidate>, cursor: Option<Cursor>, limit: nat, c: Candidate)
    requires limit >= 1 && c in PageOf(l, cursor, limit).candidates
    ensures IsAfter(c, cursor)
  {
    assert c in After(l, cursor);
    AfterMember(l, cursor, c);
  }

  lemma {:induction false} FollowStaysAfter(l: seq<Candidate>, cursor: Option<Cursor>, limits: nat -> Limit, i: nat,
                                           c: Candidate)
    requires c in Follow(l, cursor, limits, i)
    ensures IsAfter(c, cursor)
    decreases |After(l, cursor)|
  {
    var page := PageOf(l, cursor, limits(i));
    if c in page.candidates {
      OnPageIsAfter(l, cursor, limits(i), c);
    } else {
      NextShrinks(l, cursor, limits(i));
      FollowStaysAfter(l, page.next, limits, i + 1, c);
      NextIsLater(l, cursor, limits(i), c);
    }
  }

  lemma NextIsLater(l: seq<Candidate>, cursor: Option<Cursor>, limit: nat, c: Candidate)
    requires limit >= 1 && PageOf(l, cursor, limit).next.Some? && IsAfter(c, PageOf(l, cursor, limit).next)
    ensures IsAfter(c, cursor)
  {
    var last := After(l, cursor)[limit - 1];
    AfterMember(l, cursor, last);
    if cursor.Some? {
      IsAfterKey(last, cursor.value);
    }
    AfterTransitive(c, Key(last), cursor);
  }

  /** Once a page ends at a file, no later page shows one that does not come after it by key. */
  lemma SkipsWhenUnordered(l: seq<Candidate>, cursor: Option<Cursor>, limits: nat -> Limit, i: nat, k: Cursor, c: Candidate)
    requires PageOf(l, cursor, limits(i)).next == Some(k) && !KeyLess(k, Key(c))
    ensures c !in Follow(l, Some(k), limits, i + 1)
  {
    IsAfterKey(c, k);
    if c in Follow(l, Some(k), limits, i + 1) {
      FollowStaysAfter(l, Some(k), limits, i + 1, c);
    }
  }

  /** Pages of one file each are in cursor order, whatever the order of the listing. */
  lemma {:induction false} SinglesAreSorted(l: seq<Candidate>, cursor: Option<Cursor>, limits: nat -> Limit, i: nat)
    requires forall n :: limits(n) == 1
    ensures SortedByKey(Follow(l, cursor, limits, i))
    decreases |After(l, cursor)|
  {
    var page := PageOf(l, cursor, 1);
    if page.next.Some? {
      var c := After(l, cursor)[0];
      NextShrinks(l, cursor, 1);
      SinglesAreSorted(l, page.next, limits, i + 1);
      var rest := Follow(l, page.next, limits, i + 1);
      forall d | d in rest ensures KeyLess(Key(c), Key(d)) {
        FollowStaysAfter(l, page.next, limits, i + 1, d);
        IsAfterKey(d, Key(c));
      }
      SortedCons(c, rest);
    }
  }

  lemma SortedCons(c: Candidate, rest: seq<Candidate>)
    requires SortedByKey(rest) && forall d <- rest :: KeyLess(Key(c), Key(d))
    ensures SortedByKey([c] + rest)
  {
  }

  /** All the pages together are the listing. */
  ghost predicate PagesAreExact(l: seq<Candidate>, limits: nat -> Limit) {
    Follow(l, None, limits, 0) == l
  }

  /** Over a fixed, sorted set of files the pages together are the listing, whatever limits are asked
      for, exactly when no two files of equal time and source have clashing paths. */
  lemma PagingIsExactIff(l: seq<Candidate>)
    requires AllOk(l) && SortedByPath(l)
    ensures (forall limits: nat -> Limit :: PagesAreExact(l, limits)) <==> NoClash(l)
  {
    SortedByKeyIff(l);
    if SortedByKey(l) {
      forall limits: nat -> Limit ensures PagesAreExact(l, limits) {
        FollowIsSuffix(l, 0, limits, 0);
        Whole(l);
      }
    } else {
      var limits: nat -> Limit := n => 1;
      SinglesAreSorted(l, None, limits, 0);
      assert !PagesAreExact(l, limits);
    }
  }

  /** Two files that do clash: "/work-a/x" comes first in the listing, "/work-a-b/x" is first as text. */
  lemma ClashingDirectories() returns (p: seq<string>, q: seq<string>)
    ensures p == ["work-a", "x"] && q == ["work-a-b", "x"]
    ensures PathOk(p) && PathOk(q) && PathLess(p, q) && Clash(p, q)
  {
    p, q := ["work-a", "x"], ["work-a-b", "x"];
    PrefixLess("work-a", "work-a-b");
  }

  // ---------------------------------------------- while files come and go

  /** A client that follows `next_cursor` to the end; each page is cut from the files there at that time. */
  ghost predicate Browse(snaps: seq<seq<Candidate>>, cursors: seq<Option<Cursor>>, limits: seq<nat>) {
    && |snaps| == |cursors| == |limits| > 0 && cursors[0].None?
    && (forall i :: 0 <= i < |snaps| ==> limits[i] >= 1 && SortedByKey(snaps[i]))
    && (forall i :: 0 < i < |snaps| ==>
          cursors[i] == PageOf(snaps[i - 1], cursors[i - 1], limits[i - 1]).next && cursors[i].Some?)
    && PageOf(snaps[|snaps| - 1], cursors[|snaps| - 1], limits[|snaps| - 1]).next.None?
  }

  lemma {:induction false} AfterSorted(l: seq<Candidate>, cursor: Option<Cursor>)
    requires SortedByKey(l)
    ensures SortedByKey(After(l, cursor))
  {
    if l != [] {
      AfterSorted(l[1..], cursor);
      forall c | c in After(l[1..], cursor) ensures KeyLess(Key(l[0]), Key(c)) {
        AfterMember(l[1..], cursor, c);
        var i :| 0 <= i < |l[1..]| && l[1..][i] == c;
        assert l[i + 1] == c;
      }
    }
  }

  /** A page holds exactly the files between its cursor and the next one. */
  lemma PageIsInterval(l: seq<Candidate>, cursor: Option<Cursor>, limit: nat, c: Candidate)
    requires SortedByKey(l) && limit >= 1
    ensures var page := PageOf(l, cursor, limit);
            && SortedByKey(page.candidates)
            && (page.next.Some? && cursor.Some? ==> KeyLess(cursor.value, page.next.value))
            && (c in page.candidates <==>
                  c in l && IsAfter(c, cursor) && (page.next.Some? ==> !KeyLess(page.next.value, Key(c))))
  {
    var rest, page := After(l, cursor), PageOf(l, cursor, limit);
    AfterSorted(l, cursor);
    AfterMember(l, cursor, c);
    if page.next.Some? {
      var last := rest[limit - 1];
      AfterMember(l, cursor, last);
      if cursor.Some? {
        IsAfterKey(last, cursor.value);
      }
      if c in rest {
        var m :| 0 <= m < |rest| && rest[m] == c;
        KeyLessTotal(Key(c), Key(last));
        assert m < limit - 1 ==> KeyLess(Key(rest[m]), Key(rest[limit - 1]));
        assert m >= limit ==> KeyLess(Key(rest[limit - 1]), Key(rest[m]));
        if c in page.candidates {
          var n :| 0 <= n < limit && rest[n] == c;
          assert n < limit - 1 ==> KeyLess(Key(rest[n]), Key(rest[limit - 1]));
        }
      }
    }
  }

  lemma {:induction false} CursorsIncrease(snaps: seq<seq<Candidate>>, cursors: seq<Option<Cursor>>, limits: seq<nat>,
                                          i: nat, k: nat, c: Candidate)
    requires Browse(snaps, cursors, limits) && i < k < |snaps|
    requires c in PageOf(snaps[i], cursors[i], limits[i]).candidates
    ensures !KeyLess(cursors[k].value, Key(c))
    decreases k
  {
    PageIsInterval(snaps[i], cursors[i], limits[i], c);
    if i + 1 < k {
      CursorsIncrease(snaps, cursors, limits, i, k - 1, c);
      PageIsInterval(snaps[k - 1], cursors[k - 1], limits[k - 1], c);
      if KeyLess(cursors[k].value, Key(c)) {
        KeyLessTransitive(cursors[k - 1].value, cursors[k].value, Key(c));
      }
    }
  }

  /** Pages are in order among themselves and inside, so no file is shown twice, however the set of
      files changes between the pages. */
  lemma PagesAreInOrder(snaps: seq<seq<Candidate>>, cursors: seq<Option<Cursor>>, limits: seq<nat>,
                        i: nat, k: nat, c: Candidate, d: Candidate)
    requires Browse(snaps, cursors, limits) && i < k < |snaps|
    requires c in PageOf(snaps[i], cursors[i], limits[i]).candidates
    requires d in PageOf(snaps[k], cursors[k], limits[k]).candidates
    ensures KeyLess(Key(c), Key(d)) && SortedByKey(PageOf(snaps[i], cursors[i], limits[i]).candidates)
  {
    CursorsIncrease(snaps, cursors, limits, i, k, c);
    PageIsInterval(snaps[i], cursors[i], limits[i], c);
    PageIsInterval(snaps[k], cursors[k], limits[k], d);
    IsAfterKey(d, cursors[k].value);
    KeyLessTotal(cursors[k].value, Key(c));
    if cursors[k].value != Key(c) {
      KeyLessTransitive(Key(c), cursors[k].value, Key(d));
    }
  }

  lemma {:induction false} ReachedLater(snaps: seq<seq<Candidate>>, cursors: seq<Option<Cursor>>, limits: seq<nat>,
                                       i: nat, c: Candidate)
    returns (k: nat)
    requires Browse(snaps, cursors, limits) && i < |snaps|
    requires (forall n :: 0 <= n < |snaps| ==> c in snaps[n]) && IsAfter(c, cursors[i])
    ensures i <= k < |snaps| && c in PageOf(snaps[k], cursors[k], limits[k]).candidates
    decreases |snaps| - i
  {
    PageIsInterval(snaps[i], cursors[i], limits[i], c);
    if c in PageOf(snaps[i], cursors[i], limits[i]).candidates {
      return i;
    }
    IsAfterKey(c, PageOf(snaps[i], cursors[i], limits[i]).next.value);
    k := ReachedLater(snaps, cursors, limits, i + 1, c);
  }

  /** A file that is there, unchanged, in every snapshot appears on exactly one page. */
  lemma StableFileOnExactlyOnePage(snaps: seq<seq<Candidate>>, cursors: seq<Option<Cursor>>, limits: seq<nat>,
                                   c: Candidate)
    requires Browse(snaps, cursors, limits) && forall n :: 0 <= n < |snaps| ==> c in snaps[n]
    ensures exists k ::
              && 0 <= k < |snaps| && c in PageOf(snaps[k], cursors[k], limits[k]).candidates
              && forall i :: 0 <= i < |snaps| && i != k ==> c !in PageOf(snaps[i], cursors[i], limits[i]).candidates
  {
    var k := ReachedLater(snaps, cursors, limits, 0, c);
    forall i | 0 <= i < |snaps| && i != k ensures c !in PageOf(snaps[i], cursors[i], limits[i]).candidates {
      if c in PageOf(snaps[i], cursors[i], limits[i]).candidates {
        PagesAreInOrder(snaps, cursors, limits, if i < k then i else k, if i < k then k else i, c, c);
        KeyLessTotal(Key(c), Key(c));
      }
    }
  }

  /** A limit that is asked for becomes the nearest one that is allowed; without one it is 50. */
  lemma ClampedIsNearest(limit: nat, other: nat)
    requires 1 <= other <= 200
    ensures var n := Clamped(Some(limit));
            1 <= n <= 200 && (if n <= limit then limit - n else n - limit) <= (if other <= limit then limit - other else other - limit)
    ensures Clamped(None) == 50
  {
  }

  /** What is shown: every session that some file parses to, and none else. */
  lemma {:induction false} ShownMember<S>(l: seq<Candidate>, parse: Candidate -> Option<S>, x: S)
    ensures x in Shown(l, parse) <==> exists c :: c in l && parse(c) == Some(x)
  {
    if l != [] {
      var n := |l| - 1;
      ShownMember(l[..n], parse, x);
      assert forall c :: c in l <==> c in l[..n] || c == l[n];
    }
  }
}
