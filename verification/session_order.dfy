/** The two orders on session files (crates/host-core/src/coding_sessions.rs): the one the listing is
    sorted by, which compares paths component by component, and the one a cursor is compared by,
    which compares them as text. Paths are absolute and valid UTF-8; the byte order of UTF-8 text is
    the order of its characters. */
module SessionOrder {
  import opened Basics

  datatype Source = Claude | Codex

  /** `path` lists the components of the absolute file path. */
  datatype Candidate = Candidate(mtime: int, source: Source, path: seq<string>)

  /** `PageCursor`; its JSON form is taken to be an injective encoding. */
  datatype Cursor = Cursor(mtime: int, source: Source, file: string)

  /** No component is empty or contains a slash. */
  predicate PathOk(path: seq<string>) {
    forall i :: 0 <= i < |path| ==> |path[i]| > 0 && '/' !in path[i]
  }

  function Render(path: seq<string>): string {
    if path == [] then "" else "/" + path[0] + Render(path[1..])
  }

  function Key(c: Candidate): Cursor {
    Cursor(c.mtime, c.source, Render(c.path))
  }

  // -------------------------------------------------------------------- orders

  predicate TextLess(a: string, b: string) {
    if b == [] then false
    else if a == [] then true
    else a[0] < b[0] || (a[0] == b[0] && TextLess(a[1..], b[1..]))
  }

  /** `PathBuf::cmp`. */
  predicate PathLess(p: seq<string>, q: seq<string>) {
    if q == [] then false
    else if p == [] then true
    else TextLess(p[0], q[0]) || (p[0] == q[0] && PathLess(p[1..], q[1..]))
  }

  predicate SourceLess(s: Source, t: Source) {
    s.Claude? && t.Codex?
  }

  /** `compare_candidates(a, b)` is `Less`. */
  predicate SortsBefore(a: Candidate, b: Candidate) {
    if a.mtime != b.mtime then a.mtime > b.mtime
    else if a.source != b.source then SourceLess(a.source, b.source)
    else PathLess(a.path, b.path)
  }

  predicate KeyLess(k: Cursor, l: Cursor) {
    if k.mtime != l.mtime then k.mtime > l.mtime
    else if k.source != l.source then SourceLess(k.source, l.source)
    else TextLess(k.file, l.file)
  }

  /** `is_after_cursor`. */
  predicate IsAfter(c: Candidate, cursor: Option<Cursor>) {
    if cursor.None? then true
    else if c.mtime != cursor.value.mtime then c.mtime < cursor.value.mtime
    else if c.source != cursor.value.source then SourceLess(cursor.value.source, c.source)
    else TextLess(cursor.value.file, Render(c.path))
  }

  lemma IsAfterKey(c: Candidate, k: Cursor)
    ensures IsAfter(c, Some(k)) <==> KeyLess(k, Key(c))
  {
  }

  lemma {:induction false} TextLessTransitive(a: string, b: string, c: string)
    requires TextLess(a, b) && TextLess(b, c)
    ensures TextLess(a, c)
  {
    if a != [] && a[0] == b[0] && b[0] == c[0] {
      TextLessTransitive(a[1..], b[1..], c[1..]);
    }
  }

  lemma {:induction false} TextLessTotal(a: string, b: string)
    ensures (TextLess(a, b) || TextLess(b, a)) <==> a != b
    ensures !(TextLess(a, b) && TextLess(b, a))
  {
    if a != [] && b != [] && a[0] == b[0] {
      TextLessTotal(a[1..], b[1..]);
      assert a == [a[0]] + a[1..] && b == [b[0]] + b[1..];
    }
  }

  lemma KeyLessTransitive(k: Cursor, l: Cursor, m: Cursor)
    requires KeyLess(k, l) && KeyLess(l, m)
    ensures KeyLess(k, m)
  {
    if k.mtime == m.mtime && k.source == m.source {
      TextLessTransitive(k.file, l.file, m.file);
    }
  }

  lemma KeyLessTotal(k: Cursor, l: Cursor)
    ensures (KeyLess(k, l) || KeyLess(l, k)) <==> k != l
    ensures !(KeyLess(k, l) && KeyLess(l, k))
  {
    TextLessTotal(k.file, l.file);
  }

  // -------------------------------------------------------- when they disagree

  predicate ProperPrefix(a: string, b: string) {
    |a| < |b| && b[..|a|] == a
  }

  /** In the first components that differ, `p`'s is a proper prefix of `q`'s, more components of `p`
      follow, and the character after the common part sorts before the slash, as '-' and '.' do. */
  predicate Clash(p: seq<string>, q: seq<string>) {
    && p != [] && q != []
    && (if p[0] == q[0] then Clash(p[1..], q[1..])
        else ProperPrefix(p[0], q[0]) && |p| > 1 && q[0][|p[0]|] < '/')
  }

  lemma {:induction false} TextLessCommon(s: string, a: string, b: string)
    ensures TextLess(s + a, s + b) <==> TextLess(a, b)
  {
    if s == [] {
      assert s + a == a && s + b == b;
    } else {
      assert (s + a)[1..] == s[1..] + a && (s + b)[1..] == s[1..] + b;
      TextLessCommon(s[1..], a, b);
    }
  }

  lemma TailPrefix(a: string, b: string)
    requires a != [] && b != [] && a[0] == b[0]
    ensures ProperPrefix(a, b) <==> ProperPrefix(a[1..], b[1..])
  {
    if ProperPrefix(a[1..], b[1..]) {
      assert b[..|a|] == [b[0]] + b[1..][..|a| - 1] == [a[0]] + a[1..] == a;
    }
    if ProperPrefix(a, b) {
      assert b[1..][..|a| - 1] == b[..|a|][1..];
    }
  }

  /** The first difference decides, if neither text is a prefix of the other. */
  lemma {:induction false} TextLessFork(a: string, b: string, x: string, y: string)
    requires a != b && !ProperPrefix(a, b) && !ProperPrefix(b, a)
    ensures TextLess(a + x, b + y) <==> TextLess(a, b)
  {
    if a != [] && b != [] && a[0] == b[0] {
      assert (a + x)[1..] == a[1..] + x && (b + y)[1..] == b[1..] + y;
      assert a == [a[0]] + a[1..] && b == [b[0]] + b[1..];
      TailPrefix(a, b);
      TailPrefix(b, a);
      TextLessFork(a[1..], b[1..], x, y);
    }
  }

  lemma {:induction false} PrefixLess(a: string, b: string)
    requires ProperPrefix(a, b)
    ensures TextLess(a, b) && !TextLess(b, a)
  {
    if a != [] {
      assert b[0] == b[..|a|][0];
      assert b[1..][..|a| - 1] == b[..|a|][1..];
      PrefixLess(a[1..], b[1..]);
    }
  }

  /** Where `p` sorts before `q` by components, it does so as text exactly when they do not clash. */
  lemma {:induction false} PathLessAsText(p: seq<string>, q: seq<string>)
    requires PathOk(p) && PathOk(q) && PathLess(p, q)
    ensures TextLess(Render(p), Render(q)) <==> !Clash(p, q)
  {
    if p != [] {
      var x, y := Render(p[1..]), Render(q[1..]);
      assert Render(p) == "/" + (p[0] + x) && Render(q) == "/" + (q[0] + y);
      TextLessCommon("/", p[0] + x, q[0] + y);
      if p[0] == q[0] {
        TextLessTotal(p[0], q[0]);
        TextLessCommon(p[0], x, y);
        PathLessAsText(p[1..], q[1..]);
      } else if ProperPrefix(p[0], q[0]) {
        var z := q[0][|p[0]|..];
        assert q[0] + y == p[0] + (z + y);
        TextLessCommon(p[0], x, z + y);
        assert z[0] == q[0][|p[0]|] && (z + y)[0] == z[0];
      } else {
        if ProperPrefix(q[0], p[0]) {
          PrefixLess(q[0], p[0]);
          assert false;
        }
        TextLessFork(p[0], q[0], x, y);
      }
    }
  }

  // ------------------------------------------------------------------ listings

  ghost predicate AllOk(l: seq<Candidate>) {
    forall i :: 0 <= i < |l| ==> PathOk(l[i].path)
  }

  /** Sorted by `compare_candidates`; no two files are the same. */
  ghost predicate SortedByPath(l: seq<Candidate>) {
    forall i, j :: 0 <= i < j < |l| ==> SortsBefore(l[i], l[j])
  }

  ghost predicate SortedByKey(l: seq<Candidate>) {
    forall i, j :: 0 <= i < j < |l| ==> KeyLess(Key(l[i]), Key(l[j]))
  }

  predicate Tied(a: Candidate, b: Candidate) {
    a.mtime == b.mtime && a.source == b.source
  }

  /** No two files with the same time and source clash. */
  ghost predicate NoClash(l: seq<Candidate>) {
    forall i, j :: 0 <= i < j < |l| && Tied(l[i], l[j]) ==> !Clash(l[i].path, l[j].path)
  }

  /** The sorted listing is in cursor order exactly when no tied paths clash. */
  lemma SortedByKeyIff(l: seq<Candidate>)
    requires AllOk(l) && SortedByPath(l)
    ensures SortedByKey(l) <==> NoClash(l)
  {
    forall i, j | 0 <= i < j < |l|
      ensures KeyLess(Key(l[i]), Key(l[j])) <==> !(Tied(l[i], l[j]) && Clash(l[i].path, l[j].path))
    {
      assert SortsBefore(l[i], l[j]);
      if Tied(l[i], l[j]) {
        PathLessAsText(l[i].path, l[j].path);
      }
    }
  }

  /** Newest first, and at equal times Claude's sessions before Codex's. */
  lemma ListingIsNewestFirst(l: seq<Candidate>, i: nat, j: nat)
    requires SortedByPath(l) && i < j < |l|
    ensures l[i].mtime >= l[j].mtime && (l[i].mtime == l[j].mtime ==> l[i].source == l[j].source || l[i].source == Claude)
  {
    assert SortsBefore(l[i], l[j]);
  }

  /** The texts agree up to `k`, and there the first one ends or has the smaller character. */
  predicate DiffersAt(a: string, b: string, k: nat) {
    k <= |a| && k < |b| && a[..k] == b[..k] && (k == |a| || a[k] < b[k])
  }

  /** Text order is lexicographic. */
  lemma {:induction false} TextLessIff(a: string, b: string)
    ensures TextLess(a, b) <==> exists k: nat :: DiffersAt(a, b, k)
  {
    if a != [] && b != [] && a[0] == b[0] {
      TextLessIff(a[1..], b[1..]);
      forall k: nat ensures DiffersAt(a[1..], b[1..], k) <==> DiffersAt(a, b, k + 1) {
        TailsDiffer(a, b, k);
      }
      if k: nat :| DiffersAt(a, b, k) {
        assert k > 0 && DiffersAt(a[1..], b[1..], k - 1);
      }
      if k: nat :| DiffersAt(a[1..], b[1..], k) {
        assert DiffersAt(a, b, k + 1);
      }
    } else {
      forall k: nat ensures DiffersAt(a, b, k) ==> k == 0 {
        SameFirst(a, b, k);
      }
      if TextLess(a, b) {
        assert DiffersAt(a, b, 0);
      }
    }
  }

  lemma SameFirst(a: string, b: string, k: nat)
    ensures DiffersAt(a, b, k) && k > 0 ==> a != [] && b != [] && a[0] == b[0]
  {
    if DiffersAt(a, b, k) && k > 0 {
      assert a[..k][0] == b[..k][0];
    }
  }

  lemma TailsDiffer(a: string, b: string, k: nat)
    requires a != [] && b != [] && a[0] == b[0]
    ensures DiffersAt(a[1..], b[1..], k) <==> DiffersAt(a, b, k + 1)
  {
    if k + 1 <= |a| && k + 1 <= |b| {
      assert a[..k + 1] == [a[0]] + a[1..][..k] && b[..k + 1] == [b[0]] + b[1..][..k];
      assert a[..k + 1][1..] == a[1..][..k] && b[..k + 1][1..] == b[1..][..k];
    }
  }

  /** The components agree up to the k-th, and there the first path ends or has the smaller one. */
  predicate PathsDifferAt(p: seq<string>, q: seq<string>, k: nat) {
    k <= |p| && k < |q| && p[..k] == q[..k] && (k == |p| || TextLess(p[k], q[k]))
  }

  lemma {:induction false} PathLessIff(p: seq<string>, q: seq<string>)
    ensures PathLess(p, q) <==> exists k: nat :: PathsDifferAt(p, q, k)
  {
    if p != [] && q != [] && p[0] == q[0] {
      PathLessIff(p[1..], q[1..]);
      TextLessTotal(p[0], q[0]);
      forall k: nat ensures PathsDifferAt(p[1..], q[1..], k) <==> PathsDifferAt(p, q, k + 1) {
        PathTailsDiffer(p, q, k);
      }
      if k: nat :| PathsDifferAt(p, q, k) {
        assert k > 0 && PathsDifferAt(p[1..], q[1..], k - 1);
      }
      if k: nat :| PathsDifferAt(p[1..], q[1..], k) {
        assert PathsDifferAt(p, q, k + 1);
      }
    } else {
      forall k: nat ensures PathsDifferAt(p, q, k) ==> k == 0 {
        SameFirstComponent(p, q, k);
      }
      if PathLess(p, q) {
        assert PathsDifferAt(p, q, 0);
      }
    }
  }

  lemma SameFirstComponent(p: seq<string>, q: seq<string>, k: nat)
    ensures PathsDifferAt(p, q, k) && k > 0 ==> p != [] && q != [] && p[0] == q[0]
  {
    if PathsDifferAt(p, q, k) && k > 0 {
      assert p[..k][0] == q[..k][0];
    }
  }

  lemma PathTailsDiffer(p: seq<string>, q: seq<string>, k: nat)
    requires p != [] && q != [] && p[0] == q[0]
    ensures PathsDifferAt(p[1..], q[1..], k) <==> PathsDifferAt(p, q, k + 1)
  {
    if k + 1 <= |p| && k + 1 <= |q| {
      assert p[..k + 1] == [p[0]] + p[1..][..k] && q[..k + 1] == [q[0]] + q[1..][..k];
      assert p[..k + 1][1..] == p[1..][..k] && q[..k + 1][1..] == q[1..][..k];
    }
  }
}
