/** Rotation of the audit log (`write_audit_event` and `rotate_audit_log` in
    crates/host-core/src/audit.rs). */
module AuditRotation {
  import opened Basics

  /** An event, by the size of its line with the newline, and whatever else it says. */
  datatype Event = Event(size: nat, text: string)

  type Log = seq<Event>

  /** The directory: `audit.log` is number 0, `audit.log.n` is number n. */
  type Files = map<nat, Log>

  const MAX_BYTES: nat := 5 * 1024 * 1024
  const MAX_ARCHIVES: nat := 5

  function Size(l: Log): nat {
    if l == [] then 0 else Size(l[..|l| - 1]) + l[|l| - 1].size
  }

  predicate Valid(f: Files) {
    forall n <- f :: n <= MAX_ARCHIVES
  }

  predicate MovesTo(f: Files, n: nat) {
    1 <= n <= MAX_ARCHIVES && n - 1 in f
  }

  /** What a rotation comes to: every file moves up by one, and the highest archive goes. */
  function Rotated(f: Files): Files {
    map n: nat | n <= MAX_ARCHIVES && MovesTo(f, n) :: f[n - 1]
  }

  predicate Full(f: Files) {
    0 in f && Size(f[0]) >= MAX_BYTES
  }

  function Written(f: Files, e: Event): Files {
    var g := if Full(f) then Rotated(f) else f;
    g[0 := (if 0 in g then g[0] else []) + [e]]
  }

  /** The shift has dealt with the files from number n on. */
  ghost predicate HalfWay(was: Files, f: Files, n: nat) {
    && (forall k :: k in f ==> k <= MAX_ARCHIVES && k != n)
    && (forall k :: k < n ==> (k in f <==> k in was) && (k in f ==> f[k] == was[k]))
    && (forall k :: n < k <= MAX_ARCHIVES ==> (k in f <==> MovesTo(was, k)) && (k in f ==> f[k] == was[k - 1]))
  }

  lemma HalfWayStep(was: Files, f: Files, n: nat)
    requires n < MAX_ARCHIVES && HalfWay(was, f, n + 1)
    ensures HalfWay(was, if n in f then (f - {n})[n + 1 := f[n]] else f, n)
  {
  }

  lemma HalfWayToEnd(was: Files, f: Files)
    requires Valid(was) && HalfWay(was, f, 0)
    ensures f == Rotated(was)
  {
  }

  class AuditDir {
    var files: Files

    constructor ()
      ensures files == map[]
    {
      files := map[];
    }

    /** A rename that succeeds. Renaming onto a file would destroy it: no caller does. */
    method Rename(src: nat, dst: nat)
      requires src in files && dst !in files
      modifies this
      ensures files == (old(files) - {src})[dst := old(files)[src]]
    {
      var moved := files[src];
      files := files - {src};
      files := files[dst := moved];
    }

    method RotateAuditLog()
      requires Valid(files) && 0 in files
      modifies this
      ensures files == Rotated(old(files))
    {
      ghost var was := files;
      if MAX_ARCHIVES in files {
        files := files - {MAX_ARCHIVES};
      }
      for n := MAX_ARCHIVES downto 1
        invariant HalfWay(was, files, n)
      {
        HalfWayStep(was, files, n);
        if n in files {
          Rename(n, n + 1);
        }
      }
      Rename(0, 1);
      HalfWayToEnd(was, files);
    }

    method WriteAuditEvent(e: Event)
      requires Valid(files)
      modifies this
      ensures files == Written(old(files), e) && Valid(files)
    {
      if 0 in files {
        if Size(files[0]) >= MAX_BYTES {
          RotateAuditLog();
        }
      }
      files := files[0 := (if 0 in files then files[0] else []) + [e]];
    }
  }

  // ------------------------------------------------------------------- results

  /** The archives from number n down, oldest first. */
  function Archives(f: Files, n: nat): seq<Log> {
    if n == 0 then [] else (if n in f then [f[n]] else []) + Archives(f, n - 1)
  }

  function Current(f: Files): Log {
    if 0 in f then f[0] else []
  }

  /** All that is kept, oldest first. */
  function Window(f: Files): Log {
    Flatten(Archives(f, MAX_ARCHIVES)) + Current(f)
  }

  lemma {:induction false} ArchivesMoveUp(f: Files, n: nat)
    requires n < MAX_ARCHIVES && 0 in f
    ensures Archives(Rotated(f), n + 1) == Archives(f, n) + [f[0]]
  {
    assert n + 1 in Rotated(f) <==> MovesTo(f, n + 1);
    if n > 0 {
      ArchivesMoveUp(f, n - 1);
    }
  }

  lemma {:induction false} LogIsNoArchive(f: Files, n: nat, l: Log)
    ensures Archives(f[0 := l], n) == Archives(f, n)
  {
    if n > 0 {
      LogIsNoArchive(f, n - 1, l);
    }
  }

  /** The file that a write throws away: the highest archive, if the write rotates. */
  function Dropped(f: Files): seq<Log> {
    if Full(f) && MAX_ARCHIVES in f then [f[MAX_ARCHIVES]] else []
  }

  lemma RotationKeepsOrder(f: Files)
    requires 0 in f
    ensures Flatten(if MAX_ARCHIVES in f then [f[MAX_ARCHIVES]] else []) + Window(Rotated(f)) == Window(f)
  {
    var top: seq<Log> := if MAX_ARCHIVES in f then [f[MAX_ARCHIVES]] else [];
    var rest := Archives(f, MAX_ARCHIVES - 1);
    ArchivesMoveUp(f, MAX_ARCHIVES - 1);
    assert Archives(f, MAX_ARCHIVES) == top + rest;
    FlattenAppend(top, rest);
    FlattenAppend(rest, [f[0]]);
    FlattenOne(f[0]);
    assert 0 !in Rotated(f);
    calc {
      Flatten(top) + Window(Rotated(f));
      Flatten(top) + (Flatten(rest) + f[0] + []);
      Flatten(top) + Flatten(rest) + f[0];
      Window(f);
    }
  }

  lemma AppendToWindow(g: Files, e: Event)
    ensures Window(g[0 := Current(g) + [e]]) == Window(g) + [e]
  {
    LogIsNoArchive(g, MAX_ARCHIVES, Current(g) + [e]);
    var front := Flatten(Archives(g, MAX_ARCHIVES));
    assert front + (Current(g) + [e]) == front + Current(g) + [e];
  }

  /** A write adds its event at the end and removes nothing but a whole file at the beginning. */
  lemma WriteKeepsOrder(f: Files, e: Event)
    ensures Flatten(Dropped(f)) + Window(Written(f, e)) == Window(f) + [e]
  {
    var g := if Full(f) then Rotated(f) else f;
    AppendToWindow(g, e);
    var d, w := Flatten(Dropped(f)), Window(g);
    if Full(f) {
      RotationKeepsOrder(f);
    }
    assert d + w == Window(f);
    assert d + (w + [e]) == (d + w) + [e];
  }

  function WrittenAll(f: Files, es: seq<Event>): Files {
    if es == [] then f else Written(WrittenAll(f, es[..|es| - 1]), es[|es| - 1])
  }

  function DroppedAll(f: Files, es: seq<Event>): seq<Log> {
    if es == [] then []
    else DroppedAll(f, es[..|es| - 1]) + Dropped(WrittenAll(f, es[..|es| - 1]))
  }

  /** After any writes, from any directory with any gaps: what was there and all that was written
      equals the dropped files, whole, followed by the kept ones from the oldest archive to the log.
      There are never more than five archives. */
  lemma {:induction false} WindowOnHistory(f: Files, es: seq<Event>)
    requires Valid(f)
    ensures Flatten(DroppedAll(f, es)) + Window(WrittenAll(f, es)) == Window(f) + es
    ensures Valid(WrittenAll(f, es))
  {
    if es == [] {
      assert Window(f) + [] == Window(f);
    } else {
      var n := |es| - 1;
      var g := WrittenAll(f, es[..n]);
      WindowOnHistory(f, es[..n]);
      WriteKeepsOrder(g, es[n]);
      FlattenAppend(DroppedAll(f, es[..n]), Dropped(g));
      Reassociate(Flatten(DroppedAll(f, es[..n])), Flatten(Dropped(g)), Window(Written(g, es[n])), Window(g),
                  Window(f), es);
    }
  }

  lemma Reassociate(a: Log, b: Log, c: Log, before: Log, start: Log, es: Log)
    requires es != [] && b + c == before + [es[|es| - 1]] && a + before == start + es[..|es| - 1]
    ensures (a + b) + c == start + es
  {
    assert (a + b) + c == a + (b + c) == (a + before) + [es[|es| - 1]];
    assert es == es[..|es| - 1] + [es[|es| - 1]];
  }

  /** Archives have no gaps, and each was full when it was put away. */
  ghost predicate Packed(f: Files) {
    && Valid(f)
    && (forall n :: n in f && n > 0 ==> n - 1 in f && Size(f[n]) >= MAX_BYTES)
  }

  /** Starting with an empty directory, something is dropped only when five full archives stay behind. */
  lemma {:induction false} DroppedOnlyWhenFull(es: seq<Event>)
    ensures var f := WrittenAll(map[], es);
            && Packed(f)
            && (forall n :: n in f ==> n <= 5)
            && (DroppedAll(map[], es) != [] ==> forall n :: 1 <= n <= 5 ==> n in f && Size(f[n]) >= MAX_BYTES)
  {
    if es != [] {
      var before := es[..|es| - 1];
      var f := WrittenAll(map[], before);
      DroppedOnlyWhenFull(before);
      PackedStep(f, es[|es| - 1]);
      if DroppedAll(map[], es) != [] {
        FiveStay(f, es[|es| - 1]);
        AllPresent(WrittenAll(map[], es));
      }
    }
  }

  lemma PackedStep(f: Files, e: Event)
    requires Packed(f)
    ensures Packed(Written(f, e))
  {
    if Full(f) {
      var g := Rotated(f);
      forall n | n in g && n > 1 ensures n - 1 in g && Size(g[n]) >= MAX_BYTES {
        assert n - 1 in f && n - 2 in f && MovesTo(f, n - 1);
      }
      assert 1 in g ==> Size(g[1]) >= MAX_BYTES;
    }
  }

  lemma FiveStay(f: Files, e: Event)
    requires Packed(f) && MAX_ARCHIVES in f
    ensures MAX_ARCHIVES in Written(f, e)
  {
    assert MAX_ARCHIVES - 1 in f;
    assert MovesTo(f, MAX_ARCHIVES);
  }

  lemma AllPresent(f: Files)
    requires Packed(f) && MAX_ARCHIVES in f
    ensures forall n :: 1 <= n <= MAX_ARCHIVES ==> n in f && Size(f[n]) >= MAX_BYTES
  {
    assert MAX_ARCHIVES - 1 in f;
    assert MAX_ARCHIVES - 2 in f;
    assert MAX_ARCHIVES - 3 in f;
    assert MAX_ARCHIVES - 4 in f;
  }

  // ------------------------------------------------------------ failing renames

  /** The shift when the renames of the files in `fails` do not succeed: errors are ignored, and a
      later rename replaces whatever is in its way. */
  function RotatedWith(f: Files, fails: set<nat>, n: nat): Files
    decreases n
  {
    var g := if n in f && n !in fails then (f - {n})[n + 1 := f[n]] else f;
    if n == 0 then g else RotatedWith(g, fails, n - 1)
  }

  /** The rename onto number n takes place. */
  predicate Arrives(f: Files, fails: set<nat>, n: nat) {
    1 <= n <= MAX_ARCHIVES && n - 1 in f && n - 1 !in fails
  }

  /** No rename takes the file away from number n; the one with the highest number has none. */
  predicate Stays(f: Files, fails: set<nat>, n: nat) {
    n in f && (n in fails || n >= MAX_ARCHIVES)
  }

  /** The number that the file at number n had before the rotation. */
  function CameFrom(f: Files, fails: set<nat>, n: nat): (m: Option<nat>)
    ensures m.Some? ==> m.value in f
  {
    if Arrives(f, fails, n) then Some(n - 1) else if Stays(f, fails, n) then Some(n) else None
  }

  /** What a number holds in the end. */
  ghost predicate EndsWith(f: Files, fails: set<nat>, g: Files, n: nat) {
    (n in g <==> CameFrom(f, fails, n).Some?) && (n in g ==> g[n] == f[CameFrom(f, fails, n).value])
  }

  /** The renames from number n on have been tried. */
  ghost predicate TriedFrom(f: Files, fails: set<nat>, g: Files, n: nat) {
    && (forall k: nat :: k < n ==> (k in g <==> k in f) && (k in g ==> g[k] == f[k]))
    && (n in g <==> Stays(f, fails, n)) && (n in g ==> g[n] == f[n])
    && (forall k: nat :: k > n ==> EndsWith(f, fails, g, k))
  }

  lemma TryOne(f: Files, fails: set<nat>, g: Files, n: nat)
    requires n < MAX_ARCHIVES && TriedFrom(f, fails, g, n + 1)
    ensures TriedFrom(f, fails, if n in g && n !in fails then (g - {n})[n + 1 := g[n]] else g, n)
  {
    var h := if n in g && n !in fails then (g - {n})[n + 1 := g[n]] else g;
    forall k: nat | k > n ensures EndsWith(f, fails, h, k) {
      assert k > n + 1 ==> EndsWith(f, fails, g, k);
    }
  }

  lemma {:induction false} RotatedWithEnds(f: Files, fails: set<nat>, g: Files, n: nat)
    requires n < MAX_ARCHIVES && TriedFrom(f, fails, g, n + 1)
    ensures TriedFrom(f, fails, RotatedWith(g, fails, n), 0)
    decreases n
  {
    TryOne(f, fails, g, n);
    if n > 0 {
      RotatedWithEnds(f, fails, if n in g && n !in fails then (g - {n})[n + 1 := g[n]] else g, n - 1);
    }
  }

  /** Whatever renames fail, and whether or not the oldest archive could be removed first: the files
      end up as `CameFrom` says, none of them twice. */
  lemma RotationMoves(f: Files, fails: set<nat>, n: nat)
    requires Valid(f)
    ensures EndsWith(f, fails, RotatedWith(f, fails, MAX_ARCHIVES - 1), n)
    ensures forall m: nat :: m != n && CameFrom(f, fails, m).Some? ==> CameFrom(f, fails, m) != CameFrom(f, fails, n)
  {
    assert TriedFrom(f, fails, f, MAX_ARCHIVES) by {
      assert forall n: nat :: n > MAX_ARCHIVES ==> EndsWith(f, fails, f, n);
    }
    RotatedWithEnds(f, fails, f, MAX_ARCHIVES - 1);
  }

  /** So a file is lost exactly when no rename takes it away and the one onto its place succeeds. */
  lemma FileIsLostIff(f: Files, fails: set<nat>, k: nat)
    requires Valid(f) && k in f
    ensures (forall n: nat :: CameFrom(f, fails, n) != Some(k)) <==> Stays(f, fails, k) && Arrives(f, fails, k)
  {
    if k < MAX_ARCHIVES && k !in fails {
      assert CameFrom(f, fails, k + 1) == Some(k);
    } else if !Arrives(f, fails, k) {
      assert CameFrom(f, fails, k) == Some(k);
    }
  }

  /** No file outgrows the limit by more than its last event: each, without that, is smaller than 5 MiB, and
      only files that have reached it are put away. */
  ghost predicate Filled(f: Files) {
    forall n :: n in f ==>
      f[n] != [] && Size(f[n][..|f[n]| - 1]) < 5 * 1024 * 1024 && (n > 0 ==> Size(f[n]) >= 5 * 1024 * 1024)
  }

  lemma {:induction false} FilesStayFilled(es: seq<Event>)
    ensures Filled(WrittenAll(map[], es)) && (es != [] ==> 0 in WrittenAll(map[], es))
  {
    if es != [] {
      FilesStayFilled(es[..|es| - 1]);
      FilledStep(WrittenAll(map[], es[..|es| - 1]), es[|es| - 1]);
    }
  }

  lemma FilledStep(f: Files, e: Event)
    requires Filled(f)
    ensures Filled(Written(f, e))
  {
    var g := if Full(f) then Rotated(f) else f;
    var log := if 0 in g then g[0] else [];
    assert (log + [e])[..|log|] == log;
    assert Size([]) == 0;
    forall n | n in Written(f, e) && n > 0
      ensures var l := Written(f, e)[n]; l != [] && Size(l[..|l| - 1]) < 5 * 1024 * 1024 && Size(l) >= 5 * 1024 * 1024
    {
      if Full(f) {
        assert MovesTo(f, n) && Written(f, e)[n] == f[n - 1];
      }
    }
  }

  /** The size of a log is the sum of its events' sizes. */
  lemma {:induction false} SizeIsSum(a: Log, b: Log)
    ensures Size(a + b) == Size(a) + Size(b)
    ensures |b| == 1 ==> Size(b) == b[0].size
  {
    if b == [] {
      assert a + b == a;
    } else {
      assert (a + b)[..|a + b| - 1] == a + b[..|b| - 1];
      SizeIsSum(a, b[..|b| - 1]);
      assert |b| == 1 ==> b[..0] == [];
    }
  }
}
