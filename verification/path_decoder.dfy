/** Decoding of Claude's project directory names (`decode_claude_project_dir` and
    `resolve_existing_encoded_path` in crates/host-core/src/coding_sessions.rs). A name is a path with
    its separators replaced by dashes, so only the file system can tell which dashes were separators. */
module PathDecoder {
  import opened Basics
  import opened Utf8

  type Text = seq<Byte>

  /** A path below the root, by its components. */
  type Path = seq<Text>

  const DASH: Byte := 45
  const SLASH: Byte := 47
  const COLON: Byte := 58

  // ------------------------------------------------------------ backtracking

  function Join(parts: seq<Text>): Text {
    if parts == [] then [] else if |parts| == 1 then parts[0] else parts[0] + [DASH] + Join(parts[1..])
  }

  /** `resolve_existing_encoded_path`. */
  function Resolve(fs: set<Path>, base: Path, parts: seq<Text>): Option<Path>
    decreases |parts|, |parts| + 2
  {
    if parts == [] then (if base in fs then Some(base) else None) else TryFrom(fs, base, parts, 1)
  }

  /** Its loop, from the candidate that takes `end` parts into the next component. */
  function TryFrom(fs: set<Path>, base: Path, parts: seq<Text>, end: nat): Option<Path>
    requires 1 <= end <= |parts| + 1
    decreases |parts|, |parts| + 1 - end
  {
    if end > |parts| then None
    else
      var candidate := base + [Join(parts[..end])];
      var resolved := if candidate in fs then Resolve(fs, candidate, parts[end..]) else None;
      if resolved.Some? then resolved else TryFrom(fs, base, parts, end + 1)
  }

  // ------------------------------------------------- what it searches through

  /** A split lists how many parts go into each component. */
  type Split = seq<nat>

  /** `split` uses up the parts, and every path on the way to its end exists. */
  predicate Good(fs: set<Path>, base: Path, parts: seq<Text>, split: Split)
    decreases |parts|
  {
    if split == [] then parts == [] && base in fs
    else
      && 1 <= split[0] <= |parts|
      && base + [Join(parts[..split[0]])] in fs
      && Good(fs, base + [Join(parts[..split[0]])], parts[split[0]..], split[1..])
  }

  function PathOf(base: Path, parts: seq<Text>, split: Split): Path
    decreases |split|
  {
    if split == [] || split[0] > |parts| then base
    else PathOf(base + [Join(parts[..split[0]])], parts[split[0]..], split[1..])
  }

  /** Shorter components first. */
  predicate Before(s: Split, t: Split) {
    if t == [] then false
    else if s == [] then true
    else s[0] < t[0] || (s[0] == t[0] && Before(s[1..], t[1..]))
  }

  /** What is returned exists along a good split, and no good split comes before that one. */
  lemma {:induction false} ResolveSound(fs: set<Path>, base: Path, parts: seq<Text>) returns (split: Split)
    requires Resolve(fs, base, parts).Some?
    ensures Good(fs, base, parts, split) && Resolve(fs, base, parts).value == PathOf(base, parts, split)
    ensures forall t :: Good(fs, base, parts, t) ==> !Before(t, split)
    decreases |parts|, |parts| + 2
  {
    if parts == [] {
      split := [];
    } else {
      split := TrySound(fs, base, parts, 1);
    }
  }

  lemma {:induction false} TrySound(fs: set<Path>, base: Path, parts: seq<Text>, end: nat) returns (split: Split)
    requires 1 <= end <= |parts| && TryFrom(fs, base, parts, end).Some?
    ensures Good(fs, base, parts, split) && TryFrom(fs, base, parts, end).value == PathOf(base, parts, split)
    ensures forall t :: Good(fs, base, parts, t) && t != [] && t[0] >= end ==> !Before(t, split)
    decreases |parts|, |parts| + 1 - end
  {
    var candidate := base + [Join(parts[..end])];
    if candidate in fs && Resolve(fs, candidate, parts[end..]).Some? {
      var rest := ResolveSound(fs, candidate, parts[end..]);
      split := [end] + rest;
    } else {
      split := TrySound(fs, base, parts, end + 1);
      forall t | Good(fs, base, parts, t) && t != [] && t[0] == end ensures false {
        ResolveComplete(fs, candidate, parts[end..], t[1..]);
      }
    }
  }

  lemma {:induction false} ResolveComplete(fs: set<Path>, base: Path, parts: seq<Text>, split: Split)
    requires Good(fs, base, parts, split)
    ensures Resolve(fs, base, parts).Some?
    decreases |parts|, |parts| + 2
  {
    if parts != [] {
      TryComplete(fs, base, parts, 1, split);
    }
  }

  lemma {:induction false} TryComplete(fs: set<Path>, base: Path, parts: seq<Text>, end: nat, split: Split)
    requires Good(fs, base, parts, split) && split != [] && 1 <= end <= split[0]
    ensures TryFrom(fs, base, parts, end).Some?
    decreases |parts|, |parts| + 1 - end
  {
    var candidate := base + [Join(parts[..end])];
    if end == split[0] {
      ResolveComplete(fs, candidate, parts[end..], split[1..]);
    } else {
      TryComplete(fs, base, parts, end + 1, split);
    }
  }

  /** The search succeeds exactly when some split has all its prefixes on disk, and then it returns
      the first such split, shortest components first. */
  lemma ResolveIsFirstGoodSplit(fs: set<Path>, base: Path, parts: seq<Text>)
    ensures Resolve(fs, base, parts).Some? <==> exists split :: Good(fs, base, parts, split)
    ensures Resolve(fs, base, parts).Some? ==>
              exists split :: Good(fs, base, parts, split) && Resolve(fs, base, parts) == Some(PathOf(base, parts, split))
                              && forall t :: Good(fs, base, parts, t) ==> !Before(t, split)
  {
    if Resolve(fs, base, parts).Some? {
      var split := ResolveSound(fs, base, parts);
      assert exists t :: Good(fs, base, parts, t);
    }
    if exists split :: Good(fs, base, parts, split) {
      var split :| Good(fs, base, parts, split);
      ResolveComplete(fs, base, parts, split);
    }
  }

  // ----------------------------------------------------------------- the names

  /** `split('-')`. */
  function SplitDash(s: Text): (r: seq<Text>)
    ensures |r| >= 1
  {
    if s == [] then [[]]
    else
      var r := SplitDash(s[1..]);
      if s[0] == DASH then [[]] + r else [[s[0]] + r[0]] + r[1..]
  }

  /** `filter(|part| !part.is_empty())`. */
  function NonEmpty(parts: seq<Text>): seq<Text> {
    if parts == [] then [] else (if parts[0] == [] then [] else [parts[0]]) + NonEmpty(parts[1..])
  }

  /** The directory name for an absolute path: each separator becomes a dash. */
  function Encode(path: Path): Text {
    [DASH] + Join(path)
  }

  lemma {:induction false} JoinConcat(a: seq<Text>, b: seq<Text>)
    requires a != [] && b != []
    ensures Join(a + b) == Join(a) + [DASH] + Join(b)
  {
    if |a| == 1 {
      assert (a + b)[1..] == b;
    } else {
      assert (a + b)[1..] == a[1..] + b;
      JoinConcat(a[1..], b);
      assert a[0] + [DASH] + (Join(a[1..]) + [DASH] + Join(b)) == Join(a) + [DASH] + Join(b);
    }
  }

  lemma {:induction false} JoinSplit(s: Text)
    ensures Join(SplitDash(s)) == s
  {
    if s != [] {
      JoinSplit(s[1..]);
      var r := SplitDash(s[1..]);
      if s[0] == DASH {
        JoinConcat([[]], r);
      } else if |r| > 1 {
        assert ([[s[0]] + r[0]] + r[1..])[1..] == r[1..];
        assert [s[0]] + (r[0] + [DASH] + Join(r[1..])) == [s[0]] + r[0] + [DASH] + Join(r[1..]);
      }
    }
  }

  lemma {:induction false} SplitConcat(a: Text, b: Text)
    ensures SplitDash(a + [DASH] + b) == SplitDash(a) + SplitDash(b)
  {
    var s := a + [DASH] + b;
    if a == [] {
      assert s[1..] == b;
    } else {
      var r, t := SplitDash(a[1..]), SplitDash(b);
      assert s[0] == a[0] && s[1..] == a[1..] + [DASH] + b;
      SplitConcat(a[1..], b);
      assert SplitDash(s[1..]) == r + t;
      if a[0] == DASH {
        Associative([[]], r, t);
      } else {
        assert (r + t)[0] == r[0] && (r + t)[1..] == r[1..] + t;
        Associative([[a[0]] + r[0]], r[1..], t);
      }
    }
  }

  /** No component is empty, starts or ends with a dash or has two in a row. */
  ghost predicate Clean(path: Path) {
    forall i :: 0 <= i < |path| ==> forall j :: 0 <= j < |SplitDash(path[i])| ==> SplitDash(path[i])[j] != []
  }

  /** The parts of a clean path's name, and how many belong to each component. */
  function PartsOf(path: Path): seq<Text> {
    if path == [] then [] else SplitDash(path[0]) + PartsOf(path[1..])
  }

  function SplitOf(path: Path): Split {
    if path == [] then [] else [|SplitDash(path[0])|] + SplitOf(path[1..])
  }

  lemma {:induction false} PartsOfName(path: Path)
    requires path != []
    ensures SplitDash(Join(path)) == PartsOf(path)
  {
    if |path| == 1 {
      assert PartsOf(path[1..]) == [];
      assert SplitDash(path[0]) + [] == SplitDash(path[0]);
    } else {
      PartsOfName(path[1..]);
      SplitConcat(path[0], Join(path[1..]));
    }
  }

  lemma {:induction false} CleanParts(path: Path)
    requires Clean(path)
    ensures NonEmpty(PartsOf(path)) == PartsOf(path)
  {
    if path != [] {
      assert Clean(path[1..]) by {
        forall i | 0 <= i < |path[1..]| ensures path[1..][i] == path[i + 1] {}
      }
      CleanParts(path[1..]);
      NonEmptyConcat(SplitDash(path[0]), PartsOf(path[1..]));
    }
  }

  lemma {:induction false} NonEmptyConcat(a: seq<Text>, b: seq<Text>)
    requires forall j :: 0 <= j < |a| ==> a[j] != []
    ensures NonEmpty(a + b) == a + NonEmpty(b)
  {
    if a == [] {
      assert a + b == b;
    } else {
      assert (a + b)[1..] == a[1..] + b;
      NonEmptyConcat(a[1..], b);
    }
  }

  /** Every directory above the path, and the path itself, exist. */
  ghost predicate ExistsBelow(fs: set<Path>, base: Path, path: Path) {
    forall n :: 0 < n <= |path| ==> base + path[..n] in fs
  }

  /** The true components of an existing path are one of the splits of its name. */
  lemma {:induction false} OwnSplitIsGood(fs: set<Path>, base: Path, path: Path)
    requires ExistsBelow(fs, base, path) && (path == [] ==> base in fs)
    ensures Good(fs, base, PartsOf(path), SplitOf(path)) && PathOf(base, PartsOf(path), SplitOf(path)) == base + path
    decreases |path|
  {
    if path == [] {
      assert base + path == base;
    } else {
      var n, next := |SplitDash(path[0])|, base + [path[0]];
      var parts, split := PartsOf(path), SplitOf(path);
      assert path[..1] == [path[0]];
      forall k | 0 < k <= |path[1..]| ensures next + path[1..][..k] in fs {
        assert next + path[1..][..k] == base + path[..k + 1];
      }
      OwnSplitIsGood(fs, next, path[1..]);
      JoinSplit(path[0]);
      FirstOfSplit(fs, base, parts, split, n, path[0]);
      assert next + path[1..] == base + path;
    }
  }

  /** One component of a good split. */
  lemma FirstOfSplit(fs: set<Path>, base: Path, parts: seq<Text>, split: Split, n: nat, component: Text)
    requires 1 <= n <= |parts| && split != [] && split[0] == n && Join(parts[..n]) == component
    requires base + [component] in fs && Good(fs, base + [component], parts[n..], split[1..])
    ensures Good(fs, base, parts, split)
    ensures PathOf(base, parts, split) == PathOf(base + [component], parts[n..], split[1..])
  {
  }

  /** Whatever path a good split yields has the same name. */
  lemma {:induction false} GoodSplitEncodes(fs: set<Path>, base: Path, parts: seq<Text>, split: Split)
    requires Good(fs, base, parts, split)
    ensures var q := PathOf(base, parts, split);
            q in fs && base <= q && Join(q[|base|..]) == Join(parts) && (parts == [] <==> q == base)
    decreases |parts|
  {
    if split != [] {
      var n := split[0];
      var next := base + [Join(parts[..n])];
      GoodSplitEncodes(fs, next, parts[n..], split[1..]);
      var q := PathOf(base, parts, split);
      assert q[|base|..] == [Join(parts[..n])] + q[|next|..];
      assert parts == parts[..n] + parts[n..];
      if n < |parts| {
        JoinConcat(parts[..n], parts[n..]);
      } else {
        assert parts[..n] == parts;
      }
    }
  }

  /** The Unix half of the decoder finds an existing path again from its name, provided no other
      existing path has the same name. */
  lemma ResolveFindsPath(fs: set<Path>, path: Path)
    requires path != [] && Clean(path) && ExistsBelow(fs, [], path)
    requires forall q :: q in fs && Encode(q) == Encode(path) ==> q == path
    ensures Resolve(fs, [], NonEmpty(SplitDash(Join(path)))) == Some(path)
  {
    PartsOfName(path);
    CleanParts(path);
    var parts := PartsOf(path);
    OwnSplitIsGood(fs, [], path);
    ResolveComplete(fs, [], parts, SplitOf(path));
    var split := ResolveSound(fs, [], parts);
    GoodSplitEncodes(fs, [], parts, split);
    var q := PathOf([], parts, split);
    assert q[0..] == q;
    JoinSplit(Join(path));
  }

  // --------------------------------------------------------- the whole decoder

  datatype Decoded =
    | Root
    | Drive(letter: Byte, rest: Text)   // the Windows form; its own search is not modelled
    | Found(path: Path)
    | Guess(text: Text)

  /** `Panic`: a string was sliced inside a character. */
  datatype Result = Panic | Nothing | Is(decoded: Decoded)

  /** `DriveAt(i)`: a drive letter and its separator stand at `i`. */
  datatype Scan = Crash | NoDrive | DriveAt(index: nat)

  predicate IsLetter(b: Byte) {
    65 <= b <= 90 || 97 <= b <= 122
  }

  ghost predicate AllDashes(s: Text) {
    forall i :: 0 <= i < |s| ==> s[i] == DASH
  }

  /** The loop of `decode_windows_claude_project_dir`, over all windows of three bytes. */
  function ScanDrive(s: Text, i: nat): (r: Scan)
    ensures r.DriveAt? ==> r.index + 3 <= |s|
    decreases |s| - i
  {
    if i + 3 > |s| then NoDrive
    else if !Boundary(s, i) then Crash
    else if exists k | 0 <= k < i :: s[k] != DASH then NoDrive
    else if IsLetter(s[i]) && (s[i + 1] == DASH || s[i + 1] == COLON) && s[i + 2] == DASH then DriveAt(i)
    else ScanDrive(s, i + 1)
  }

  function DashesToSlashes(s: Text): Text {
    if s == [] then [] else [if s[0] == DASH then SLASH else s[0]] + DashesToSlashes(s[1..])
  }

  /** `decode_claude_project_dir`. */
  function Decode(fs: set<Path>, s: Text): Result {
    if s == [] then Nothing
    else if s == [DASH] then Is(Root)
    else
      match ScanDrive(s, 0)
      case Crash => Panic
      case DriveAt(i) => Is(Drive(s[i], s[i + 3..]))
      case NoDrive =>
        var found := if s[0] == DASH then Resolve(fs, [], NonEmpty(SplitDash(s[1..]))) else None;
        if found.Some? then Is(if found.value == [] then Root else Found(found.value))
        else Is(Guess(if s[0] == DASH then DashesToSlashes(s) else s))
  }

  /** The name begins, after its leading dashes, with a character of several bytes, and at least
      three more bytes follow that character's first. */
  ghost predicate StartsWide(s: Text, k: nat) {
    k + 4 <= |s| && AllDashes(s[..k]) && s[k] >= 0x80
  }

  /** The scan slices inside a character exactly on such names. */
  lemma {:induction false} ScanCrashesIff(s: Text, i: nat)
    requires Valid(s) && i <= |s| && AllDashes(s[..i])
    ensures ScanDrive(s, i) == Crash <==> exists k :: i <= k && StartsWide(s, k)
    decreases |s| - i
  {
    if i + 3 <= |s| {
      assert Boundary(s, i) by {
        SuffixAfterDashes(s, i);
      }
      assert !(exists k | 0 <= k < i :: s[k] != DASH) by {
        forall k | 0 <= k < i ensures s[k] == DASH { assert s[..i][k] == DASH; }
      }
      if s[i] == DASH {
        assert s[..i + 1] == s[..i] + [DASH];
        ScanCrashesIff(s, i + 1);
        assert !StartsWide(s, i);
      } else {
        forall k | i < k <= |s| ensures !AllDashes(s[..k]) { assert s[..k][i] != DASH; }
        if s[i] >= 0x80 && i + 4 <= |s| {
          SuffixAfterDashes(s, i);
          assert CharLen(s[i..]) >= 2 && IsCont(s[i..][1]);
          assert !Boundary(s, i + 1);
          assert StartsWide(s, i);
        } else if s[i] < 0x80 {
          SuffixAfterDashes(s, i);
          assert CharLen(s[i..]) == 1;
          SuffixValid(s[i..], 1);
          FirstNotCont(s[i..][1..]);
          assert s[i..][1..][0] == s[i + 1];
          assert s[i] != DASH && 0 <= i < i + 1;
        }
      }
    }
  }

  lemma {:induction false} SuffixAfterDashes(s: Text, i: nat)
    requires Valid(s) && i <= |s| && AllDashes(s[..i])
    ensures Valid(s[i..]) && Boundary(s, i)
  {
    if i == 0 {
      assert s[0..] == s;
    } else {
      assert s[0] == s[..i][0] == DASH;
      assert CharLen(s) == 1;
      var t := s[1..][..i - 1];
      forall k | 0 <= k < |t| ensures t[k] == DASH { assert s[..i][k + 1] == DASH; }
      SuffixAfterDashes(s[1..], i - 1);
      assert s[1..][i - 1..] == s[i..];
      FirstNotCont(s[i..]);
      assert i < |s| ==> s[i..][0] == s[i];
    }
  }

  lemma FirstNotCont(s: Text)
    requires Valid(s)
    ensures s != [] ==> !IsCont(s[0])
  {
  }

  /** So the decoder panics exactly on names like "-<e-acute>tat", whatever the file system
      holds. */
  lemma DecodePanicsIff(fs: set<Path>, s: Text)
    requires Valid(s)
    ensures Decode(fs, s) == Panic <==> exists k: nat :: StartsWide(s, k)
  {
    ScanCrashesIff(s, 0);
    if exists k: nat :: StartsWide(s, k) {
      var k: nat :| StartsWide(s, k);
      assert s != [DASH] && s != [];
    }
  }

  /** The first component reads as a drive: a letter, a colon, and then a dash. */
  predicate DriveLike(s: Text) {
    |s| >= 4 && IsLetter(s[1]) && s[2] == COLON && s[3] == DASH
  }

  /** An existing absolute path is found again from its directory name, if its components are free of
      empty dash segments, no other existing path has the same name, the name is not taken for a drive
      and does not begin with a wide character. */
  lemma DecodeInvertsEncode(fs: set<Path>, path: Path)
    requires path != [] && Clean(path) && ExistsBelow(fs, [], path)
    requires forall q :: q in fs && Encode(q) == Encode(path) ==> q == path
    requires Valid(Encode(path)) && !DriveLike(Encode(path)) && !StartsWide(Encode(path), 1)
    ensures Decode(fs, Encode(path)) == Is(Found(path))
  {
    var s := Encode(path);
    assert s[1..] == Join(path);
    PartsOfName(path);
    var parts := SplitDash(Join(path));
    assert parts[0] == SplitDash(path[0])[0] && parts[0] != [];
    FirstByte(Join(path));
    assert s != [DASH] && s[0] == DASH && s[1] != DASH;
    assert ScanDrive(s, 0) == NoDrive by {
      NoDriveHere(s, path);
    }
    ResolveFindsPath(fs, path);
  }

  lemma FirstByte(s: Text)
    requires SplitDash(s)[0] != []
    ensures s != [] && s[0] != DASH
  {
  }

  lemma NoDriveHere(s: Text, path: Path)
    requires path != [] && Clean(path) && s == Encode(path) && Valid(s)
    requires |s| >= 2 && s[1] != DASH && !DriveLike(s) && !StartsWide(s, 1)
    ensures ScanDrive(s, 0) == NoDrive
  {
    ScanCrashesIff(s, 0);
    forall k: nat ensures !StartsWide(s, k) {
      if k > 1 && k <= |s| {
        assert s[..k][1] != DASH;
      } else if k == 1 && |s| >= 5 {
        assert s[..1] == [DASH];
      }
    }
    assert ScanDrive(s, 0) != Crash;
    assert |s| >= 3 ==> ScanDrive(s, 0) == ScanDrive(s, 1);
    if |s| >= 4 {
      NoDoubleDash(path);
      assert s[2] == Join(path)[1] && s[3] == Join(path)[2];
      assert s[0] == DASH && Boundary(s, 1);
      assert ScanDrive(s, 1) == ScanDrive(s, 2);
      assert exists k | 0 <= k < 2 :: s[k] != DASH;
    }
  }

  /** A clean path's name never has two dashes in a row after its first. */
  lemma NoDoubleDash(path: Path)
    requires path != [] && Clean(path)
    ensures var j := Join(path); forall i :: 0 <= i < |j| - 1 ==> !(j[i] == DASH && j[i + 1] == DASH)
  {
    PartsOfName(path);
    CleanPartsNonEmpty(path);
    SegmentsNonEmpty(Join(path));
  }

  lemma {:induction false} CleanPartsNonEmpty(path: Path)
    requires Clean(path)
    ensures forall j :: 0 <= j < |PartsOf(path)| ==> PartsOf(path)[j] != []
  {
    if path != [] {
      assert Clean(path[1..]) by {
        forall i | 0 <= i < |path[1..]| ensures path[1..][i] == path[i + 1] {}
      }
      CleanPartsNonEmpty(path[1..]);
    }
  }

  lemma {:induction false} SegmentsNonEmpty(s: Text)
    requires forall j :: 1 <= j < |SplitDash(s)| ==> SplitDash(s)[j] != []
    ensures forall i :: 0 <= i < |s| - 1 ==> !(s[i] == DASH && s[i + 1] == DASH)
  {
    if s != [] {
      var r := SplitDash(s[1..]);
      forall j | 1 <= j < |r| ensures r[j] != [] {
        assert SplitDash(s)[if s[0] == DASH then j + 1 else j] == r[j];
      }
      SegmentsNonEmpty(s[1..]);
      if |s| > 1 && s[0] == DASH {
        assert SplitDash(s)[1] == r[0];
        FirstByte(s[1..]);
      }
      forall i | 1 <= i < |s| - 1 ensures !(s[i] == DASH && s[i + 1] == DASH) {
        assert s[1..][i - 1] == s[i] && s[1..][i] == s[i + 1];
      }
    }
  }

  // ------------------------------------------------------------- every answer

  /** After `i` dashes come a letter and a separator. */
  ghost predicate DriveStands(s: Text, i: nat) {
    && i + 3 <= |s| && AllDashes(s[..i]) && ('A' as int <= s[i] <= 'Z' as int || 'a' as int <= s[i] <= 'z' as int)
    && (s[i + 1] == DASH || s[i + 1] == COLON) && s[i + 2] == DASH
  }

  lemma {:induction false} ScanFinds(s: Text, from: nat, i: nat)
    requires from <= i && DriveStands(s, i)
    ensures ScanDrive(s, from) == DriveAt(i)
    decreases i - from
  {
    forall k | 0 <= k < i ensures s[k] == DASH {
      assert s[..i][k] == DASH;
    }
    if from < i {
      ScanFinds(s, from + 1, i);
    }
  }

  lemma {:induction false} ScanIsRight(s: Text, from: nat)
    ensures ScanDrive(s, from).DriveAt? ==> DriveStands(s, ScanDrive(s, from).index)
    decreases |s| - from
  {
    if from + 3 <= |s| {
      ScanIsRight(s, from + 1);
      if ScanDrive(s, from) == DriveAt(from) {
        forall k | 0 <= k < from ensures s[..from][k] == DASH {
          assert !(exists k | 0 <= k < from :: s[k] != DASH);
        }
      }
    }
  }

  /** The name's bytes with each dash turned into a slash, if it begins with one. */
  ghost predicate IsGuessFor(s: Text, g: Text) {
    |g| == |s| && forall k :: 0 <= k < |s| ==> g[k] == if s[0] == DASH && s[k] == DASH then SLASH else s[k]
  }

  lemma {:induction false} SlashesAt(s: Text)
    ensures |DashesToSlashes(s)| == |s|
    ensures forall k :: 0 <= k < |s| ==> DashesToSlashes(s)[k] == if s[k] == DASH then SLASH else s[k]
  {
    if s != [] {
      SlashesAt(s[1..]);
    }
  }

  /** What the decoder answers, for every name and file system: nothing for the empty name, the root for
      a single dash, a drive path if a drive stands after the leading dashes, a panic on the names
      of `DecodePanicsIff`, the first existing reading if there is one, and otherwise a guess. */
  lemma DecodeAnswers(fs: set<Path>, s: Text)
    requires Valid(s)
    ensures Decode(fs, s) == Nothing <==> s == []
    ensures s == [DASH] ==> Decode(fs, s) == Is(Root)
    ensures forall i: nat :: DriveStands(s, i) ==> Decode(fs, s) == Is(Drive(s[i], s[i + 3..]))
    ensures Decode(fs, s).Is? && Decode(fs, s).decoded.Drive? ==> exists i: nat :: DriveStands(s, i)
    ensures Decode(fs, s).Is? && Decode(fs, s).decoded.Found? ==>
              && s != [] && s[0] == DASH
              && Resolve(fs, [], NonEmpty(SplitDash(s[1..]))) == Some(Decode(fs, s).decoded.path)
    ensures Decode(fs, s).Is? && Decode(fs, s).decoded.Guess? ==>
              && IsGuessFor(s, Decode(fs, s).decoded.text) && s != [DASH]
              && (s[0] == DASH ==> !exists split :: Good(fs, [], NonEmpty(SplitDash(s[1..])), split))
  {
    if s != [] && s != [DASH] {
      ScanIsRight(s, 0);
      forall i: nat | DriveStands(s, i) ensures Decode(fs, s) == Is(Drive(s[i], s[i + 3..])) {
        ScanFinds(s, 0, i);
      }
      SlashesAt(s);
      ResolveIsFirstGoodSplit(fs, [], NonEmpty(SplitDash(s[1..])));
    }
  }

  /** Empty segments are left out of the search, and nothing else. */
  lemma {:induction false} NonEmptyMember(parts: seq<Text>, x: Text)
    ensures x in NonEmpty(parts) <==> x in parts && x != []
  {
    if parts != [] {
      assert x in parts <==> x == parts[0] || x in parts[1..];
      NonEmptyMember(parts[1..], x);
    }
  }
}
