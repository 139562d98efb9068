/** The cache of parsed session files (`cached_parse_session` and `prune_session_parse_cache` in
    crates/host-core/src/coding_sessions.rs).

    Listings run concurrently and hold the cache's lock only to look up and to insert, so a file may
    be written between the moment a listing looks at its time and size and the moment it reads it. */
module ParseCache {
  import opened Basics

  type Path = string

  datatype Stamp = Stamp(mtime: int, size: nat)

  /** One state of a file. */
  datatype Version = Gone | Present(stamp: Stamp, content: string)

  datatype Info = Info(title: string, project: string, stamp: Stamp)

  /** Parsing fails or yields a summary; it may look at the path and puts the candidate's stamp into
      its result. The directories that the project fallback consults do not change. */
  type Parser = (Path, Stamp, string) -> Option<Info>

  /** `statAt` and `readAt` are the versions at which the inserting call looked at the stamp and read
      the content; the code keeps neither. */
  datatype Entry = Entry(stamp: Stamp, parsed: Option<Info>, statAt: nat, readAt: nat)

  /** A call of `cached_parse_session` for a candidate whose stamp was taken at version `at`. What it
      returns was read at `readAt` by a call whose own stamp was taken at `filledAt`. */
  datatype Call =
    | Candidate(path: Path, stamp: Stamp, at: nat)
    | Missed(path: Path, stamp: Stamp, at: nat)
    | Parsed(path: Path, stamp: Stamp, at: nat, parsed: Option<Info>, readAt: nat)
    | Returned(path: Path, stamp: Stamp, at: nat, parsed: Option<Info>, filledAt: nat, readAt: nat)

  /** `files[p]` lists all versions of `p` so far, the current one last. */
  datatype State = State(files: map<Path, seq<Version>>, cache: map<Path, Entry>, calls: seq<Call>)

  datatype Label =
    | Write(p: Path, v: Version)
    | Stat(p: Path)
    | Lookup(i: nat)
    | Parse(i: nat)
    | Insert(i: nat)
    | Prune(keep: set<Path>)

  const INIT := State(map[], map[], [])

  function VersionsOf(s: State, p: Path): seq<Version> {
    if p in s.files then s.files[p] else []
  }

  function ParseOf(parse: Parser, p: Path, stamp: Stamp, v: Version): Option<Info> {
    if v.Gone? then None else parse(p, stamp, v.content)
  }

  /** `v` has a stamp that the file has not had before. */
  ghost predicate NewStamp(vs: seq<Version>, v: Version) {
    v.Present? ==> forall i :: 0 <= i < |vs| && vs[i].Present? ==> vs[i].stamp != v.stamp
  }

  predicate Enabled(s: State, l: Label) {
    match l
    case Write(_, _) => true
    case Stat(p) => var vs := VersionsOf(s, p); vs != [] && vs[|vs| - 1].Present?
    case Lookup(i) => i < |s.calls| && s.calls[i].Candidate?
    case Parse(i) => i < |s.calls| && s.calls[i].Missed? && VersionsOf(s, s.calls[i].path) != []
    case Insert(i) => i < |s.calls| && s.calls[i].Parsed?
    case Prune(_) => true
  }

  function Next(parse: Parser, s: State, l: Label): State
    requires Enabled(s, l)
  {
    match l
    case Write(p, v) => s.(files := s.files[p := VersionsOf(s, p) + [v]])
    case Stat(p) =>
      var vs := VersionsOf(s, p);
      s.(calls := s.calls + [Candidate(p, vs[|vs| - 1].stamp, |vs| - 1)])
    case Lookup(i) =>
      var c := s.calls[i];
      s.(calls := s.calls[i :=
        if c.path in s.cache && s.cache[c.path].stamp == c.stamp
        then Returned(c.path, c.stamp, c.at, s.cache[c.path].parsed, s.cache[c.path].statAt, s.cache[c.path].readAt)
        else Missed(c.path, c.stamp, c.at)])
    case Parse(i) =>
      var c := s.calls[i];
      var vs := VersionsOf(s, c.path);
      s.(calls := s.calls[i := Parsed(c.path, c.stamp, c.at, ParseOf(parse, c.path, c.stamp, vs[|vs| - 1]), |vs| - 1)])
    case Insert(i) =>
      var c := s.calls[i];
      s.(cache := s.cache[c.path := Entry(c.stamp, c.parsed, c.at, c.readAt)],
         calls := s.calls[i := Returned(c.path, c.stamp, c.at, c.parsed, c.at, c.readAt)])
    case Prune(keep) => s.(cache := map p <- s.cache | p in keep :: s.cache[p])
  }

  ghost predicate IsRun(parse: Parser, states: seq<State>, labels: seq<Label>) {
    && |states| == |labels| + 1 && states[0] == INIT
    && forall i :: 0 <= i < |labels| ==>
         Enabled(states[i], labels[i]) && states[i + 1] == Next(parse, states[i], labels[i])
  }

  /** One step. */
  ghost predicate Leads(parse: Parser, s: State, l: Label, s': State) {
    Enabled(s, l) && s' == Next(parse, s, l)
  }

  // ------------------------------------------------------------ the invariant

  /** Stamp and result belong together: the stamp was the file's at version `at`, and the result is
      the parse of what the file held at `readAt`, no earlier. */
  predicate Justified(parse: Parser, s: State, p: Path, stamp: Stamp, at: nat, parsed: Option<Info>, readAt: nat) {
    var vs := VersionsOf(s, p);
    at <= readAt < |vs| && vs[at].Present? && vs[at].stamp == stamp && parsed == ParseOf(parse, p, stamp, vs[readAt])
  }

  predicate CallOk(parse: Parser, s: State, c: Call) {
    match c
    case Candidate(p, stamp, at) => Statted(s, p, stamp, at)
    case Missed(p, stamp, at) => Statted(s, p, stamp, at)
    case Parsed(p, stamp, at, parsed, readAt) => Justified(parse, s, p, stamp, at, parsed, readAt)
    case Returned(p, stamp, at, parsed, filledAt, readAt) =>
      Statted(s, p, stamp, at) && Justified(parse, s, p, stamp, filledAt, parsed, readAt)
  }

  predicate Statted(s: State, p: Path, stamp: Stamp, at: nat) {
    var vs := VersionsOf(s, p);
    at < |vs| && vs[at].Present? && vs[at].stamp == stamp
  }

  ghost predicate CacheOk(parse: Parser, s: State) {
    forall p :: p in s.cache ==>
      Justified(parse, s, p, s.cache[p].stamp, s.cache[p].statAt, s.cache[p].parsed, s.cache[p].readAt)
  }

  ghost predicate CallsOk(parse: Parser, s: State) {
    forall i :: 0 <= i < |s.calls| ==> CallOk(parse, s, s.calls[i])
  }

  ghost predicate Inv(parse: Parser, s: State) {
    CacheOk(parse, s) && CallsOk(parse, s)
  }

  /** A write adds a version and changes none. */
  lemma WriteStep(parse: Parser, s: State, l: Label)
    requires Inv(parse, s) && l.Write?
    ensures Inv(parse, Next(parse, s, l))
  {
    var s' := Next(parse, s, l);
    forall p | p in s'.cache
      ensures Justified(parse, s', p, s'.cache[p].stamp, s'.cache[p].statAt, s'.cache[p].parsed, s'.cache[p].readAt)
    {
      assert Justified(parse, s, p, s.cache[p].stamp, s.cache[p].statAt, s.cache[p].parsed, s.cache[p].readAt);
    }
    forall i | 0 <= i < |s'.calls| ensures CallOk(parse, s', s'.calls[i]) {
      assert CallOk(parse, s, s.calls[i]);
    }
  }

  lemma CallStep(parse: Parser, s: State, l: Label)
    requires Inv(parse, s) && Enabled(s, l) && (l.Stat? || l.Parse? || l.Insert? || l.Prune?)
    ensures Inv(parse, Next(parse, s, l))
  {
    var s' := Next(parse, s, l);
    if l.Parse? || l.Insert? {
      assert CallOk(parse, s, s.calls[l.i]);
    }
    forall i | 0 <= i < |s'.calls| ensures CallOk(parse, s', s'.calls[i]) {
      assert i < |s.calls| ==> CallOk(parse, s, s.calls[i]);
    }
    forall p | p in s'.cache
      ensures Justified(parse, s', p, s'.cache[p].stamp, s'.cache[p].statAt, s'.cache[p].parsed, s'.cache[p].readAt)
    {
      assert p in s.cache ==>
        Justified(parse, s, p, s.cache[p].stamp, s.cache[p].statAt, s.cache[p].parsed, s.cache[p].readAt);
    }
  }

  lemma LookupStep(parse: Parser, s: State, l: Label)
    requires Inv(parse, s) && Enabled(s, l) && l.Lookup?
    ensures Inv(parse, Next(parse, s, l))
  {
    var s', c := Next(parse, s, l), s.calls[l.i];
    assert CallOk(parse, s, c);
    if s'.calls[l.i].Returned? {
      var e := s.cache[c.path];
      assert Justified(parse, s, c.path, e.stamp, e.statAt, e.parsed, e.readAt);
    }
    forall i | 0 <= i < |s'.calls| ensures CallOk(parse, s', s'.calls[i]) {
      assert CallOk(parse, s, s.calls[i]);
    }
    assert CacheOk(parse, s');
  }

  lemma InvStep(parse: Parser, s: State, l: Label)
    requires Inv(parse, s) && Enabled(s, l)
    ensures Inv(parse, Next(parse, s, l))
  {
    if l.Write? {
      WriteStep(parse, s, l);
    } else if l.Lookup? {
      LookupStep(parse, s, l);
    } else {
      CallStep(parse, s, l);
    }
  }

  lemma {:induction false} InvAlways(parse: Parser, states: seq<State>, labels: seq<Label>, n: nat)
    requires IsRun(parse, states, labels) && n < |states|
    ensures Inv(parse, states[n])
  {
    if n > 0 {
      InvAlways(parse, states, labels, n - 1);
      InvStep(parse, states[n - 1], labels[n - 1]);
    }
  }

  // ------------------------------------------------------------------- results

  /** In every run, what a call returns, from the cache or not, is the parse of what the file held at
      or after a version with the candidate's stamp. If no version before the candidate's had that
      stamp, it is no older than the candidate; and if besides the file has not been written since,
      it is exactly what parsing the file directly would give. */
  lemma ReturnsNothingStale(parse: Parser, states: seq<State>, labels: seq<Label>, n: nat, i: nat)
    requires IsRun(parse, states, labels) && n < |states| && i < |states[n].calls| && states[n].calls[i].Returned?
    ensures var c := states[n].calls[i]; var vs := VersionsOf(states[n], c.path);
            && c.filledAt <= c.readAt < |vs| && c.at < |vs|
            && vs[c.filledAt].Present? && vs[c.filledAt].stamp == c.stamp
            && vs[c.at].Present? && vs[c.at].stamp == c.stamp
            && c.parsed == ParseOf(parse, c.path, c.stamp, vs[c.readAt])
            && (NewStamp(vs[..c.at], vs[c.at]) ==> c.at <= c.readAt)
            && (NewStamp(vs[..c.at], vs[c.at]) && c.at == |vs| - 1 ==>
                  c.parsed == parse(c.path, c.stamp, vs[c.at].content))
  {
    InvAlways(parse, states, labels, n);
    var c := states[n].calls[i];
    var vs := VersionsOf(states[n], c.path);
    assert CallOk(parse, states[n], c);
    if c.filledAt < c.at {
      assert vs[..c.at][c.filledAt] == vs[c.filledAt];
    }
  }

  /** Equal stamps of a file mean equal contents. */
  ghost predicate StampFixesContent(vs: seq<Version>) {
    forall i, j :: 0 <= i < |vs| && 0 <= j < |vs| && vs[i].Present? && vs[j].Present? && vs[i].stamp == vs[j].stamp
      ==> vs[i].content == vs[j].content
  }

  /** Where that is so, a hit is the direct parse of the candidate's version exactly when the call that
      filled the entry read something that parses like the version it had looked at. */
  lemma HitIsDirectParseIff(parse: Parser, states: seq<State>, labels: seq<Label>, n: nat, i: nat)
    requires IsRun(parse, states, labels) && n < |labels| && labels[n] == Lookup(i) && states[n + 1].calls[i].Returned?
    requires StampFixesContent(VersionsOf(states[n], states[n].calls[i].path))
    ensures var c := states[n + 1].calls[i]; var vs := VersionsOf(states[n], c.path);
            && c.path in states[n].cache && c.filledAt == states[n].cache[c.path].statAt
            && c.readAt == states[n].cache[c.path].readAt
            && c.at < |vs| && vs[c.at].Present? && c.filledAt <= c.readAt < |vs| && vs[c.filledAt].Present?
            && (c.parsed == parse(c.path, c.stamp, vs[c.at].content) <==>
                  ParseOf(parse, c.path, c.stamp, vs[c.readAt]) == parse(c.path, c.stamp, vs[c.filledAt].content))
  {
    InvAlways(parse, states, labels, n);
    var c := states[n].calls[i];
    var e := states[n].cache[c.path];
    assert CallOk(parse, states[n], c);
    assert Justified(parse, states[n], c.path, e.stamp, e.statAt, e.parsed, e.readAt);
  }

  /** In particular whenever no write fell between the stat and the read of that call. */
  lemma CleanFillGivesDirectParse(parse: Parser, states: seq<State>, labels: seq<Label>, n: nat, i: nat)
    requires IsRun(parse, states, labels) && n < |labels| && labels[n] == Lookup(i) && states[n + 1].calls[i].Returned?
    requires StampFixesContent(VersionsOf(states[n], states[n].calls[i].path))
    requires states[n].cache[states[n].calls[i].path].readAt == states[n].cache[states[n].calls[i].path].statAt
    ensures var c := states[n + 1].calls[i]; var vs := VersionsOf(states[n], c.path);
            c.at < |vs| && vs[c.at].Present? && c.parsed == parse(c.path, vs[c.at].stamp, vs[c.at].content)
  {
    HitIsDirectParseIff(parse, states, labels, n, i);
    InvAlways(parse, states, labels, n);
    assert CallOk(parse, states[n], states[n].calls[i]);
  }

  // -------------------------------------------------- when a stamp comes back

  ghost predicate Plays(parse: Parser, s: State, labels: seq<Label>)
    decreases |labels|
  {
    labels == [] || (Enabled(s, labels[0]) && Plays(parse, Next(parse, s, labels[0]), labels[1..]))
  }

  ghost function After(parse: Parser, s: State, labels: seq<Label>): State
    requires Plays(parse, s, labels)
    decreases |labels|
  {
    if labels == [] then s else After(parse, Next(parse, s, labels[0]), labels[1..])
  }

  lemma {:induction false} PlaysOn(parse: Parser, s: State, a: seq<Label>, b: seq<Label>)
    requires Plays(parse, s, a) && Plays(parse, After(parse, s, a), b)
    ensures Plays(parse, s, a + b) && After(parse, s, a + b) == After(parse, After(parse, s, a), b)
    decreases |a|
  {
    if a == [] {
      assert a + b == b;
    } else {
      assert (a + b)[1..] == a[1..] + b;
      PlaysOn(parse, Next(parse, s, a[0]), a[1..], b);
    }
  }

  /** The states passed through. */
  lemma {:induction false} StatesOf(parse: Parser, s: State, labels: seq<Label>) returns (states: seq<State>)
    requires Plays(parse, s, labels)
    ensures |states| == |labels| + 1 && states[0] == s && states[|labels|] == After(parse, s, labels)
    ensures forall i :: 0 <= i < |labels| ==>
              Enabled(states[i], labels[i]) && states[i + 1] == Next(parse, states[i], labels[i])
    decreases |labels|
  {
    states := [s];
    if labels != [] {
      var rest := StatesOf(parse, Next(parse, s, labels[0]), labels[1..]);
      states := [s] + rest;
      forall i | 0 <= i < |labels| ensures Enabled(states[i], labels[i]) && states[i + 1] == Next(parse, states[i], labels[i]) {
        if i > 0 {
          assert labels[1..][i - 1] == labels[i] && states[i] == rest[i - 1];
        }
      }
    }
  }

  function Writes(p: Path, vs: seq<Version>): seq<Label> {
    if vs == [] then [] else [Write(p, vs[0])] + Writes(p, vs[1..])
  }

  lemma {:induction false} WritesPlay(parse: Parser, s: State, p: Path, vs: seq<Version>)
    requires vs != []
    ensures Plays(parse, s, Writes(p, vs))
    ensures After(parse, s, Writes(p, vs)) == s.(files := s.files[p := VersionsOf(s, p) + vs])
    decreases |vs|
  {
    var s', had := Next(parse, s, Write(p, vs[0])), VersionsOf(s, p);
    assert Writes(p, vs)[1..] == Writes(p, vs[1..]);
    if |vs| > 1 {
      WritesPlay(parse, s', p, vs[1..]);
      Associative(had, [vs[0]], vs[1..]);
      assert [vs[0]] + vs[1..] == vs;
      WrittenTwice(s.files, p, had + [vs[0]], had + vs);
    } else {
      assert vs == [vs[0]];
    }
  }

  lemma WrittenTwice(files: map<Path, seq<Version>>, p: Path, a: seq<Version>, b: seq<Version>)
    ensures files[p := a][p := b] == files[p := b]
  {
  }

  lemma FillPlays(parse: Parser, p: Path, h: seq<Version>)
    requires h != [] && h[|h| - 1].Present?
    ensures var v, j := h[|h| - 1], |h| - 1; var r := parse(p, v.stamp, v.content); var s := State(map[p := h], map[], []);
            && Plays(parse, s, [Stat(p), Lookup(0), Parse(0), Insert(0)])
            && After(parse, s, [Stat(p), Lookup(0), Parse(0), Insert(0)])
               == State(map[p := h], map[p := Entry(v.stamp, r, j, j)], [Returned(p, v.stamp, j, r, j, j)])
  {
    var v, j := h[|h| - 1], |h| - 1;
    var r := parse(p, v.stamp, v.content);
    var f := map[p := h];
    var s1 := State(f, map[], [Candidate(p, v.stamp, j)]);
    var s2 := State(f, map[], [Missed(p, v.stamp, j)]);
    var s3 := State(f, map[], [Parsed(p, v.stamp, j, r, j)]);
    assert Leads(parse, State(f, map[], []), Stat(p), s1) && Leads(parse, s1, Lookup(0), s2);
    assert Leads(parse, s2, Parse(0), s3);
    var s4 := State(f, map[p := Entry(v.stamp, r, j, j)], [Returned(p, v.stamp, j, r, j, j)]);
    assert Leads(parse, s3, Insert(0), s4);
    FourSteps(parse, State(f, map[], []), s1, s2, s3, s4, [Stat(p), Lookup(0), Parse(0), Insert(0)]);
  }

  lemma FourSteps(parse: Parser, s0: State, s1: State, s2: State, s3: State, s4: State, ls: seq<Label>)
    requires |ls| == 4 && Leads(parse, s0, ls[0], s1) && Leads(parse, s1, ls[1], s2)
    requires Leads(parse, s2, ls[2], s3) && Leads(parse, s3, ls[3], s4)
    ensures Plays(parse, s0, ls) && After(parse, s0, ls) == s4
  {
    TwoSteps(parse, s2, s3, s4, ls[2..]);
    TwoSteps(parse, s0, s1, s2, ls[..2]);
    PlaysOn(parse, s0, ls[..2], ls[2..]);
    assert ls[..2] + ls[2..] == ls;
  }

  lemma TwoSteps(parse: Parser, s0: State, s1: State, s2: State, ls: seq<Label>)
    requires |ls| == 2 && Leads(parse, s0, ls[0], s1) && Leads(parse, s1, ls[1], s2)
    ensures Plays(parse, s0, ls) && After(parse, s0, ls) == s2
  {
    assert ls[1..] == [ls[1]] && ls[1..][1..] == [];
    assert Plays(parse, s1, ls[1..]) && After(parse, s1, ls[1..]) == s2;
  }

  /** A run that fills the cache at version `j` and then writes the rest of the history. */
  lemma FillAndWrite(parse: Parser, p: Path, h: seq<Version>, j: nat) returns (labels: seq<Label>)
    requires j < |h| - 1 && h[j].Present?
    ensures var r := parse(p, h[j].stamp, h[j].content);
            && Plays(parse, INIT, labels)
            && After(parse, INIT, labels)
               == State(map[p := h], map[p := Entry(h[j].stamp, r, j, j)], [Returned(p, h[j].stamp, j, r, j, j)])
  {
    var early, late := h[..j + 1], h[j + 1..];
    var fill := [Stat(p), Lookup(0), Parse(0), Insert(0)];
    WritesPlay(parse, INIT, p, early);
    assert [] + early == early;
    FillPlays(parse, p, early);
    PlaysOn(parse, INIT, Writes(p, early), fill);
    labels := Writes(p, early) + fill;
    WritesPlay(parse, After(parse, INIT, labels), p, late);
    assert early + late == h && map[p := early][p := h] == map[p := h];
    PlaysOn(parse, INIT, labels, Writes(p, late));
    labels := labels + Writes(p, late);
  }

  /** If the newest version of a file has a stamp that an older one had, then some run with this very
      history returns the parse of the older one to a candidate of the newest. */
  lemma RecurringStampGoesStale(parse: Parser, p: Path, h: seq<Version>, j: nat)
    returns (states: seq<State>, labels: seq<Label>)
    requires h != [] && j < |h| - 1 && h[j].Present? && h[|h| - 1].Present? && h[j].stamp == h[|h| - 1].stamp
    ensures IsRun(parse, states, labels) && VersionsOf(states[|labels|], p) == h && |states[|labels|].calls| == 2
    ensures states[|labels|].calls[1]
         == Returned(p, h[j].stamp, |h| - 1, parse(p, h[j].stamp, h[j].content), j, j)
  {
    labels := FillAndWrite(parse, p, h, j);
    var s := After(parse, INIT, labels);
    SecondLookup(parse, s, p, h);
    PlaysOn(parse, INIT, labels, [Stat(p), Lookup(1)]);
    labels := labels + [Stat(p), Lookup(1)];
    states := StatesOf(parse, INIT, labels);
  }

  lemma SecondLookup(parse: Parser, s: State, p: Path, h: seq<Version>)
    requires h != [] && h[|h| - 1].Present? && s.files == map[p := h] && |s.calls| == 1
    requires p in s.cache && s.cache[p].stamp == h[|h| - 1].stamp
    ensures var e := s.cache[p]; var back := Returned(p, e.stamp, |h| - 1, e.parsed, e.statAt, e.readAt);
            && Plays(parse, s, [Stat(p), Lookup(1)])
            && After(parse, s, [Stat(p), Lookup(1)]) == s.(calls := s.calls + [back])
  {
    var e := s.cache[p];
    var s1 := s.(calls := s.calls + [Candidate(p, e.stamp, |h| - 1)]);
    var s2 := s.(calls := s.calls + [Returned(p, e.stamp, |h| - 1, e.parsed, e.statAt, e.readAt)]);
    assert Leads(parse, s, Stat(p), s1);
    assert s1.calls[1 := s2.calls[1]] == s2.calls;
    assert Leads(parse, s1, Lookup(1), s2);
    TwoSteps(parse, s, s1, s2, [Stat(p), Lookup(1)]);
  }

  /** In some run with this history, a candidate of the newest version is given something older. */
  ghost predicate CanGoStale(parse: Parser, p: Path, h: seq<Version>) {
    exists states: seq<State>, labels: seq<Label>, i: nat ::
      && IsRun(parse, states, labels) && VersionsOf(states[|labels|], p) == h
      && i < |states[|labels|].calls| && GoesStale(states[|labels|].calls[i], p, |h| - 1)
  }

  predicate GoesStale(c: Call, p: Path, at: int) {
    c.Returned? && c.path == p && c.at == at && c.readAt < at
  }

  /** So a history is safe from stale answers exactly when its newest stamp is a new one. */
  lemma NothingStaleIff(parse: Parser, p: Path, h: seq<Version>)
    requires h != [] && h[|h| - 1].Present?
    ensures !CanGoStale(parse, p, h) <==> NewStamp(h[..|h| - 1], h[|h| - 1])
  {
    if NewStamp(h[..|h| - 1], h[|h| - 1]) {
      forall states: seq<State>, labels: seq<Label>, i: nat |
        IsRun(parse, states, labels) && VersionsOf(states[|labels|], p) == h && i < |states[|labels|].calls|
        ensures !GoesStale(states[|labels|].calls[i], p, |h| - 1)
      {
        if states[|labels|].calls[i].Returned? {
          ReturnsNothingStale(parse, states, labels, |labels|, i);
        }
      }
    } else {
      var j :| 0 <= j < |h| - 1 && h[..|h| - 1][j].Present? && h[..|h| - 1][j].stamp == h[|h| - 1].stamp;
      var states, labels := RecurringStampGoesStale(parse, p, h, j);
      assert GoesStale(states[|labels|].calls[1], p, |h| - 1);
    }
  }

  /** `p` holds `a`, is listed, and is overwritten with `b` before it is read. */
  lemma RestoredBefore(parse: Parser, p: Path, a: Version, b: Version)
    requires a.Present?
    ensures var ls := [Write(p, a), Stat(p), Write(p, b), Lookup(0)];
            Plays(parse, INIT, ls) && After(parse, INIT, ls) == State(map[p := [a, b]], map[], [Missed(p, a.stamp, 0)])
  {
    var f1, f2, c := map[p := [a]], map[p := [a, b]], Candidate(p, a.stamp, 0);
    assert [] + [a] == [a] && [a] + [b] == [a, b];
    assert map[p := [a]][p := [a, b]] == map[p := [a, b]];
    FourSteps(parse, INIT, State(f1, map[], []), State(f1, map[], [c]), State(f2, map[], [c]),
              State(f2, map[], [Missed(p, a.stamp, 0)]), [Write(p, a), Stat(p), Write(p, b), Lookup(0)]);
  }

  /** Then it is read, the entry is filled, and `a` comes back and is listed. */
  lemma RestoredAfter(parse: Parser, p: Path, a: Version, b: Version)
    requires a.Present? && b.Present?
    ensures var s := State(map[p := [a, b]], map[], [Missed(p, a.stamp, 0)]);
            var r := parse(p, a.stamp, b.content);
            var ls := [Parse(0), Insert(0), Write(p, a), Stat(p)];
            Plays(parse, s, ls) && After(parse, s, ls)
              == State(map[p := [a, b, a]], map[p := Entry(a.stamp, r, 0, 1)],
                       [Returned(p, a.stamp, 0, r, 0, 1), Candidate(p, a.stamp, 2)])
  {
    var f2, f3, r := map[p := [a, b]], map[p := [a, b, a]], parse(p, a.stamp, b.content);
    var cache, c := map[p := Entry(a.stamp, r, 0, 1)], Returned(p, a.stamp, 0, r, 0, 1);
    assert [a, b] + [a] == [a, b, a];
    assert map[p := [a, b]][p := [a, b, a]] == map[p := [a, b, a]];
    FourSteps(parse, State(f2, map[], [Missed(p, a.stamp, 0)]), State(f2, map[], [Parsed(p, a.stamp, 0, r, 1)]),
              State(f2, cache, [c]), State(f3, cache, [c]), State(f3, cache, [c, Candidate(p, a.stamp, 2)]),
              [Parse(0), Insert(0), Write(p, a), Stat(p)]);
  }

  /** It is not enough that equal stamps mean equal contents: after a file is written while it is
      being parsed and then restored with its old stamp, a hit returns the parse of the content in
      between. */
  lemma RestoredStampReturnsOther(parse: Parser, p: Path, a: Version, b: Version)
    returns (states: seq<State>, labels: seq<Label>)
    requires a.Present? && b.Present? && a.stamp != b.stamp
    ensures IsRun(parse, states, labels)
    ensures labels == [Write(p, a), Stat(p), Write(p, b), Lookup(0)] + [Parse(0), Insert(0), Write(p, a), Stat(p)] + [Lookup(1)]
    ensures VersionsOf(states[9], p) == [a, b, a] && |states[9].calls| == 2
    ensures states[9].calls[1] == Returned(p, a.stamp, 2, parse(p, a.stamp, b.content), 0, 1)
  {
    var first, second := [Write(p, a), Stat(p), Write(p, b), Lookup(0)], [Parse(0), Insert(0), Write(p, a), Stat(p)];
    RestoredBefore(parse, p, a, b);
    RestoredAfter(parse, p, a, b);
    PlaysOn(parse, INIT, first, second);
    LastLookup(parse, After(parse, INIT, first + second), p, 1);
    PlaysOn(parse, INIT, first + second, [Lookup(1)]);
    labels := first + second + [Lookup(1)];
    states := StatesOf(parse, INIT, labels);
  }

  lemma LastLookup(parse: Parser, s: State, p: Path, i: nat)
    requires i < |s.calls| && s.calls[i].Candidate? && s.calls[i].path == p
    requires p in s.cache && s.cache[p].stamp == s.calls[i].stamp
    ensures var c, e := s.calls[i], s.cache[p];
            && Plays(parse, s, [Lookup(i)])
            && After(parse, s, [Lookup(i)])
               == s.(calls := s.calls[i := Returned(p, c.stamp, c.at, e.parsed, e.statAt, e.readAt)])
  {
    assert [Lookup(i)][1..] == [];
  }

  // ------------------------------------------------------------------- pruning

  const MAX_ENTRIES: nat := 20_000

  type Cache = map<Path, Entry>

  /** Each path once, oldest entry first. */
  ghost predicate ByAge(paths: seq<Path>, m: Cache) {
    && (forall i :: 0 <= i < |paths| ==> paths[i] in m)
    && (forall i, j :: 0 <= i < j < |paths| ==> paths[i] != paths[j])
    && (forall i, j :: 0 <= i < j < |paths| ==> m[paths[i]].stamp.mtime <= m[paths[j]].stamp.mtime)
  }

  function InsertByAge(paths: seq<Path>, p: Path, m: Cache): (r: seq<Path>)
    requires p in m && forall q <- paths :: q in m
    ensures |r| == |paths| + 1 && forall q :: q in r <==> q == p || q in paths
  {
    if paths == [] then [p]
    else
      var n := |paths| - 1;
      NextPrefix(paths, n);
      Whole(paths);
      if m[paths[n]].stamp.mtime <= m[p].stamp.mtime then paths + [p]
      else InsertByAge(paths[..n], p, m) + [paths[n]]
  }

  lemma AppendKeepsOrder(front: seq<Path>, q: Path, m: Cache)
    requires ByAge(front, m) && q in m && q !in front
    requires forall p <- front :: p in m && m[p].stamp.mtime <= m[q].stamp.mtime
    ensures ByAge(front + [q], m)
  {
  }

  lemma LastIsNewest(paths: seq<Path>, m: Cache)
    requires ByAge(paths, m) && paths != []
    ensures forall q <- paths :: q in m && m[q].stamp.mtime <= m[paths[|paths| - 1]].stamp.mtime
    ensures paths[|paths| - 1] !in paths[..|paths| - 1] && ByAge(paths[..|paths| - 1], m)
    ensures forall q <- paths[..|paths| - 1] :: q in paths
  {
  }

  lemma {:induction false} InsertKeepsOrder(paths: seq<Path>, p: Path, m: Cache)
    requires ByAge(paths, m) && p in m && p !in paths
    ensures ByAge(InsertByAge(paths, p, m), m)
  {
    if paths != [] {
      var n := |paths| - 1;
      var last := paths[n];
      LastIsNewest(paths, m);
      if m[last].stamp.mtime <= m[p].stamp.mtime {
        AppendKeepsOrder(paths, p, m);
      } else {
        InsertKeepsOrder(paths[..n], p, m);
        AppendKeepsOrder(InsertByAge(paths[..n], p, m), last, m);
      }
    }
  }

  /** The paths of a map, sorted by their entries' times; the order among equal times is arbitrary. */
  method SortPaths(m: Cache) returns (paths: seq<Path>)
    ensures ByAge(paths, m) && (forall p :: p in m <==> p in paths) && |paths| == |m|
  {
    paths := [];
    var left := m.Keys;
    while left != {}
      invariant left <= m.Keys && ByAge(paths, m)
      invariant forall p :: p in m <==> p in paths || p in left
      invariant forall p :: p in paths ==> p !in left
      invariant |paths| + |left| == |m|
      decreases left
    {
      var p :| p in left;
      InsertKeepsOrder(paths, p, m);
      paths := InsertByAge(paths, p, m);
      left := left - {p};
    }
  }

  method RemoveFirst(m: Cache, paths: seq<Path>, n: nat) returns (r: Cache)
    requires ByAge(paths, m) && n <= |paths|
    ensures |r| == |m| - n && r.Keys == m.Keys - (set p | p in paths[..n])
    ensures forall p :: p in r ==> r[p] == m[p]
  {
    r := m;
    for i := 0 to n
      invariant |r| == |m| - i && r.Keys == m.Keys - (set p | p in paths[..i])
      invariant forall p :: p in r ==> r[p] == m[p]
    {
      NextPrefix(paths, i);
      assert paths[i] !in paths[..i];
      r := r - {paths[i]};
    }
  }

  /** What is taken from the front of the sorted paths is no newer than what stays. */
  lemma FrontIsOldest(paths: seq<Path>, m: Cache, n: nat, p: Path, q: Path)
    requires ByAge(paths, m) && n <= |paths| && p in paths[..n] && q in paths && q !in paths[..n]
    ensures p in m && q in m && m[p].stamp.mtime <= m[q].stamp.mtime
  {
    var i :| 0 <= i < n && paths[i] == p;
    var j :| 0 <= j < |paths| && paths[j] == q;
    forall k | 0 <= k < n ensures paths[k] != q {
      assert paths[..n][k] == paths[k];
    }
  }

  method RemoveOldest(m: Cache, n: nat) returns (r: Cache)
    requires n <= |m|
    ensures |r| == |m| - n && r.Keys <= m.Keys && forall p :: p in r ==> r[p] == m[p]
    ensures forall p, q :: p in m && p !in r && q in r ==> m[p].stamp.mtime <= m[q].stamp.mtime
  {
    var paths := SortPaths(m);
    r := RemoveFirst(m, paths, n);
    forall p, q | p in m && p !in r && q in r ensures m[p].stamp.mtime <= m[q].stamp.mtime {
      FrontIsOldest(paths, m, n, p, q);
    }
  }

  class SessionParseCache {
    var entries: Cache

    constructor ()
      ensures entries == map[]
    {
      entries := map[];
    }

    method Prune(listed: set<Path>)
      modifies this
      ensures entries.Keys <= old(entries).Keys * listed
      ensures forall p :: p in entries ==> entries[p] == old(entries)[p]
      ensures |entries| <= 20_000
      ensures |old(entries).Keys * listed| <= 20_000 ==> entries.Keys == old(entries).Keys * listed
      ensures |old(entries).Keys * listed| > 20_000 ==> |entries| == 20_000
      ensures forall p, q :: p in old(entries) && p in listed && p !in entries && q in entries
                ==> old(entries)[p].stamp.mtime <= entries[q].stamp.mtime
    {
      var kept := map p <- entries | p in listed :: entries[p];
      assert kept.Keys == entries.Keys * listed;
      entries := kept;
      if |kept| > MAX_ENTRIES {
        entries := RemoveOldest(kept, |kept| - MAX_ENTRIES);
      }
    }
  }

  /** What `Prune` does to the entries is a prune step of the machine above. */
  lemma PruneIsAStep(parse: Parser, s: State, entries: Cache)
    requires entries.Keys <= s.cache.Keys && forall p :: p in entries ==> entries[p] == s.cache[p]
    ensures Next(parse, s, Prune(entries.Keys)) == s.(cache := entries)
  {
    assert (map p <- s.cache | p in entries.Keys :: s.cache[p]) == entries;
  }

  /** Nothing holds the surroundings back: files are written and removed and entries pruned at any time, a
      file that is there can be listed, and a call that has missed reads whatever the file holds then,
      or that it is gone. */
  lemma SurroundingsAreFree(parse: Parser, s: State, p: Path, v: Version, i: nat, keep: set<Path>)
    ensures Enabled(s, Write(p, v)) && Enabled(s, Prune(keep))
    ensures p in s.files && s.files[p] != [] && s.files[p][|s.files[p]| - 1].Present? ==> Enabled(s, Stat(p))
    ensures i < |s.calls| && s.calls[i].Missed? && s.calls[i].path in s.files && s.files[s.calls[i].path] != [] ==>
              var now := s.files[s.calls[i].path][|s.files[s.calls[i].path]| - 1];
              && Enabled(s, Parse(i)) && Next(parse, s, Parse(i)).calls[i].Parsed?
              && Next(parse, s, Parse(i)).calls[i].parsed
                 == if now.Present? then parse(s.calls[i].path, s.calls[i].stamp, now.content) else None
    ensures i < |s.calls| && s.calls[i].Parsed? ==> Enabled(s, Insert(i))
    ensures i < |s.calls| && s.calls[i].Candidate? ==> Enabled(s, Lookup(i))
  {
  }
}
