/** Listing by project (`list_grouped_project_sessions`, `list_project_sessions` and
    `normalize_project_path` in crates/host-core/src/coding_sessions.rs). */
module ProjectPaging {
  import opened Basics
  import opened SessionOrder
  import opened SessionPaging

  /** What parsing a session file yields; the other fields play no part here. */
  datatype Session = Session(id: string, project: string)

  type Parser = Candidate -> Option<Session>

  // -------------------------------------------------------------- project paths

  /** `path.replace('\\', "/")`. */
  function Slashes(path: string): string {
    if path == [] then [] else [if path[0] == '\\' then '/' else path[0]] + Slashes(path[1..])
  }

  /** `trim_end_matches('/')`. */
  function TrimEnd(path: string): (r: string)
    ensures r <= path && (r != [] ==> r[|r| - 1] != '/')
    ensures forall i :: |r| <= i < |path| ==> path[i] == '/'
  {
    if path != [] && path[|path| - 1] == '/' then TrimEnd(path[..|path| - 1]) else path
  }

  function Normalize(path: string): string {
    TrimEnd(Slashes(path))
  }

  lemma {:induction false} SlashesFixed(path: string)
    requires '\\' !in path
    ensures Slashes(path) == path
  {
    if path != [] {
      SlashesFixed(path[1..]);
    }
  }

  lemma {:induction false} NoBackslash(path: string)
    ensures '\\' !in Slashes(path)
  {
    if path != [] {
      NoBackslash(path[1..]);
    }
  }

  lemma NormalizeIdempotent(path: string)
    ensures Normalize(Normalize(path)) == Normalize(path)
  {
    NoBackslash(path);
    SlashesFixed(Normalize(path));
  }

  /** The filter a request's `project_path` turns into. */
  function ProjectFilter(path: Option<string>): Option<string> {
    if path.None? || Normalize(path.value) == [] then None else Some(Normalize(path.value))
  }

  /** A group's own path selects that group again, unless it is the empty one. */
  lemma GroupPathSelectsGroup(s: Session)
    ensures ProjectFilter(Some(Normalize(s.project)))
            == if Normalize(s.project) == [] then None else Some(Normalize(s.project))
  {
    NormalizeIdempotent(s.project);
  }

  lemma {:induction false} SlashesAt(path: string)
    ensures |Slashes(path)| == |path|
    ensures forall i :: 0 <= i < |path| ==> Slashes(path)[i] == if path[i] == '\\' then '/' else path[i]
  {
    if path != [] {
      SlashesAt(path[1..]);
    }
  }

  predicate IsSlash(c: char) {
    c == '/' || c == '\\'
  }

  /** Normalising turns backslashes into slashes and drops the slashes of either kind at the end, all
      of them, and nothing else. */
  lemma NormalizeDoes(path: string)
    ensures var r := Normalize(path);
            && |r| <= |path| && (r != [] ==> !IsSlash(path[|r| - 1]))
            && (forall i :: 0 <= i < |r| ==> r[i] == if path[i] == '\\' then '/' else path[i])
            && (forall i :: |r| <= i < |path| ==> IsSlash(path[i]))
  {
    SlashesAt(path);
  }

  /** A request selects no project exactly if it names none or nothing but slashes. */
  lemma FilterIsNoneIff(path: Option<string>)
    ensures ProjectFilter(path).None? <==> path.None? || forall i :: 0 <= i < |path.value| ==> IsSlash(path.value[i])
    ensures ProjectFilter(path).Some? ==> ProjectFilter(path).value == Normalize(path.value)
  {
    if path.Some? {
      NormalizeDoes(path.value);
      if Normalize(path.value) != [] {
        var i := |Normalize(path.value)| - 1;
        assert !IsSlash(path.value[i]);
      }
    }
  }

  // ------------------------------------------------------------ project listings

  predicate Belongs(c: Candidate, parse: Parser, project: string) {
    parse(c).Some? && Normalize(parse(c).value.project) == project
  }

  /** A project's full listing: its parseable files, in listing order. */
  function OfProject(l: seq<Candidate>, parse: Parser, project: string): seq<Candidate> {
    if l == [] then []
    else
      var c := l[|l| - 1];
      OfProject(l[..|l| - 1], parse, project) + if Belongs(c, parse, project) then [c] else []
  }

  lemma {:induction false} AfterAppend(a: seq<Candidate>, b: seq<Candidate>, cursor: Option<Cursor>)
    ensures After(a + b, cursor) == After(a, cursor) + After(b, cursor)
  {
    if a == [] {
      assert a + b == b;
    } else {
      assert (a + b)[1..] == a[1..] + b;
      AfterAppend(a[1..], b, cursor);
      Associative(if IsAfter(a[0], cursor) then [a[0]] else [], After(a[1..], cursor), After(b, cursor));
    }
  }

  function FirstOf(rest: seq<Candidate>, limit: nat): (r: seq<Candidate>)
    ensures |r| == if |rest| < limit then |rest| else limit
  {
    if |rest| < limit then rest else rest[..limit]
  }

  function LastOf(rest: seq<Candidate>, limit: nat): Option<Candidate> {
    var first := FirstOf(rest, limit);
    if first == [] then None else Some(first[|first| - 1])
  }

  function NextOf(rest: seq<Candidate>, limit: nat): Option<Cursor> {
    if |rest| > limit > 0 then Some(Key(rest[limit - 1])) else None
  }

  /** What one more file after the cursor changes. */
  lemma OneMore(rest: seq<Candidate>, c: Candidate, limit: nat, parse: Parser)
    requires limit >= 1 && parse(c).Some?
    ensures |rest| < limit ==>
              && Shown(FirstOf(rest + [c], limit), parse) == Shown(FirstOf(rest, limit), parse) + [parse(c).value]
              && LastOf(rest + [c], limit) == Some(c) && NextOf(rest + [c], limit).None?
    ensures |rest| >= limit ==>
              && FirstOf(rest + [c], limit) == FirstOf(rest, limit)
              && LastOf(rest, limit).Some? && NextOf(rest + [c], limit) == Some(Key(LastOf(rest, limit).value))
  {
    if |rest| < limit {
      assert FirstOf(rest + [c], limit) == rest + [c];
      assert (rest + [c])[..|rest|] == rest;
    }
  }

  lemma {:induction false} ShownLength(l: seq<Candidate>, parse: Parser)
    requires forall c <- l :: parse(c).Some?
    ensures |Shown(l, parse)| == |l|
  {
    if l != [] {
      ShownLength(l[..|l| - 1], parse);
    }
  }

  lemma {:induction false} OfProjectBelongs(l: seq<Candidate>, parse: Parser, project: string, c: Candidate)
    ensures c in OfProject(l, parse, project) <==> c in l && Belongs(c, parse, project)
  {
    if l != [] {
      var n := |l| - 1;
      assert c in l <==> c in l[..n] || c == l[n];
      OfProjectBelongs(l[..n], parse, project, c);
    }
  }

  lemma ProjectParses(l: seq<Candidate>, parse: Parser, project: string)
    ensures forall c <- OfProject(l, parse, project) :: parse(c).Some?
  {
    forall c | c in OfProject(l, parse, project) ensures parse(c).Some? {
      OfProjectBelongs(l, parse, project, c);
    }
  }

  lemma PageByFirst(m: seq<Candidate>, cursor: Option<Cursor>, limit: nat)
    requires limit >= 1
    ensures var rest := After(m, cursor); PageOf(m, cursor, limit) == Page(FirstOf(rest, limit), NextOf(rest, limit))
  {
    var rest := After(m, cursor);
    assert |rest| == limit ==> rest[..limit] == rest;
  }

  /** The loop's variables, as a function of the project's files seen so far. */
  datatype Progress = Progress(total: nat, sessions: seq<Session>, last: Option<Candidate>, next: Option<Cursor>)

  ghost function ProgressOf(m: seq<Candidate>, parse: Parser, cursor: Option<Cursor>, limit: nat): Progress {
    var rest := After(m, cursor);
    Progress(|m|, Shown(FirstOf(rest, limit), parse), LastOf(rest, limit), NextOf(rest, limit))
  }

  lemma ProgressStep(m: seq<Candidate>, c: Candidate, parse: Parser, cursor: Option<Cursor>, limit: nat)
    requires limit >= 1 && parse(c).Some? && forall d <- m :: parse(d).Some?
    ensures var p, p' := ProgressOf(m, parse, cursor, limit), ProgressOf(m + [c], parse, cursor, limit);
            && p'.total == p.total + 1
            && (if !IsAfter(c, cursor) then p' == p.(total := p.total + 1)
                else if |p.sessions| < limit
                then p' == Progress(p.total + 1, p.sessions + [parse(c).value], Some(c), None) && p.next.None?
                else p.last.Some? && p' == p.(total := p.total + 1, next := Some(Key(p.last.value)))
                     && (p.next.Some? ==> p.next == p'.next))
  {
    var rest := After(m, cursor);
    AfterAppend(m, [c], cursor);
    assert After([c], cursor) == if IsAfter(c, cursor) then [c] else [];
    if IsAfter(c, cursor) {
      OneMore(rest, c, limit, parse);
      forall d | d in FirstOf(rest, limit) ensures parse(d).Some? {
        AfterMember(m, cursor, d);
      }
      ShownLength(FirstOf(rest, limit), parse);
    } else {
      assert After(m + [c], cursor) == rest;
    }
  }

  method ListProjectSessions(l: seq<Candidate>, parse: Parser, cursor: Option<Cursor>, limit: nat, project: string)
    returns (sessions: seq<Session>, total: nat, next: Option<Cursor>)
    requires limit >= 1
    ensures total == |OfProject(l, parse, project)|
    ensures var page := PageOf(OfProject(l, parse, project), cursor, limit);
            sessions == Shown(page.candidates, parse) && next == page.next
  {
    total, sessions, next := 0, [], None;
    var last: Option<Candidate> := None;
    ghost var m: seq<Candidate> := [];
    for i := 0 to |l|
      invariant m == OfProject(l[..i], parse, project)
      invariant Progress(total, sessions, last, next) == ProgressOf(m, parse, cursor, limit)
    {
      NextPrefix(l, i);
      var parsed := parse(l[i]);
      if parsed.None? || Normalize(parsed.value.project) != project {
        continue;
      }
      ProjectParses(l[..i], parse, project);
      ProgressStep(m, l[i], parse, cursor, limit);
      m := m + [l[i]];
      total := total + 1;
      if !IsAfter(l[i], cursor) {
        continue;
      }
      if |sessions| < limit {
        last := Some(l[i]);
        sessions := sessions + [parsed.value];
      } else if next.None? {
        next := if last.Some? then Some(Key(last.value)) else None;
      }
    }
    assert l[..|l|] == l;
    PageByFirst(m, cursor, limit);
  }

  // ------------------------------------------------------------ grouped listing

  datatype Group = Group(total: nat, lastActivity: int, sessions: seq<Session>, last: Option<Candidate>)

  /** `last_activity_micros` starts at 0. */
  function LastActivity(m: seq<Candidate>): int {
    if m == [] then 0
    else
      var before := LastActivity(m[..|m| - 1]);
      if m[|m| - 1].mtime > before then m[|m| - 1].mtime else before
  }

  function GroupOf(m: seq<Candidate>, parse: Parser, limit: nat): Group {
    Group(|m|, LastActivity(m), Shown(FirstOf(m, limit), parse), LastOf(m, limit))
  }

  /** The `next_cursor` reported for a group. */
  function GroupCursor(g: Group): Option<Cursor> {
    if g.total > |g.sessions| && g.last.Some? then Some(Key(g.last.value)) else None
  }

  ghost predicate HasProject(l: seq<Candidate>, parse: Parser, project: string) {
    exists i :: 0 <= i < |l| && Belongs(l[i], parse, project)
  }

  lemma GroupStep(m: seq<Candidate>, c: Candidate, parse: Parser, limit: nat)
    requires limit >= 1 && parse(c).Some? && forall d <- m :: parse(d).Some?
    ensures var g := GroupOf(m, parse, limit);
            GroupOf(m + [c], parse, limit) ==
              Group(g.total + 1, if c.mtime > g.lastActivity then c.mtime else g.lastActivity,
                    if |g.sessions| < limit then g.sessions + [parse(c).value] else g.sessions,
                    if |g.sessions| < limit then Some(c) else g.last)
  {
    OneMore(m, c, limit, parse);
    ShownLength(FirstOf(m, limit), parse);
    assert (m + [c])[..|m|] == m;
  }

  lemma NoFiles(l: seq<Candidate>, parse: Parser, project: string)
    requires !HasProject(l, parse, project)
    ensures OfProject(l, parse, project) == []
  {
    if l != [] {
      assert !Belongs(l[|l| - 1], parse, project);
      assert forall i :: 0 <= i < |l| - 1 ==> l[..|l| - 1][i] == l[i];
      NoFiles(l[..|l| - 1], parse, project);
    }
  }

  lemma ProjectOfNext(l: seq<Candidate>, i: nat, parse: Parser, p: string)
    requires i < |l|
    ensures HasProject(l[..i + 1], parse, p) <==> HasProject(l[..i], parse, p) || Belongs(l[i], parse, p)
  {
    if HasProject(l[..i], parse, p) {
      var k :| 0 <= k < i && Belongs(l[..i][k], parse, p);
      assert l[..i + 1][k] == l[..i][k];
    }
    if Belongs(l[i], parse, p) {
      assert l[..i + 1][i] == l[i];
    }
    if HasProject(l[..i + 1], parse, p) && !Belongs(l[i], parse, p) {
      var k :| 0 <= k < i + 1 && Belongs(l[..i + 1][k], parse, p);
      assert l[..i][k] == l[..i + 1][k];
    }
  }

  /** `groups` has the project exactly if `l` does, and then describes it. */
  ghost predicate DescribesOne(groups: map<string, Group>, l: seq<Candidate>, parse: Parser, limit: nat, project: string) {
    && (project in groups <==> HasProject(l, parse, project))
    && (project in groups ==> groups[project] == GroupOf(OfProject(l, parse, project), parse, limit))
  }

  /** `groups` describes exactly the projects of `l`. */
  ghost predicate Describes(groups: map<string, Group>, l: seq<Candidate>, parse: Parser, limit: nat) {
    forall p :: DescribesOne(groups, l, parse, limit, p)
  }

  lemma OfProjectNext(l: seq<Candidate>, i: nat, parse: Parser, p: string)
    requires i < |l|
    ensures OfProject(l[..i + 1], parse, p)
            == if Belongs(l[i], parse, p) then OfProject(l[..i], parse, p) + [l[i]] else OfProject(l[..i], parse, p)
    ensures HasProject(l[..i + 1], parse, p) <==> HasProject(l[..i], parse, p) || Belongs(l[i], parse, p)
  {
    NextPrefix(l, i);
    ProjectOfNext(l, i, parse, p);
  }

  lemma SkippedFile(groups: map<string, Group>, l: seq<Candidate>, i: nat, parse: Parser, limit: nat)
    requires i < |l| && Describes(groups, l[..i], parse, limit) && parse(l[i]).None?
    ensures Describes(groups, l[..i + 1], parse, limit)
  {
    var seen := l[..i + 1];
    forall p ensures DescribesOne(groups, seen, parse, limit, p) {
      assert DescribesOne(groups, l[..i], parse, limit, p);
      OfProjectNext(l, i, parse, p);
    }
  }

  predicate Updated(groups: map<string, Group>, c: Candidate, parse: Parser, limit: nat, g: Group, key: string)
    requires parse(c).Some?
  {
    var before := if key in groups then groups[key] else Group(0, 0, [], None);
    g == Group(before.total + 1, if c.mtime > before.lastActivity then c.mtime else before.lastActivity,
               if |before.sessions| < limit then before.sessions + [parse(c).value] else before.sessions,
               if |before.sessions| < limit then Some(c) else before.last)
  }

  lemma NoGroup(parse: Parser, limit: nat)
    ensures GroupOf([], parse, limit) == Group(0, 0, [], None)
  {
    assert FirstOf([], limit) == [];
  }

  lemma GroupGrows(groups: map<string, Group>, l: seq<Candidate>, i: nat, parse: Parser, limit: nat, g: Group, key: string)
    requires i < |l| && limit >= 1 && DescribesOne(groups, l[..i], parse, limit, key)
    requires Belongs(l[i], parse, key) && Updated(groups, l[i], parse, limit, g, key)
    ensures g == GroupOf(OfProject(l[..i + 1], parse, key), parse, limit)
  {
    var seen := l[..i];
    var m := OfProject(seen, parse, key);
    if key !in groups {
      NoFiles(seen, parse, key);
      NoGroup(parse, limit);
    }
    ProjectParses(seen, parse, key);
    GroupStep(m, l[i], parse, limit);
    assert g == GroupOf(m + [l[i]], parse, limit);
    OfProjectNext(l, i, parse, key);
  }

  lemma CountedFile(groups: map<string, Group>, l: seq<Candidate>, i: nat, parse: Parser, limit: nat, g: Group)
    requires i < |l| && limit >= 1 && Describes(groups, l[..i], parse, limit) && parse(l[i]).Some?
    requires Updated(groups, l[i], parse, limit, g, Normalize(parse(l[i]).value.project))
    ensures Describes(groups[Normalize(parse(l[i]).value.project) := g], l[..i + 1], parse, limit)
  {
    var key := Normalize(parse(l[i]).value.project);
    var groups' := groups[key := g];
    var seen := l[..i + 1];
    forall p ensures DescribesOne(groups', seen, parse, limit, p) {
      assert DescribesOne(groups, l[..i], parse, limit, p);
      OfProjectNext(l, i, parse, p);
      if p == key {
        GroupGrows(groups, l, i, parse, limit, g, key);
      }
    }
  }

  method CollectGroups(l: seq<Candidate>, parse: Parser, limit: nat)
    returns (total: nat, groups: map<string, Group>)
    requires limit >= 1
    ensures total == |Shown(l, parse)| && Describes(groups, l, parse, limit)
  {
    total, groups := 0, map[];
    for i := 0 to |l|
      invariant total == |Shown(l[..i], parse)| && Describes(groups, l[..i], parse, limit)
    {
      NextPrefix(l, i);
      var parsed := parse(l[i]);
      if parsed.None? {
        SkippedFile(groups, l, i, parse, limit);
        continue;
      }
      total := total + 1;
      var key := Normalize(parsed.value.project);
      var g := if key in groups then groups[key] else Group(0, 0, [], None);
      g := g.(total := g.total + 1, lastActivity := if l[i].mtime > g.lastActivity then l[i].mtime else g.lastActivity);
      if |g.sessions| < limit {
        g := g.(last := Some(l[i]), sessions := g.sessions + [parsed.value]);
      }
      CountedFile(groups, l, i, parse, limit, g);
      groups := groups[key := g];
    }
    assert l[..|l|] == l;
  }

  // ------------------------------------------------------- the order of groups

  /** The order the groups are sorted by: latest activity first, then by path; the group without a
      path comes last. */
  predicate GroupBefore(groups: map<string, Group>, p: string, q: string)
    requires p in groups && q in groups
  {
    if p == "" then false
    else if q == "" then true
    else if groups[p].lastActivity != groups[q].lastActivity
    then groups[p].lastActivity > groups[q].lastActivity
    else TextLess(p, q)
  }

  lemma GroupBeforeTotal(groups: map<string, Group>, p: string, q: string)
    requires p in groups && q in groups && p != q
    ensures GroupBefore(groups, p, q) <==> !GroupBefore(groups, q, p)
  {
    TextLessTotal(p, q);
  }

  lemma GroupBeforeTransitive(groups: map<string, Group>, p: string, q: string, r: string)
    requires p in groups && q in groups && r in groups && GroupBefore(groups, p, q) && GroupBefore(groups, q, r)
    ensures GroupBefore(groups, p, r)
  {
    if TextLess(p, q) && TextLess(q, r) {
      TextLessTransitive(p, q, r);
    }
  }

  ghost predicate InOrder(order: seq<string>, groups: map<string, Group>) {
    && (forall p <- order :: p in groups)
    && (forall i, j :: 0 <= i < j < |order| ==> GroupBefore(groups, order[i], order[j]))
  }

  /** In plain words: later activity first, equal ones by path, and the group without a path last. */
  lemma LatestActivityFirst(order: seq<string>, groups: map<string, Group>, i: nat, j: nat)
    requires InOrder(order, groups) && i < j < |order|
    ensures order[i] != ""
    ensures order[j] != "" ==>
              || groups[order[i]].lastActivity > groups[order[j]].lastActivity
              || (groups[order[i]].lastActivity == groups[order[j]].lastActivity && TextLess(order[i], order[j]))
  {
    assert GroupBefore(groups, order[i], order[j]);
  }

  /** A group's latest activity is that of its newest file, and never before the epoch. */
  lemma {:induction false} LastActivityIsMax(m: seq<Candidate>)
    ensures LastActivity(m) >= 0 && forall c <- m :: c.mtime <= LastActivity(m)
    ensures LastActivity(m) == 0 || exists c :: c in m && c.mtime == LastActivity(m)
  {
    if m != [] {
      var n := |m| - 1;
      LastActivityIsMax(m[..n]);
      assert forall c :: c in m <==> c in m[..n] || c == m[n];
    }
  }

  lemma InOrderDistinct(order: seq<string>, groups: map<string, Group>)
    requires InOrder(order, groups)
    ensures Distinct(order)
  {
    forall i, j | 0 <= i < j < |order| ensures order[i] != order[j] {
      assert GroupBefore(groups, order[i], order[j]);
      TextLessTotal(order[i], order[j]);
    }
  }

  lemma OrderAppend(order: seq<string>, p: string, groups: map<string, Group>)
    requires InOrder(order, groups) && p in groups && forall q <- order :: GroupBefore(groups, q, p)
    ensures InOrder(order + [p], groups)
  {
  }

  lemma BeforeLast(order: seq<string>, p: string, groups: map<string, Group>)
    requires InOrder(order, groups) && order != [] && p in groups && GroupBefore(groups, order[|order| - 1], p)
    ensures forall q <- order :: GroupBefore(groups, q, p)
  {
    var n := |order| - 1;
    forall i | 0 <= i < |order| ensures GroupBefore(groups, order[i], p) {
      if i < n {
        assert GroupBefore(groups, order[i], order[n]);
        GroupBeforeTransitive(groups, order[i], order[n], p);
      }
    }
  }

  function InsertGroup(order: seq<string>, p: string, groups: map<string, Group>): (r: seq<string>)
    requires p in groups && forall q <- order :: q in groups
    ensures forall q :: q in r <==> q == p || q in order
  {
    if order == [] then [p]
    else
      var n := |order| - 1;
      NextPrefix(order, n);
      Whole(order);
      if GroupBefore(groups, order[n], p) then order + [p] else InsertGroup(order[..n], p, groups) + [order[n]]
  }

  lemma {:induction false} InsertKeepsOrder(order: seq<string>, p: string, groups: map<string, Group>)
    requires InOrder(order, groups) && p in groups && p !in order
    ensures InOrder(InsertGroup(order, p, groups), groups)
  {
    if order != [] {
      var n := |order| - 1;
      var last, front := order[n], order[..n];
      if GroupBefore(groups, last, p) {
        BeforeLast(order, p, groups);
        OrderAppend(order, p, groups);
      } else {
        GroupBeforeTotal(groups, last, p);
        InsertKeepsOrder(front, p, groups);
        forall q | q in InsertGroup(front, p, groups) ensures GroupBefore(groups, q, last) {
          assert q != p ==> q in front;
        }
        OrderAppend(InsertGroup(front, p, groups), last, groups);
      }
    }
  }

  method SortGroups(groups: map<string, Group>) returns (order: seq<string>)
    ensures InOrder(order, groups) && forall p :: p in groups <==> p in order
  {
    order := [];
    var left := groups.Keys;
    while left != {}
      invariant left <= groups.Keys && InOrder(order, groups)
      invariant forall p :: p in groups <==> p in order || p in left
      invariant forall p :: p in order ==> p !in left
      decreases left
    {
      var p :| p in left;
      InsertKeepsOrder(order, p, groups);
      order := InsertGroup(order, p, groups);
      left := left - {p};
    }
  }

  function SessionsOf(order: seq<string>, groups: map<string, Group>): seq<Session>
    requires forall p <- order :: p in groups
  {
    if order == [] then [] else SessionsOf(order[..|order| - 1], groups) + groups[order[|order| - 1]].sessions
  }

  method ListGrouped(l: seq<Candidate>, parse: Parser, limit: nat)
    returns (total: nat, order: seq<string>, groups: map<string, Group>, sessions: seq<Session>)
    requires limit >= 1
    ensures total == |Shown(l, parse)| && Describes(groups, l, parse, limit)
    ensures InOrder(order, groups) && forall p :: p in order <==> HasProject(l, parse, p)
    ensures sessions == SessionsOf(order, groups) && TotalOver(order, l, parse) == total
  {
    total, groups := CollectGroups(l, parse, limit);
    order := SortGroups(groups);
    forall p ensures p in order <==> HasProject(l, parse, p) {
      assert DescribesOne(groups, l, parse, limit, p);
    }
    InOrderDistinct(order, groups);
    GroupTotalsAddUp(order, l, parse);
    sessions := [];
    for i := 0 to |order|
      invariant sessions == SessionsOf(order[..i], groups)
    {
      NextPrefix(order, i);
      sessions := sessions + groups[order[i]].sessions;
    }
    Whole(order);
  }

  // ------------------------------------------------------------------- results

  lemma {:induction false} ShownAppend(a: seq<Candidate>, b: seq<Candidate>, parse: Parser)
    ensures Shown(a + b, parse) == Shown(a, parse) + Shown(b, parse)
  {
    if b == [] {
      assert a + b == a;
    } else {
      assert (a + b)[..|a + b| - 1] == a + b[..|b| - 1];
      ShownAppend(a, b[..|b| - 1], parse);
    }
  }

  lemma {:induction false} OfProjectSorted(l: seq<Candidate>, parse: Parser, project: string)
    requires SortedByKey(l)
    ensures SortedByKey(OfProject(l, parse, project))
  {
    if l != [] {
      var n := |l| - 1;
      OfProjectSorted(l[..n], parse, project);
      forall c | c in OfProject(l[..n], parse, project) ensures KeyLess(Key(c), Key(l[n])) {
        OfProjectBelongs(l[..n], parse, project, c);
        var i :| 0 <= i < n && l[..n][i] == c;
        assert l[i] == c;
      }
    }
  }

  lemma GroupLoads(l: seq<Candidate>, parse: Parser, project: string, limit: nat)
    requires limit >= 1
    ensures var m := OfProject(l, parse, project); var g := GroupOf(m, parse, limit);
            && |g.sessions| == (if |m| < limit then |m| else limit)
            && GroupCursor(g) == if |m| > limit then CursorAt(m, limit) else None
  {
    var m := OfProject(l, parse, project);
    forall c | c in FirstOf(m, limit) ensures parse(c).Some? { OfProjectBelongs(l, parse, project, c); }
    ShownLength(FirstOf(m, limit), parse);
  }

  /** A group's slice and the project pages that start at its cursor make up the project's full
      listing, with nothing twice and nothing missing, whatever the page limits. */
  lemma GroupHandsOver(l: seq<Candidate>, parse: Parser, project: string, limit: nat, limits: nat -> Limit)
    requires SortedByKey(l) && limit >= 1
    ensures var m := OfProject(l, parse, project); var g := GroupOf(m, parse, limit);
            && (GroupCursor(g).None? ==> g.sessions == Shown(m, parse))
            && (GroupCursor(g).Some? ==>
                  g.sessions + Shown(Follow(m, GroupCursor(g), limits, 0), parse) == Shown(m, parse))
  {
    var m := OfProject(l, parse, project);
    GroupLoads(l, parse, project, limit);
    if |m| > limit {
      OfProjectSorted(l, parse, project);
      FollowIsSuffix(m, limit, limits, 0);
      ShownAppend(m[..limit], m[limit..], parse);
      SplitAt(m, limit);
    } else {
      Whole(m);
    }
  }

  /** The totals of these groups. */
  function TotalOver(projects: seq<string>, l: seq<Candidate>, parse: Parser): nat {
    if projects == [] then 0 else |OfProject(l, parse, projects[0])| + TotalOver(projects[1..], l, parse)
  }

  lemma {:induction false} TotalGrows(projects: seq<string>, l: seq<Candidate>, parse: Parser)
    requires l != [] && Distinct(projects)
    ensures TotalOver(projects, l, parse) == TotalOver(projects, l[..|l| - 1], parse)
              + if exists i :: 0 <= i < |projects| && Belongs(l[|l| - 1], parse, projects[i]) then 1 else 0
  {
    var c := l[|l| - 1];
    if projects != [] {
      TotalGrows(projects[1..], l, parse);
      assert forall i :: 0 <= i < |projects[1..]| ==> projects[1..][i] == projects[i + 1];
      if exists i :: 0 <= i < |projects[1..]| && Belongs(c, parse, projects[1..][i]) {
        var i :| 0 <= i < |projects[1..]| && Belongs(c, parse, projects[1..][i]);
        assert Belongs(c, parse, projects[i + 1]) && projects[0] != projects[i + 1];
      } else if exists i :: 0 <= i < |projects| && Belongs(c, parse, projects[i]) {
        var i :| 0 <= i < |projects| && Belongs(c, parse, projects[i]);
        forall k | 0 < k < |projects| ensures !Belongs(c, parse, projects[k]) {
          assert projects[1..][k - 1] == projects[k];
        }
      }
    }
  }

  /** Every shown session is counted in exactly one group: the group totals add up to the total. */
  lemma {:induction false} GroupTotalsAddUp(projects: seq<string>, l: seq<Candidate>, parse: Parser)
    requires Distinct(projects) && forall p :: HasProject(l, parse, p) ==> p in projects
    ensures TotalOver(projects, l, parse) == |Shown(l, parse)|
  {
    if l == [] {
      NoTotal(projects, parse);
    } else {
      var n := |l| - 1;
      forall p | HasProject(l[..n], parse, p) ensures p in projects {
        ProjectOfNext(l, n, parse, p);
        assert l[..n + 1] == l;
      }
      GroupTotalsAddUp(projects, l[..n], parse);
      TotalGrows(projects, l, parse);
      if parse(l[n]).Some? {
        var p := Normalize(parse(l[n]).value.project);
        assert Belongs(l[n], parse, p) && HasProject(l, parse, p);
        var i :| 0 <= i < |projects| && projects[i] == p;
        assert Belongs(l[n], parse, projects[i]);
      }
    }
  }

  lemma {:induction false} NoTotal(projects: seq<string>, parse: Parser)
    ensures TotalOver(projects, [], parse) == 0
  {
    if projects != [] {
      NoTotal(projects[1..], parse);
    }
  }
}
