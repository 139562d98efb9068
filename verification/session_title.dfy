/** Session titles (`normalize_title` in crates/host-core/src/coding_sessions.rs). The limits mix
    units: the length check and the search for a space count bytes, the rest counts characters. */
module SessionTitle {
  import opened Basics
  import Utf8

  const TITLE_MAX_CHARS: nat := 80

  /** `char::is_whitespace`. */
  predicate IsSpace(c: char) {
    var n := c as int;
    9 <= n <= 13 || n == 0x20 || n == 0x85 || n == 0xA0 || n == 0x1680 || 0x2000 <= n <= 0x200A
    || n == 0x2028 || n == 0x2029 || n == 0x202F || n == 0x205F || n == 0x3000
  }

  /** The number of bytes of a character in UTF-8 (section 3 of RFC 3629). */
  function Bytes(c: char): (n: nat)
    ensures 1 <= n <= 4
  {
    var v := c as int;
    if v < 0x80 then 1 else if v < 0x800 then 2 else if v < 0x1_0000 then 3 else 4
  }

  function ByteLen(s: string): (n: nat)
    ensures n >= |s|
  {
    if s == [] then 0 else Bytes(s[0]) + ByteLen(s[1..])
  }

  // ---------------------------------------------------------------- collapsing

  /** `replace('\n', " ")`. */
  function NewlinesOut(s: string): string {
    if s == [] then [] else [if s[0] == '\n' then ' ' else s[0]] + NewlinesOut(s[1..])
  }

  function WordLen(s: string): (n: nat)
    ensures n <= |s| && (forall i :: 0 <= i < n ==> !IsSpace(s[i])) && (n < |s| ==> IsSpace(s[n]))
  {
    if s == [] || IsSpace(s[0]) then 0 else 1 + WordLen(s[1..])
  }

  /** `split_whitespace`. */
  function Words(s: string): seq<string>
    decreases |s|
  {
    if s == [] then []
    else if IsSpace(s[0]) then Words(s[1..])
    else [s[..WordLen(s)]] + Words(s[WordLen(s)..])
  }

  function JoinSpace(words: seq<string>): string {
    if words == [] then [] else if |words| == 1 then words[0] else words[0] + " " + JoinSpace(words[1..])
  }

  function Collapse(raw: string): string {
    JoinSpace(Words(NewlinesOut(raw)))
  }

  /** Single spaces between words, none at the edges, and no other white space. */
  ghost predicate Tidy(s: string) {
    forall i :: 0 <= i < |s| && IsSpace(s[i]) ==>
      s[i] == ' ' && 0 < i < |s| - 1 && !IsSpace(s[i - 1]) && !IsSpace(s[i + 1])
  }

  // ------------------------------------------------------ what collapsing keeps

  /** A character that is not white space, and whether white space stands before it. */
  datatype Mark = Mark(c: char, gap: bool)

  /** The marks of a text, in order; `gap` says whether white space (or the beginning) comes before it. */
  function Marks(s: string, gap: bool): seq<Mark> {
    if s == [] then []
    else if IsSpace(s[0]) then Marks(s[1..], true)
    else [Mark(s[0], gap)] + Marks(s[1..], false)
  }

  function Letters(w: string, gap: bool): seq<Mark> {
    if w == [] then [] else [Mark(w[0], gap)] + Letters(w[1..], false)
  }

  lemma {:induction false} MarksOfWord(w: string, rest: string, gap: bool)
    requires w != [] && forall i :: 0 <= i < |w| ==> !IsSpace(w[i])
    ensures Marks(w + rest, gap) == Letters(w, gap) + Marks(rest, false)
    decreases |w|
  {
    assert (w + rest)[1..] == w[1..] + rest;
    if |w| == 1 {
      assert w[1..] == [] && w[1..] + rest == rest;
    } else {
      MarksOfWord(w[1..], rest, false);
      Associative([Mark(w[0], gap)], Letters(w[1..], false), Marks(rest, false));
    }
  }

  lemma {:induction false} MarksOfWords(s: string)
    ensures Marks(JoinSpace(Words(s)), true) == Marks(s, true)
    decreases |s|
  {
    if s != [] {
      if IsSpace(s[0]) {
        MarksOfWords(s[1..]);
      } else {
        var n := WordLen(s);
        var w, rest := s[..n], s[n..];
        SplitAt(s, n);
        MarksOfWords(rest);
        MarksOfWord(w, rest, true);
        assert Marks(rest, false) == Marks(rest, true);
        var more := Words(rest);
        assert Words(s)[1..] == more;
        if more == [] {
          MarksOfWord(w, "", true);
          assert w + "" == w;
        } else {
          Associative(w, " ", JoinSpace(more));
          MarksOfWord(w, " " + JoinSpace(more), true);
          assert (" " + JoinSpace(more))[1..] == JoinSpace(more);
        }
      }
    }
  }

  lemma {:induction false} MarksOfNewlines(s: string, gap: bool)
    ensures Marks(NewlinesOut(s), gap) == Marks(s, gap)
  {
    if s != [] {
      MarksOfNewlines(s[1..], true);
      MarksOfNewlines(s[1..], false);
    }
  }

  /** Collapsing keeps every character that is not white space, in order, and keeps apart exactly
      those between which there was some white space. */
  lemma CollapseKeepsText(raw: string)
    ensures Marks(Collapse(raw), true) == Marks(raw, true)
  {
    MarksOfNewlines(raw, true);
    MarksOfWords(NewlinesOut(raw));
  }

  /** Like a tidy text, but it may begin with a space. */
  ghost predicate TidyRest(s: string) {
    forall i :: 0 <= i < |s| && IsSpace(s[i]) ==>
      s[i] == ' ' && i < |s| - 1 && !IsSpace(s[i + 1]) && (i > 0 ==> !IsSpace(s[i - 1]))
  }

  lemma NoMarksNoText(s: string)
    requires TidyRest(s)
    ensures s != [] ==> Marks(s, false) != [] && Marks(s, true) != []
  {
    if s != [] && IsSpace(s[0]) {
      assert !IsSpace(s[1]);
    }
  }

  lemma {:induction false} MarksDetermineRest(a: string, b: string)
    requires TidyRest(a) && TidyRest(b) && Marks(a, false) == Marks(b, false)
    ensures a == b
    decreases |a|
  {
    NoMarksNoText(a);
    NoMarksNoText(b);
    if a != [] {
      var m, n := if IsSpace(a[0]) then 1 else 0, if b != [] && IsSpace(b[0]) then 1 else 0;
      assert Marks(a, false)[0] == Mark(a[m], m == 1);
      assert b != [] && Marks(b, false)[0] == Mark(b[n], n == 1);
      assert Marks(a, false)[1..] == Marks(a[m + 1..], false) && Marks(b, false)[1..] == Marks(b[n + 1..], false);
      MarksDetermineRest(a[m + 1..], b[n + 1..]);
      assert a == a[..m + 1] + a[m + 1..] && b == b[..n + 1] + b[n + 1..];
      assert a[..m + 1] == b[..n + 1];
    }
  }

  /** So the collapsed text is the one tidy text with the marks of the raw one. */
  lemma MarksDetermineTidy(a: string, b: string)
    requires Tidy(a) && Tidy(b) && Marks(a, true) == Marks(b, true)
    ensures a == b
  {
    NoMarksNoText(a);
    NoMarksNoText(b);
    if a != [] && b != [] {
      assert !IsSpace(a[0]) && !IsSpace(b[0]);
      assert Marks(a, true)[0] == Mark(a[0], true) && Marks(b, true)[0] == Mark(b[0], true);
      assert Marks(a, true)[1..] == Marks(a[1..], false) && Marks(b, true)[1..] == Marks(b[1..], false);
      MarksDetermineRest(a[1..], b[1..]);
    }
  }

  // ---------------------------------------------------------------- the title

  const PATTERNS: seq<string> :=
    ["<command-name>", "<local-command-stdout>", "<system-reminder>", "<tool_use_id>", "<ide_opened_file>", "<ide_selection>"]

  predicate StandsAt(s: string, p: string, i: nat) {
    i + |p| <= |s| && s[i..i + |p|] == p
  }

  predicate Contains(s: string, p: string) {
    exists i :: 0 <= i <= |s| && StandsAt(s, p, i)
  }

  predicate IsSystem(s: string) {
    exists k :: 0 <= k < |PATTERNS| && Contains(s, PATTERNS[k])
  }

  /** The last space, as a character position. */
  function LastSpace(s: string): (r: Option<nat>)
    ensures r.Some? ==> r.value < |s| && s[r.value] == ' ' && ' ' !in s[r.value + 1..]
    ensures r.None? ==> ' ' !in s
  {
    if s == [] then None
    else if s[|s| - 1] == ' ' then Some(|s| - 1)
    else LastSpace(s[..|s| - 1])
  }

  /** The character position at byte `n`, or nothing if that is inside a character. */
  function CharAt(s: string, n: nat): Option<nat> {
    if n == 0 then Some(0)
    else if s == [] || n < Bytes(s[0]) then None
    else
      var rest := CharAt(s[1..], n - Bytes(s[0]));
      if rest.Some? then Some(rest.value + 1) else None
  }

  /** `Panic`: `String::truncate` was asked to cut inside a character. */
  datatype Result = Panic | Rejected | Title(text: string)

  function Normalize(raw: string): Result {
    var cleaned := Collapse(raw);
    if ByteLen(cleaned) < 3 || IsSystem(cleaned) then Rejected
    else if |cleaned| <= TITLE_MAX_CHARS then Title(cleaned)
    else
      var truncated := cleaned[..TITLE_MAX_CHARS - 3];
      var space := LastSpace(truncated);
      if space.Some? && ByteLen(truncated[..space.value]) > TITLE_MAX_CHARS / 2 then
        var cut := CharAt(truncated, ByteLen(truncated[..space.value]));
        if cut.None? || cut.value > |truncated| then Panic else Title(truncated[..cut.value] + "...")
      else Title(truncated + "...")
  }

  // ------------------------------------------------------------------- results

  /** The byte offset of a character position leads back to that position. */
  lemma {:induction false} CharAtOffset(s: string, k: nat)
    requires k <= |s|
    ensures CharAt(s, ByteLen(s[..k])) == Some(k)
  {
    if k > 0 {
      assert s[..k][1..] == s[1..][..k - 1];
      CharAtOffset(s[1..], k - 1);
    }
  }

  lemma {:induction false} WordsOk(s: string)
    ensures forall w <- Words(s) :: w != [] && forall i :: 0 <= i < |w| ==> !IsSpace(w[i])
    decreases |s|
  {
    if s != [] {
      if IsSpace(s[0]) {
        WordsOk(s[1..]);
      } else {
        WordsOk(s[WordLen(s)..]);
      }
    }
  }

  lemma {:induction false} JoinTidy(words: seq<string>)
    requires forall w <- words :: w != [] && forall i :: 0 <= i < |w| ==> !IsSpace(w[i])
    ensures Tidy(JoinSpace(words))
    ensures words != [] ==> JoinSpace(words) != [] && !IsSpace(JoinSpace(words)[0])
  {
    if words != [] {
      var w := words[0];
      assert w in words;
      if |words| > 1 {
        var rest := JoinSpace(words[1..]);
        JoinTidy(words[1..]);
        var s := JoinSpace(words);
        assert s == w + " " + rest;
        forall i | 0 <= i < |s| && IsSpace(s[i])
          ensures s[i] == ' ' && 0 < i < |s| - 1 && !IsSpace(s[i - 1]) && !IsSpace(s[i + 1])
        {
          if i > |w| {
            assert s[i] == rest[i - |w| - 1];
          }
        }
      }
    }
  }

  lemma CollapseTidy(raw: string)
    ensures Tidy(Collapse(raw))
  {
    WordsOk(NewlinesOut(raw));
    JoinTidy(Words(NewlinesOut(raw)));
  }

  lemma {:induction false} NoNewline(s: string)
    requires forall i :: 0 <= i < |s| ==> s[i] != '\n'
    ensures NewlinesOut(s) == s
  {
    if s != [] {
      NoNewline(s[1..]);
    }
  }

  lemma {:induction false} TidyWords(s: string)
    requires Tidy(s)
    ensures JoinSpace(Words(s)) == s
    decreases |s|
  {
    if s != [] {
      var n := WordLen(s);
      assert n > 0;
      if n < |s| {
        var rest := s[n + 1..];
        assert s[n] == ' ' && !IsSpace(s[n + 1]);
        assert Tidy(rest) by {
          forall i | 0 <= i < |rest| && IsSpace(rest[i])
            ensures rest[i] == ' ' && 0 < i < |rest| - 1 && !IsSpace(rest[i - 1]) && !IsSpace(rest[i + 1])
          {
            assert rest[i] == s[n + 1 + i] && s[n + i] == (if i > 0 then rest[i - 1] else ' ');
          }
        }
        TidyWords(rest);
        assert s[n..][1..] == rest && Words(s[n..]) == Words(rest) && Words(rest) != [];
        assert s == s[..n] + " " + rest;
      } else {
        assert s[n..] == [] && s[..n] == s;
      }
    }
  }

  lemma CollapseFixed(s: string)
    requires Tidy(s)
    ensures Collapse(s) == s
  {
    forall i | 0 <= i < |s| ensures s[i] != '\n' { assert IsSpace('\n'); }
    NoNewline(s);
    TidyWords(s);
  }

  lemma {:induction false} NoDotsInPatterns(k: nat)
    requires k < |PATTERNS|
    ensures PATTERNS[k] != [] && '.' !in PATTERNS[k]
  {
  }

  /** Appending dots to a prefix cannot complete a marker. */
  lemma DotsMakeNoMarker(c: string, k: nat)
    requires k <= |c| && !IsSystem(c)
    ensures !IsSystem(c[..k] + "...")
  {
    var t := c[..k] + "...";
    forall n | 0 <= n < |PATTERNS| ensures !Contains(t, PATTERNS[n]) {
      var p := PATTERNS[n];
      NoDotsInPatterns(n);
      forall i | 0 <= i <= |t| ensures !StandsAt(t, p, i) {
        if i + |p| <= k {
          assert t[i..i + |p|] == c[i..i + |p|];
          assert !Contains(c, p) && !StandsAt(c, p, i);
        } else if i + |p| <= |t| {
          var last := t[i..i + |p|][|p| - 1];
          assert last == t[i + |p| - 1] == '.';
          assert p[|p| - 1] in p;
        }
      }
    }
  }

  /** Where the title is cut: after 77 characters, or at the last space before that if more than 40
      bytes come before it. */
  function CutOf(c: string): (k: nat)
    requires |c| > TITLE_MAX_CHARS
    ensures k <= TITLE_MAX_CHARS - 3
  {
    var space := LastSpace(c[..TITLE_MAX_CHARS - 3]);
    if space.Some? && ByteLen(c[..space.value]) > TITLE_MAX_CHARS / 2 then space.value else TITLE_MAX_CHARS - 3
  }

  lemma CutIsTidy(c: string)
    requires Tidy(c) && |c| > TITLE_MAX_CHARS
    ensures var k := CutOf(c); k > 0 && Tidy(c[..k] + "...") && !IsSpace(c[k - 1]) && (k == TITLE_MAX_CHARS - 3 || c[k] == ' ')
  {
    var k, head := CutOf(c), c[..TITLE_MAX_CHARS - 3];
    var space := LastSpace(head);
    if k == TITLE_MAX_CHARS - 3 {
      if IsSpace(c[k - 1]) {
        assert false;
      }
    } else {
      assert k == space.value && ByteLen(c[..k]) > 0 && c[k] == ' ';
    }
    var t := c[..k] + "...";
    forall i | 0 <= i < |t| && IsSpace(t[i])
      ensures t[i] == ' ' && 0 < i < |t| - 1 && !IsSpace(t[i - 1]) && !IsSpace(t[i + 1])
    {
      assert i < k - 1 && t[i] == c[i] && t[i + 1] == c[i + 1];
    }
  }

  /** The cut never falls inside a character, so the result is this. */
  lemma NormalizeCuts(raw: string)
    ensures var c := Collapse(raw);
            Normalize(raw) ==
              if ByteLen(c) < 3 || IsSystem(c) then Rejected
              else if |c| <= TITLE_MAX_CHARS then Title(c)
              else Title(c[..CutOf(c)] + "...")
  {
    var c := Collapse(raw);
    if |c| > TITLE_MAX_CHARS {
      var head := c[..TITLE_MAX_CHARS - 3];
      var space := LastSpace(head);
      if space.Some? {
        CharAtOffset(head, space.value);
        assert head[..space.value] == c[..space.value];
      }
    }
  }

  /** Position 77, or the last space before it if more than 40 bytes come before that one. */
  ghost predicate CutsAt(c: string, k: int) {
    && 0 < k <= 77 < |c| && !IsSpace(c[k - 1])
    && (k < 77 ==> c[k] == ' ' && ByteLen(c[..k]) > 40 && forall i :: k < i < 77 ==> c[i] != ' ')
    && (k == 77 ==>
          forall i :: 0 <= i < k && c[i] == ' ' && ' ' !in c[i + 1..k] ==> ByteLen(c[..i]) <= 40)
  }

  lemma CutIsThere(c: string)
    requires Tidy(c) && |c| > TITLE_MAX_CHARS
    ensures CutsAt(c, CutOf(c))
  {
    CutIsTidy(c);
    var n, k := TITLE_MAX_CHARS - 3, CutOf(c);
    var space := LastSpace(c[..n]);
    if k < n {
      assert k == space.value;
      forall i | k < i < n ensures c[i] != ' ' {
        assert c[i] == c[..n][k + 1..][i - k - 1];
      }
    } else {
      forall i | 0 <= i < n && c[i] == ' ' && ' ' !in c[i + 1..n] ensures ByteLen(c[..i]) <= 40 {
        assert c[..n][i] == ' ';
        LastIsLast(c[..n], i, space.value);
        assert c[i + 1..n] == c[..n][i + 1..];
      }
    }
  }

  lemma LastIsLast(s: string, i: nat, j: nat)
    requires i < |s| && j < |s| && s[i] == ' ' && s[j] == ' '
    requires ' ' !in s[j + 1..]
    ensures i <= j && (' ' !in s[i + 1..] ==> i == j)
  {
    assert forall k :: j < k < |s| ==> s[k] == s[j + 1..][k - j - 1];
    assert forall k :: i < k < |s| ==> s[k] == s[i + 1..][k - i - 1];
  }

  /** A title has at most 80 characters, is tidy and free of system markers, and is the whole collapsed
      text if that fits, or else a prefix of it, cut at the last usable space, and dots. It never
      panics. */
  lemma TitleIsWellFormed(raw: string)
    ensures Normalize(raw) != Panic
    ensures var c := Collapse(raw);
            match Normalize(raw)
            case Panic => false
            case Rejected => ByteLen(c) < 3 || IsSystem(c)
            case Title(t) =>
              && 3 <= ByteLen(c) && !IsSystem(c)
              && 3 <= ByteLen(t) && |t| <= 80 && Tidy(t) && !IsSystem(t)
              && (if |c| <= 80 then t == c else exists k :: CutsAt(c, k) && t == c[..k] + "...")
  {
    var c := Collapse(raw);
    NormalizeCuts(raw);
    CollapseTidy(raw);
    if Normalize(raw).Title? && |c| > TITLE_MAX_CHARS {
      CutIsTidy(c);
      CutIsThere(c);
      DotsMakeNoMarker(c, CutOf(c));
    }
  }

  /** One of the six markers stands at `i`. */
  predicate MarkerAt(c: string, i: nat, p: string) {
    p in ["<command-name>", "<local-command-stdout>", "<system-reminder>", "<tool_use_id>", "<ide_opened_file>", "<ide_selection>"]
    && i + |p| <= |c| && c[i..i + |p|] == p
  }

  /** There is no title exactly if the collapsed text has fewer than three bytes or a marker in it. */
  lemma RejectedIff(raw: string)
    ensures var c := Collapse(raw); Normalize(raw) == Rejected <==> ByteLen(c) < 3 || exists i: nat, p :: MarkerAt(c, i, p)
  {
    var c := Collapse(raw);
    TitleIsWellFormed(raw);
    if i: nat, p :| MarkerAt(c, i, p) {
      var k :| 0 <= k < |PATTERNS| && PATTERNS[k] == p;
      assert StandsAt(c, p, i) && Contains(c, PATTERNS[k]);
    }
    if IsSystem(c) {
      var k :| 0 <= k < |PATTERNS| && Contains(c, PATTERNS[k]);
      var i :| 0 <= i <= |c| && StandsAt(c, PATTERNS[k], i);
      assert MarkerAt(c, i, PATTERNS[k]);
    }
  }

  /** A title that is normalized again stays as it is. */
  lemma NormalizeIdempotent(raw: string)
    requires Normalize(raw).Title?
    ensures Normalize(Normalize(raw).text) == Normalize(raw)
  {
    TitleIsWellFormed(raw);
    var t := Normalize(raw).text;
    CollapseFixed(t);
    NormalizeCuts(t);
  }

  /** A character has as many bytes as its encoding. */
  lemma BytesAreEncoded(c: char)
    ensures Utf8.IsScalar(c as int) && Bytes(c) == |Utf8.EncodeChar(c as int)|
  {
  }

  /** The characters of Unicode's White_Space property. */
  lemma WhiteSpace(c: char)
    ensures IsSpace(c) <==>
              (c as int) in {9, 10, 11, 12, 13, 0x20, 0x85, 0xA0, 0x1680, 0x2000, 0x2001, 0x2002, 0x2003, 0x2004, 0x2005,
                             0x2006, 0x2007, 0x2008, 0x2009, 0x200A, 0x2028, 0x2029, 0x202F, 0x205F, 0x3000}
  {
  }

  function Codes(s: string): (vs: seq<int>)
    ensures Utf8.AllScalar(vs)
  {
    if s == [] then [] else [s[0] as int] + Codes(s[1..])
  }

  /** The length in bytes is that of the encoded text. */
  lemma {:induction false} ByteLenIsEncoded(s: string)
    ensures ByteLen(s) == |Utf8.EncodeText(Codes(s))|
  {
    if s != [] {
      BytesAreEncoded(s[0]);
      ByteLenIsEncoded(s[1..]);
      assert Codes(s)[1..] == Codes(s[1..]);
    }
  }
}
