/** UTF-8 as sections 3 and 4 of RFC 3629 define it, and Rust's `str::is_char_boundary`. */
module Utf8 {

  type Byte = b: int | 0 <= b < 256

  predicate IsCont(b: Byte) {
    0x80 <= b < 0xC0
  }

  /** The number of bytes of the well-formed character at the front of `s`, or 0 if there is none. */
  function CharLen(s: seq<Byte>): (n: nat)
    ensures n <= 4 && n <= |s|
    ensures n > 0 ==> !IsCont(s[0]) && forall i :: 0 < i < n ==> IsCont(s[i])
  {
    if |s| >= 1 && s[0] < 0x80 then 1
    else if |s| >= 2 && 0xC2 <= s[0] <= 0xDF && IsCont(s[1]) then 2
    else if |s| >= 3 && 0xE0 <= s[0] <= 0xEF && IsCont(s[1]) && IsCont(s[2])
         && (s[0] == 0xE0 ==> s[1] >= 0xA0) && (s[0] == 0xED ==> s[1] <= 0x9F) then 3
    else if |s| >= 4 && 0xF0 <= s[0] <= 0xF4 && IsCont(s[1]) && IsCont(s[2]) && IsCont(s[3])
         && (s[0] == 0xF0 ==> s[1] >= 0x90) && (s[0] == 0xF4 ==> s[1] <= 0x8F) then 4
    else 0
  }

  predicate Valid(s: seq<Byte>) {
    s == [] || (CharLen(s) > 0 && Valid(s[CharLen(s)..]))
  }

  /** `is_char_boundary`: it looks at one byte only. */
  predicate Boundary(s: seq<Byte>, i: nat) {
    i == 0 || i == |s| || (i < |s| && !IsCont(s[i]))
  }

  /** Cutting valid text at a boundary leaves valid text. */
  lemma {:induction false} SuffixValid(s: seq<Byte>, i: nat)
    requires Valid(s) && i <= |s| && Boundary(s, i)
    ensures Valid(s[i..])
  {
    if 0 < i < |s| {
      var n := CharLen(s);
      assert n <= i;
      assert i < |s| ==> s[n..][i - n] == s[i];
      SuffixValid(s[n..], i - n);
      assert s[n..][i - n..] == s[i..];
    }
  }

  lemma {:induction false} ConcatValid(a: seq<Byte>, b: seq<Byte>)
    requires Valid(a) && Valid(b)
    ensures Valid(a + b)
  {
    if a == [] {
      assert a + b == b;
    } else {
      var n := CharLen(a);
      assert CharLen(a + b) == n;
      assert (a + b)[n..] == a[n..] + b;
      ConcatValid(a[n..], b);
    }
  }

  /** In valid text a boundary is never more than three bytes away. */
  lemma {:induction false} BoundaryNear(s: seq<Byte>, i: nat) returns (j: nat)
    requires Valid(s) && i <= |s|
    ensures i <= j <= i + 3 && j <= |s| && Boundary(s, j)
  {
    if i == 0 {
      return 0;
    }
    var n := CharLen(s);
    if i <= n {
      assert n < |s| ==> s[n..][0] == s[n];
      return n;
    }
    var k := BoundaryNear(s[n..], i - n);
    assert k < |s[n..]| ==> s[n..][k] == s[n + k];
    return n + k;
  }

  // ------------------------------------------------------------- code points

  /** A Unicode scalar value. */
  predicate IsScalar(v: int) {
    0 <= v < 0xD800 || 0xE000 <= v <= 0x10FFFF
  }

  /** Its encoding, bit group by bit group. */
  function EncodeChar(v: int): (e: seq<Byte>)
    requires IsScalar(v)
    ensures 1 <= |e| <= 4
  {
    if v < 0x80 then [v]
    else if v < 0x800 then [0xC0 + v / 0x40, 0x80 + v % 0x40]
    else if v < 0x1_0000 then [0xE0 + v / 0x1000, 0x80 + v / 0x40 % 0x40, 0x80 + v % 0x40]
    else [0xF0 + v / 0x4_0000, 0x80 + v / 0x1000 % 0x40, 0x80 + v / 0x40 % 0x40, 0x80 + v % 0x40]
  }

  lemma EncodedLen(v: int, rest: seq<Byte>)
    requires IsScalar(v)
    ensures CharLen(EncodeChar(v) + rest) == |EncodeChar(v)|
  {
    var e := EncodeChar(v);
    assert forall i :: 0 <= i < |e| ==> (e + rest)[i] == e[i];
  }

  /** The value of the character at the front. */
  function ValueOf(s: seq<Byte>): int
    requires CharLen(s) > 0
  {
    var n := CharLen(s);
    if n == 1 then s[0]
    else if n == 2 then (s[0] as int - 0xC0) * 0x40 + (s[1] as int - 0x80)
    else if n == 3 then (s[0] as int - 0xE0) * 0x1000 + (s[1] as int - 0x80) * 0x40 + (s[2] as int - 0x80)
    else (s[0] as int - 0xF0) * 0x4_0000 + (s[1] as int - 0x80) * 0x1000 + (s[2] as int - 0x80) * 0x40 + (s[3] as int - 0x80)
  }

  lemma WellFormedIsEncoded(s: seq<Byte>)
    requires CharLen(s) > 0
    ensures IsScalar(ValueOf(s)) && EncodeChar(ValueOf(s)) == s[..CharLen(s)]
  {
    var n := CharLen(s);
    if n == 2 {
      TwoGroups(s[0] as int - 0xC0, s[1] as int - 0x80);
    } else if n == 3 {
      ThreeGroups(s[0] as int - 0xE0, s[1] as int - 0x80, s[2] as int - 0x80);
    } else if n == 4 {
      FourEncoded(s);
    }
  }

  lemma FourEncoded(s: seq<Byte>)
    requires CharLen(s) == 4
    ensures IsScalar(ValueOf(s)) && EncodeChar(ValueOf(s)) == s[..4]
  {
    FourGroups(s[0] as int - 0xF0, s[1] as int - 0x80, s[2] as int - 0x80, s[3] as int - 0x80);
  }

  lemma TwoGroups(a: int, b: int)
    requires 0 <= b < 0x40
    ensures (a * 0x40 + b) / 0x40 == a && (a * 0x40 + b) % 0x40 == b
  {
  }

  lemma ThreeGroups(a: int, b: int, c: int)
    requires 0 <= b < 0x40 && 0 <= c < 0x40
    ensures var v := a * 0x1000 + b * 0x40 + c; v / 0x1000 == a && v / 0x40 % 0x40 == b && v % 0x40 == c
  {
    TwoGroups(a * 0x40 + b, c);
  }

  lemma FourGroups(a: int, b: int, c: int, d: int)
    requires 0 <= b < 0x40 && 0 <= c < 0x40 && 0 <= d < 0x40
    ensures var v := a * 0x4_0000 + b * 0x1000 + c * 0x40 + d;
            v / 0x4_0000 == a && v / 0x1000 % 0x40 == b && v / 0x40 % 0x40 == c && v % 0x40 == d
  {
    ThreeGroups(a * 0x40 + b, c, d);
  }

  predicate AllScalar(vs: seq<int>) {
    forall i :: 0 <= i < |vs| ==> IsScalar(vs[i])
  }

  function EncodeText(vs: seq<int>): seq<Byte>
    requires AllScalar(vs)
  {
    if vs == [] then [] else EncodeChar(vs[0]) + EncodeText(vs[1..])
  }

  lemma {:induction false} EncodedIsValid(vs: seq<int>)
    requires AllScalar(vs)
    ensures Valid(EncodeText(vs))
  {
    if vs != [] {
      var rest := EncodeText(vs[1..]);
      EncodedLen(vs[0], rest);
      EncodedIsValid(vs[1..]);
      assert (EncodeChar(vs[0]) + rest)[|EncodeChar(vs[0])|..] == rest;
    }
  }

  lemma {:induction false} ValidIsEncoded(s: seq<Byte>) returns (vs: seq<int>)
    requires Valid(s)
    ensures AllScalar(vs) && EncodeText(vs) == s
  {
    if s == [] {
      vs := [];
    } else {
      var n := CharLen(s);
      WellFormedIsEncoded(s);
      var rest := ValidIsEncoded(s[n..]);
      vs := [ValueOf(s)] + rest;
      assert vs[1..] == rest && s == s[..n] + s[n..];
    }
  }

  ghost predicate Encodes(vs: seq<int>, s: seq<Byte>) {
    AllScalar(vs) && EncodeText(vs) == s
  }

  /** Valid text is exactly what encodes a sequence of scalar values. */
  lemma ValidIff(s: seq<Byte>)
    ensures Valid(s) <==> exists vs: seq<int> :: Encodes(vs, s)
  {
    if Valid(s) {
      var vs := ValidIsEncoded(s);
      assert Encodes(vs, s);
    }
    if vs: seq<int> :| Encodes(vs, s) {
      EncodedIsValid(vs);
    }
  }
}
