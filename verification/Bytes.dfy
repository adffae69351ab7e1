/** Bytes, C strings and the fixed-width integers the resolver reads and writes. */
module Bytes {
  type byte = b: int | 0 <= b < 256

  const DOT: byte := 46
  const BACKSLASH: byte := 92

  datatype Option<+T> = None | Some(value: T)

  /** The contents of a C string: the bytes before its terminating NUL. */
  ghost predicate NoNul(s: seq<byte>) {
    forall i :: 0 <= i < |s| ==> s[i] != 0
  }

  /** Reading a C string, terminator included. */
  function At(s: seq<byte>, i: nat): byte
    requires i <= |s|
  {
    if i < |s| then s[i] else 0
  }

  /** What a reader of a C string sees in a buffer. */
  function UpToNul(s: seq<byte>): (r: seq<byte>)
    ensures NoNul(r) && r <= s
    ensures |r| < |s| ==> s[|r|] == 0
  {
    if s == [] || s[0] == 0 then [] else [s[0]] + UpToNul(s[1..])
  }

  lemma {:induction false} UpToNulWhole(s: seq<byte>, k: nat)
    requires k <= |s| && NoNul(s[..k]) && (k < |s| ==> s[k] == 0)
    ensures UpToNul(s) == s[..k]
  {
    assert |UpToNul(s)| == k;
  }

  /** isspace() restricted to ASCII. */
  predicate IsSpace(c: byte) {
    c == 32 || 9 <= c <= 13
  }

  /** Tab, newline, vertical tab, form feed, carriage return and blank are white space, and no other byte is. */
  lemma SixSpaces(c: byte)
    ensures IsSpace(c) <==> c in [9, 10, 11, 12, 13, 32]
  {
  }

  predicate HasSpace(s: seq<byte>) {
    exists i :: 0 <= i < |s| && IsSpace(s[i])
  }

  function Min(a: nat, b: nat): nat {
    if a < b then a else b
  }

  /** ASCII case folding. */
  function Lower(c: byte): byte {
    if 65 <= c <= 90 then c + 32 else c
  }

  /** Equality of byte strings up to ASCII case; this is also what strcasecmp() decides. */
  predicate SameText(a: seq<byte>, b: seq<byte>) {
    |a| == |b| && forall i :: 0 <= i < |a| ==> Lower(a[i]) == Lower(b[i])
  }

  /** The same byte, or the two cases of one of the letters A to Z. */
  predicate Alike(x: byte, y: byte) {
    x == y || (65 <= x <= 90 && y == x + 32) || (65 <= y <= 90 && x == y + 32)
  }

  /** Folding brings together just the two cases of each ASCII letter. */
  lemma LowerPairs(x: byte, y: byte)
    ensures Lower(x) == Lower(y) <==> Alike(x, y)
  {
  }

  predicate AlikeText(a: seq<byte>, b: seq<byte>) {
    |a| == |b| && forall i :: 0 <= i < |a| ==> Alike(a[i], b[i])
  }

  /** Two texts are the same up to case when they differ in the case of ASCII letters alone. */
  lemma SameTextIsAlike(a: seq<byte>, b: seq<byte>)
    ensures SameText(a, b) <==> AlikeText(a, b)
  {
    hide Lower, Alike;
    forall i | 0 <= i < |a| && i < |b|
      ensures Lower(a[i]) == Lower(b[i]) <==> Alike(a[i], b[i])
    {
      LowerPairs(a[i], b[i]);
    }
  }

  lemma SameTextSymmetric(a: seq<byte>, b: seq<byte>)
    requires SameText(a, b)
    ensures SameText(b, a)
  {
  }

  lemma SameTextTransitive(a: seq<byte>, b: seq<byte>, c: seq<byte>)
    requires SameText(a, b) && SameText(b, c)
    ensures SameText(a, c)
  {
  }

  lemma SameTextConcat(a: seq<byte>, b: seq<byte>, c: seq<byte>, d: seq<byte>)
    requires SameText(a, c) && SameText(b, d)
    ensures SameText(a + b, c + d)
  {
  }

  // ----- slices

  lemma Regroup<T>(a: seq<T>, b: seq<T>, c: seq<T>)
    ensures a + (b + c) == a + b + c
  {
  }

  lemma DropPrefix<T>(s: seq<T>, i: nat, a: seq<T>, b: seq<T>)
    requires i <= |s| && s[i..] == a + b
    ensures i + |a| <= |s| && s[i + |a|..] == b && s[i..i + |a|] == a
    ensures forall k :: 0 <= k < |a| ==> s[i + k] == a[k]
  {
    assert s[i..][|a|..] == s[i + |a|..];
    assert s[i..][..|a|] == s[i..i + |a|];
    forall k | 0 <= k < |a| ensures s[i + k] == a[k] {
      assert s[i..][k] == (a + b)[k];
    }
  }

  /** The bytes e stand in m from p on. */
  ghost predicate StoredAt(m: seq<byte>, p: nat, e: seq<byte>) {
    p + |e| <= |m| && m[p..p + |e|] == e
  }

  lemma StoredParts(m: seq<byte>, p: nat, a: seq<byte>, b: seq<byte>)
    requires StoredAt(m, p, a + b)
    ensures StoredAt(m, p, a) && StoredAt(m, p + |a|, b)
  {
    var v := m[p..p + |a + b|];
    assert v[..|a|] == m[p..p + |a|];
    assert v[|a|..] == m[p + |a|..p + |a| + |b|];
  }

  lemma StoredByte(m: seq<byte>, p: nat, c: byte)
    requires StoredAt(m, p, [c])
    ensures p < |m| && m[p] == c
  {
    assert m[p..p + 1][0] == m[p];
  }

  // ----- big-endian 16- and 32-bit quantities (GETSHORT, PUTSHORT, PUTLONG)

  function ShortBytes(x: int): (r: seq<byte>)
    ensures |r| == 2
  {
    [(x / 256) % 256, x % 256]
  }

  function LongBytes(x: int): (r: seq<byte>)
    ensures |r| == 4
  {
    [(x / 0x1000000) % 256, (x / 0x10000) % 256, (x / 256) % 256, x % 256]
  }

  function GetShort(m: seq<byte>, p: nat): int
    requires p + 2 <= |m|
  {
    (m[p] as int) * 256 + m[p + 1]
  }

  /** A 16-bit store keeps the value modulo 65536. */
  lemma ShortRoundTrip(m: seq<byte>, p: nat, x: int)
    requires p + 2 <= |m| && m[p..p + 2] == ShortBytes(x)
    ensures GetShort(m, p) == x % 65536
  {
    var v := m[p..p + 2];
    assert v[0] == m[p] && v[1] == m[p + 1];
    assert x == 65536 * (x / 65536) + x % 65536;
    assert x / 256 == 256 * (x / 65536) + (x % 65536) / 256;
  }

  function GetLong(m: seq<byte>, p: nat): int
    requires p + 4 <= |m|
  {
    (((m[p] as int) * 256 + m[p + 1]) * 256 + m[p + 2]) * 256 + m[p + 3]
  }

  /** Of two 16-bit halves the more significant one comes first, as does the more significant of two bytes. */
  lemma MostSignificantFirst(m: seq<byte>, p: nat)
    requires p + 4 <= |m|
    ensures GetLong(m, p) == 65536 * GetShort(m, p) + GetShort(m, p + 2)
    ensures GetShort(m, p) / 256 == m[p] && GetShort(m, p) % 256 == m[p + 1]
  {
  }

  /** A 32-bit store keeps the value modulo 2 to the 32nd. */
  lemma LongRoundTrip(m: seq<byte>, p: nat, x: int)
    requires p + 4 <= |m| && m[p..p + 4] == LongBytes(x)
    ensures GetLong(m, p) == x % 0x1_0000_0000
  {
    var v := m[p..p + 4];
    assert v[0] == m[p] && v[1] == m[p + 1] && v[2] == m[p + 2] && v[3] == m[p + 3];
    var a, b, c := x / 256, x / 0x10000, x / 0x1000000;
    assert b == a / 256 && c == b / 256 && c / 256 == x / 0x1_0000_0000;
    assert x == 256 * a + x % 256 && a == 256 * b + a % 256 && b == 256 * c + b % 256 && c == 256 * (c / 256) + c % 256;
  }
}
