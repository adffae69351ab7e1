/** The packings of ruserpass between characters and bits: 7 bits in 8 for clear text, 6 for cipher text. */
module PasswordCodec {
  import opened Bytes
  import opened Des

  /** Bit j, counted from the left, of the low seven bits of a character. */
  function ClearBit(c: byte, j: nat): bit
    requires j < 7
  {
    match j
    case 0 => (c / 64) % 2
    case 1 => (c / 32) % 2
    case 2 => (c / 16) % 2
    case 3 => (c / 8) % 2
    case 4 => (c / 4) % 2
    case 5 => (c / 2) % 2
    case 6 => c % 2
  }

  /** The block of a clear string: eight characters of seven bits and a zero bit each. */
  function ClearBlock(s: seq<byte>): (b: seq<bit>)
    ensures |b| == 64
  {
    seq(64, p requires 0 <= p < 64 => if p / 8 < |s| && p % 8 < 7 then ClearBit(s[p / 8], p % 8) else 0)
  }

  function SevenBits(b: seq<bit>, p: nat): (c: byte)
    requires p + 7 <= |b|
    ensures c < 128
  {
    var q: seq<int> := b[p..p + 7];
    q[0] * 64 + q[1] * 32 + q[2] * 16 + q[3] * 8 + q[4] * 4 + q[5] * 2 + q[6]
  }

  /** Ten characters read back from a block of at least 79 bits. */
  function ClearText(b: seq<bit>): (s: seq<byte>)
    requires |b| >= 79
    ensures |s| == 10
  {
    seq(10, i requires 0 <= i < 10 => SevenBits(b, 8 * i))
  }

  /** The six-bit value of a cipher character; a C char is signed, so 128 and up count as negative. */
  function KnotValue(c: byte): (v: int)
    ensures 0 <= v < 64
  {
    if c >= 128 then (c - 46) % 64
    else
      var c1: int := if c > 90 then c - 6 else c;
      var c2: int := if c1 > 57 then c1 - 7 else c1;
      (c2 - 46) % 64
  }

  function KnotBit(v: int, j: nat): bit
    requires 0 <= v < 64 && j < 6
  {
    match j
    case 0 => v / 32
    case 1 => (v / 16) % 2
    case 2 => (v / 8) % 2
    case 3 => (v / 4) % 2
    case 4 => (v / 2) % 2
    case 5 => v % 2
  }

  /** The bits of a cipher string: eleven characters fill 66 bits. */
  function KnotBlock(s: seq<byte>): (b: seq<bit>)
    ensures |b| == 66
  {
    seq(66, p requires 0 <= p < 66 => if p / 6 < |s| then KnotBit(KnotValue(s[p / 6]), p % 6) else 0)
  }

  function SixBits(b: seq<bit>, p: nat): (v: int)
    requires p + 6 <= |b|
    ensures 0 <= v < 64
  {
    var q: seq<int> := b[p..p + 6];
    q[0] * 32 + q[1] * 16 + q[2] * 8 + q[3] * 4 + q[4] * 2 + q[5]
  }

  /** The cipher character of a six-bit value: one of `./0-9A-Za-z`. */
  function KnotChar(v: int): (c: byte)
    requires 0 <= v < 64
    ensures 46 <= c <= 57 || 65 <= c <= 90 || 97 <= c <= 122
  {
    var c1 := v + 46;
    var c2 := if c1 > 57 then c1 + 7 else c1;
    if c2 > 90 then c2 + 6 else c2
  }

  function KnotText(b: seq<bit>): (s: seq<byte>)
    requires |b| >= 66
    ensures |s| == 11
  {
    seq(11, i requires 0 <= i < 11 => KnotChar(SixBits(b, 6 * i)))
  }

  // ----- both packings read back

  lemma KnotCharReadsBack(v: int)
    requires 0 <= v < 64
    ensures KnotValue(KnotChar(v)) == v
  {
  }

  lemma SixBitsReadBack(b: seq<bit>, p: nat, j: nat)
    requires p + 6 <= |b| && j < 6
    ensures KnotBit(SixBits(b, p), j) == b[p + j]
  {
    var q: seq<int> := b[p..p + 6];
    forall k | 0 <= k < 6 ensures q[k] == b[p + k] {
    }
    BitsOfSum(q[0], q[1], q[2], q[3], q[4], q[5]);
    assert SixBits(b, p) == q[0] * 32 + q[1] * 16 + q[2] * 8 + q[3] * 4 + q[4] * 2 + q[5];
    assert q[j] == b[p + j];
  }

  lemma BitsOfSum(q0: bit, q1: bit, q2: bit, q3: bit, q4: bit, q5: bit)
    ensures
      var v: int := 32 * (q0 as int) + 16 * (q1 as int) + 8 * (q2 as int) + 4 * (q3 as int) + 2 * (q4 as int) + q5;
      && 0 <= v < 64
      && KnotBit(v, 0) == q0 && KnotBit(v, 1) == q1 && KnotBit(v, 2) == q2
      && KnotBit(v, 3) == q3 && KnotBit(v, 4) == q4 && KnotBit(v, 5) == q5
  {
    var a: int, b: int, c: int, d: int, e: int, f: int := q0, q1, q2, q3, q4, q5;
    var v := 32 * a + 16 * b + 8 * c + 4 * d + 2 * e + f;
    assert v / 32 == a;
    assert v / 16 == 2 * a + b;
    assert v / 8 == 4 * a + 2 * b + c;
    assert v / 4 == 8 * a + 4 * b + 2 * c + d;
    assert v / 2 == 16 * a + 8 * b + 4 * c + 2 * d + e;
  }

  /** Any 66 bits survive being written as cipher text. */
  lemma KnotReadsBack(b: seq<bit>)
    requires |b| == 66
    ensures KnotBlock(KnotText(b)) == b
  {
    hide KnotValue, KnotChar, SixBits, KnotBit;
    var s := KnotText(b);
    forall p | 0 <= p < 66 ensures KnotBlock(s)[p] == b[p] {
      KnotCharReadsBack(SixBits(b, 6 * (p / 6)));
      SixBitsReadBack(b, 6 * (p / 6), p % 6);
    }
  }

  lemma ClearBitsReadBack(b: seq<bit>, p: nat, c: byte)
    requires c < 128 && p + 7 <= |b| && forall j :: 0 <= j < 7 ==> b[p + j] == ClearBit(c, j)
    ensures SevenBits(b, p) == c
  {
    var q: seq<int> := b[p..p + 7];
    forall j | 0 <= j < 7 ensures q[j] == ClearBit(c, j) {
      assert q[j] == b[p + j];
    }
    SumOfBits(c);
    assert SevenBits(b, p) == q[0] * 64 + q[1] * 32 + q[2] * 16 + q[3] * 8 + q[4] * 4 + q[5] * 2 + q[6];
    assert q[0] == ClearBit(c, 0) && q[1] == ClearBit(c, 1) && q[2] == ClearBit(c, 2) && q[3] == ClearBit(c, 3);
    assert q[4] == ClearBit(c, 4) && q[5] == ClearBit(c, 5) && q[6] == ClearBit(c, 6);
  }

  lemma SumOfBits(c: int)
    requires 0 <= c < 128
    ensures c == (c / 64) % 2 * 64 + (c / 32) % 2 * 32 + (c / 16) % 2 * 16 + (c / 8) % 2 * 8
                 + (c / 4) % 2 * 4 + (c / 2) % 2 * 2 + c % 2
  {
    var h1 := c / 2;
    var h2 := h1 / 2;
    var h3 := h2 / 2;
    var h4 := h3 / 2;
    var h5 := h4 / 2;
    assert h2 == c / 4;
    assert h3 == c / 8;
    assert h4 == c / 16;
    assert h5 == c / 32;
    assert h5 / 2 == c / 64;
    assert h1 == 2 * h2 + h1 % 2 && h2 == 2 * h3 + h2 % 2 && h3 == 2 * h4 + h3 % 2;
    assert h4 == 2 * h5 + h4 % 2 && h5 == 2 * (h5 / 2) + h5 % 2;
  }

  ghost predicate SevenBit(s: seq<byte>) {
    forall i :: 0 <= i < |s| ==> 0 < s[i] < 128
  }

  /** Up to eight 7-bit characters survive being packed in a block; the string then ends. */
  lemma ClearReadsBack(s: seq<byte>, b: seq<bit>)
    requires |s| <= 8 && SevenBit(s) && |b| >= 79
    requires b[..64] == ClearBlock(s) && forall p :: 64 <= p < 79 ==> b[p] == 0
    ensures UpToNul(ClearText(b)) == s
  {
    hide ClearBit, SevenBits;
    var t := ClearText(b);
    forall i | 0 <= i < |s| ensures t[i] == s[i] {
      forall j | 0 <= j < 7 ensures b[8 * i + j] == ClearBit(s[i], j) {
        assert b[8 * i + j] == b[..64][8 * i + j];
        assert (8 * i + j) / 8 == i && (8 * i + j) % 8 == j;
      }
      ClearBitsReadBack(b, 8 * i, s[i]);
    }
    forall j | 0 <= j < 7 ensures b[8 * |s| + j] == ClearBit(0, j) {
      ZeroBits(j);
      if |s| < 8 {
        assert b[8 * |s| + j] == b[..64][8 * |s| + j];
        assert (8 * |s| + j) / 8 == |s|;
      }
    }
    ClearBitsReadBack(b, 8 * |s|, 0);
    assert t[..|s|] == s;
    UpToNulWhole(t, |s|);
  }

  lemma ZeroBits(j: nat)
    requires j < 7
    ensures ClearBit(0, j) == 0
  {
  }

  // ----- which characters, and which bits

  /** The character stands at position v of the alphabet, which runs `.`, `/`, 0 to 9, A to Z, a to z. */
  predicate Stands(c: byte, v: int) {
    || (46 <= c <= 57 && v == c - 46)
    || (65 <= c <= 90 && v == 12 + (c - 65))
    || (97 <= c <= 122 && v == 38 + (c - 97))
  }

  /** The cipher characters come in the order of their values. */
  lemma KnotCharRises(v: int, w: int)
    requires 0 <= v < w < 64
    ensures KnotChar(v) < KnotChar(w)
  {
  }

  lemma KnotCharStands(v: int)
    requires 0 <= v < 64
    ensures Stands(KnotChar(v), v)
  {
  }

  /** The value of a character of the alphabet is its position there. */
  lemma KnotValueStands(c: byte, v: int)
    requires Stands(c, v)
    ensures KnotValue(c) == v && KnotChar(v) == c
  {
  }

  /**
    * Other characters have values too: each one more than the character before, modulo 64, but for
    * the steps back behind `9` and `Z`, and the step to the characters that are negative numbers.
    */
  lemma KnotValueSteps(c: byte)
    requires c < 255
    ensures KnotValue(c + 1) == (KnotValue(c) + if c == 57 then -6 else if c == 90 then -5 else if c == 127 then 14 else 1) % 64
    ensures KnotValue(46) == 0
  {
    var x: int := if c >= 128 || c <= 57 then c - 46 else if c <= 90 then c - 53 else c - 59;
    assert KnotValue(c) == x % 64;
    StepModulo(x, if c == 57 then -6 else if c == 90 then -5 else if c == 127 then 14 else 1);
  }

  lemma StepModulo(x: int, d: int)
    ensures (x % 64 + d) % 64 == (x + d) % 64
  {
    assert x + d == 64 * (x / 64) + (x % 64 + d);
  }

  /** The value of n bits from p on, most significant first. */
  function Partial(b: seq<bit>, p: nat, n: nat): (v: nat)
    requires p + n <= |b|
  {
    if n == 0 then 0 else 2 * Partial(b, p, n - 1) + b[p + n - 1]
  }

  lemma PartialSix(b: seq<bit>, p: nat)
    requires p + 6 <= |b|
    ensures Partial(b, p, 6) == SixBits(b, p)
  {
    var q: seq<int> := b[p..p + 6];
    assert q[0] == b[p] && q[1] == b[p + 1] && q[2] == b[p + 2] && q[3] == b[p + 3] && q[4] == b[p + 4] && q[5] == b[p + 5];
    assert Partial(b, p, 1) == q[0];
    assert Partial(b, p, 2) == 2 * q[0] + q[1];
    assert Partial(b, p, 3) == 4 * q[0] + 2 * q[1] + q[2];
    assert Partial(b, p, 4) == 8 * q[0] + 4 * q[1] + 2 * q[2] + q[3];
    assert Partial(b, p, 5) == 16 * q[0] + 8 * q[1] + 4 * q[2] + 2 * q[3] + q[4];
  }

  lemma PartialSeven(b: seq<bit>, p: nat)
    requires p + 7 <= |b|
    ensures Partial(b, p, 7) == SevenBits(b, p)
  {
    PartialSix(b, p);
    var q: seq<int> := b[p..p + 7];
    assert q[..6] == b[p..p + 6] && q[6] == b[p + 6];
  }

  lemma SumOfKnot(v: int)
    requires 0 <= v < 64
    ensures v == v / 32 * 32 + (v / 16) % 2 * 16 + (v / 8) % 2 * 8 + (v / 4) % 2 * 4 + (v / 2) % 2 * 2 + v % 2
  {
    var h1 := v / 2;
    var h2 := h1 / 2;
    var h3 := h2 / 2;
    var h4 := h3 / 2;
    assert h2 == v / 4;
    assert h3 == v / 8;
    assert h4 == v / 16;
    assert h4 / 2 == v / 32;
    assert h1 == 2 * h2 + h1 % 2 && h2 == 2 * h3 + h2 % 2 && h3 == 2 * h4 + h3 % 2 && h4 == 2 * (h4 / 2) + h4 % 2;
  }

  lemma SixBitsOfKnot(v: int, b: seq<bit>, p: nat)
    requires 0 <= v < 64 && p + 6 <= |b| && forall j :: 0 <= j < 6 ==> b[p + j] == KnotBit(v, j)
    ensures SixBits(b, p) == v
  {
    var q: seq<int> := b[p..p + 6];
    forall j | 0 <= j < 6 ensures q[j] == KnotBit(v, j) {
      assert q[j] == b[p + j];
    }
    SumOfKnot(v);
    assert SixBits(b, p) == q[0] * 32 + q[1] * 16 + q[2] * 8 + q[3] * 4 + q[4] * 2 + q[5];
    assert q[0] == KnotBit(v, 0) && q[1] == KnotBit(v, 1) && q[2] == KnotBit(v, 2);
    assert q[3] == KnotBit(v, 3) && q[4] == KnotBit(v, 4) && q[5] == KnotBit(v, 5);
  }

  /** Six bits for each cipher character make up its position in the alphabet. */
  lemma KnotBlockPacked(s: seq<byte>, b: seq<bit>)
    requires |b| >= 66 && b[..66] == KnotBlock(s)
    ensures forall k, v :: 0 <= k < |s| && k < 11 && Stands(s[k], v) ==> Partial(b, 6 * k, 6) == v
  {
    hide KnotValue, KnotBit, SixBits, Partial, Stands;
    forall k, v | 0 <= k < |s| && k < 11 && Stands(s[k], v)
      ensures Partial(b, 6 * k, 6) == v
    {
      forall j | 0 <= j < 6
        ensures b[6 * k + j] == KnotBit(KnotValue(s[k]), j)
      {
        assert b[6 * k + j] == b[..66][6 * k + j];
        assert (6 * k + j) / 6 == k && (6 * k + j) % 6 == j;
      }
      SixBitsOfKnot(KnotValue(s[k]), b, 6 * k);
      KnotValueStands(s[k], v);
      PartialSix(b, 6 * k);
    }
  }

  /** Eight bits for each clear character make up twice its low seven bits. */
  lemma ClearBlockPacked(s: seq<byte>, b: seq<bit>)
    requires |b| >= 64 && b[..64] == ClearBlock(s)
    ensures forall k :: 0 <= k < 8 ==> Partial(b, 8 * k, 8) == if k < |s| then 2 * (s[k] % 128) else 0
  {
    hide ClearBit, SevenBits, Partial;
    forall k | 0 <= k < 8
      ensures Partial(b, 8 * k, 8) == if k < |s| then 2 * (s[k] % 128) else 0
    {
      var c := if k < |s| then s[k] else 0;
      forall j | 0 <= j < 7
        ensures b[8 * k + j] == ClearBit(c % 128, j)
      {
        ZeroBits(j);
        LowBits(c, j);
        assert b[8 * k + j] == b[..64][8 * k + j];
        assert (8 * k + j) / 8 == k && (8 * k + j) % 8 == j;
      }
      assert b[8 * k + 7] == b[..64][8 * k + 7] == 0;
      ClearBitsReadBack(b, 8 * k, c % 128);
      PartialSeven(b, 8 * k);
      PartialMore(b, 8 * k, 7);
    }
  }

  lemma PartialMore(b: seq<bit>, p: nat, n: nat)
    requires p + n + 1 <= |b|
    ensures Partial(b, p, n + 1) == 2 * Partial(b, p, n) + b[p + n]
  {
  }

  lemma LowBits(c: byte, j: nat)
    requires j < 7
    ensures ClearBit(c % 128, j) == ClearBit(c, j)
  {
    var h: int, r: int := c / 128, c % 128;
    assert c == 128 * h + r;
    match j
    case 0 => Halved(c, h, r, 64, 1);
    case 1 => Halved(c, h, r, 32, 2);
    case 2 => Halved(c, h, r, 16, 4);
    case 3 => Halved(c, h, r, 8, 8);
    case 4 => Halved(c, h, r, 4, 16);
    case 5 => Halved(c, h, r, 2, 32);
    case 6 =>
  }

  lemma Halved(c: int, h: int, r: int, w: int, n: int)
    requires c == 128 * h + r && 0 <= r < 128 && 0 <= h
    requires (w == 64 && n == 1) || (w == 32 && n == 2) || (w == 16 && n == 4) || (w == 8 && n == 8) || (w == 4 && n == 16) || (w == 2 && n == 32)
    ensures (c / w) % 2 == (r / w) % 2
  {
    var q := r / w;
    assert c / w == 2 * (n * h) + q;
  }
}
