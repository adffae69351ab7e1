/** Internet addresses as text: inet_aton(), inet_network() and inet_ntoa(). */
module InetText {
  import opened Bytes

  const WORD := 0x1_0000_0000
  const INADDR_NONE := 0xFFFF_FFFF

  // ----- numbers, as both readers collect them

  /** The value of a digit; the letters count in hexadecimal only, and 8 and 9 count in octal too. */
  function Digit(c: byte, base: nat): Option<nat> {
    if 48 <= c <= 57 then Some((c as int) - 48)
    else if base == 16 && 97 <= c <= 102 then Some((c as int) - 87)
    else if base == 16 && 65 <= c <= 70 then Some((c as int) - 55)
    else None
  }

  /** The number that the digits from i on continue, in 32 bits, and where they end. */
  function Digits(s: seq<byte>, i: nat, base: nat, val: nat): (r: (nat, nat))
    requires i <= |s|
    ensures i <= r.1 <= |s|
    ensures val < WORD ==> r.0 < WORD
    decreases |s| - i
  {
    if i < |s| && Digit(s[i], base).Some?
    then Digits(s, i + 1, base, (val * base + Digit(s[i], base).value) % WORD)
    else (val, i)
  }

  /** The number at i as in C: 0x for hexadecimal, 0 for octal. */
  function Number(s: seq<byte>, i: nat): (r: (nat, nat))
    requires i <= |s|
    ensures i <= r.1 <= |s| && r.0 < WORD
  {
    if At(s, i) != 48 then Digits(s, i, 10, 0)
    else if At(s, i + 1) == 120 || At(s, i + 1) == 88 then Digits(s, i + 2, 16, 0)
    else Digits(s, i + 1, 8, 0)
  }

  method ReadNumber(s: seq<byte>, i: nat) returns (val: nat, cp: nat)
    requires i <= |s|
    ensures (val, cp) == Number(s, i)
  {
    cp := i;
    var base: nat;
    val, base := 0, 10;
    if At(s, cp) == 48 {
      cp := cp + 1;
      if At(s, cp) == 120 || At(s, cp) == 88 {
        base, cp := 16, cp + 1;
      } else {
        base := 8;
      }
    }
    while cp < |s| && Digit(s[cp], base).Some?
      invariant cp <= |s| && Digits(s, cp, base, val) == Number(s, i)
    {
      val := (val * base + Digit(s[cp], base).value) % WORD;
      cp := cp + 1;
    }
  }

  /** May the text end at i?  Behind white space anything goes. */
  predicate Ends(s: seq<byte>, i: nat)
    requires i <= |s|
  {
    i == |s| || IsSpace(s[i])
  }

  // ----- inet_aton()

  /** The numbers between dots from i on and where they end, given that k came before. */
  function Parts(s: seq<byte>, i: nat, k: nat): (r: Option<(seq<nat>, nat)>)
    requires i <= |s|
    ensures r.Some? ==> r.value.1 <= |s| && |r.value.0| > 0 && k + |r.value.0| <= if k > 3 then k + 1 else 4
    decreases |s| - i
  {
    var (v, e) := Number(s, i);
    if At(s, e) != DOT then Some(([v], e))
    else if k >= 3 || v > 255 then None
    else Prepend([v], Parts(s, e + 1, k + 1))
  }

  function Prepend(ps: seq<nat>, r: Option<(seq<nat>, nat)>): Option<(seq<nat>, nat)> {
    if r.None? then None else Some((ps + r.value.0, r.value.1))
  }

  /** Is the last number small enough for the bytes that are left to it? */
  predicate LastFits(ps: seq<nat>)
    requires 0 < |ps| <= 4
  {
    ps[|ps| - 1] < if |ps| == 1 then WORD else if |ps| == 2 then 0x100_0000 else if |ps| == 3 then 0x1_0000 else 0x100
  }

  /** The address: a byte for each number but the last. */
  function Combined(ps: seq<nat>): nat
    requires 0 < |ps| <= 4
  {
    if |ps| == 1 then ps[0]
    else if |ps| == 2 then ps[0] * 0x100_0000 + ps[1]
    else if |ps| == 3 then ps[0] * 0x100_0000 + ps[1] * 0x1_0000 + ps[2]
    else ps[0] * 0x100_0000 + ps[1] * 0x1_0000 + ps[2] * 0x100 + ps[3]
  }

  /** The address a text stands for, in host order. */
  function Address(s: seq<byte>): Option<nat> {
    var r := Parts(s, 0, 0);
    if r.Some? && Ends(s, r.value.1) && LastFits(r.value.0) then Some(Combined(r.value.0)) else None
  }

  lemma PrependTwice(a: seq<nat>, b: seq<nat>, r: Option<(seq<nat>, nat)>)
    ensures Prepend(a, Prepend(b, r)) == Prepend(a + b, r)
  {
    if r.Some? {
      assert a + (b + r.value.0) == a + b + r.value.0;
    }
  }

  lemma PrependNothing(r: Option<(seq<nat>, nat)>)
    ensures Prepend([], r) == r
  {
    if r.Some? {
      assert [] + r.value.0 == r.value.0;
    }
  }

  lemma PartsStep(s: seq<byte>, i: nat, k: nat)
    requires i <= |s|
    ensures var (v, e) := Number(s, i);
            Parts(s, i, k) ==
            if At(s, e) != DOT then Some(([v], e)) else if k >= 3 || v > 255 then None
            else Prepend([v], Parts(s, e + 1, k + 1))
  {
    hide Number, Prepend;
  }

  /** The first loop of inet_aton(): all numbers but the last go into parts. */
  method ReadParts(s: seq<byte>, parts: array<nat>) returns (ok: bool, pp: nat, val: nat, cp: nat)
    requires parts.Length == 4
    modifies parts
    ensures pp <= 3 && cp <= |s| && val < WORD
    ensures Parts(s, 0, 0) == if ok then Some((parts[..pp] + [val], cp)) else None
  {
    hide Parts, Number, Prepend;
    pp, cp, val := 0, 0, 0;
    PrependNothing(Parts(s, 0, 0));
    assert parts[..0] == [];
    while true
      invariant pp <= 3 && cp <= |s| && val < WORD
      invariant Parts(s, 0, 0) == Prepend(parts[..pp], Parts(s, cp, pp))
      decreases 3 - pp
    {
      PartsStep(s, cp, pp);
      ghost var before := parts[..pp];
      val, cp := ReadNumber(s, cp);
      if At(s, cp) == DOT {
        if pp >= 3 || val > 0xff {
          PrependToNone(before);
          return false, pp, val, cp;
        }
        parts[pp] := val;
        pp, cp := pp + 1, cp + 1;
        assert parts[..pp] == before + [val];
        PrependTwice(before, [val], Parts(s, cp, pp));
      } else {
        PrependToSome(before, [val], cp);
        return true, pp, val, cp;
      }
    }
  }

  lemma PrependToNone(a: seq<nat>)
    ensures Prepend(a, None) == None
  {
  }

  lemma PrependToSome(a: seq<nat>, b: seq<nat>, e: nat)
    ensures Prepend(a, Some((b, e))) == Some((a + b, e))
  {
  }

  /**
    * inet_aton(); the result stands for what ntohl() makes of the address stored.  Where the code
    * joins bytes with a bitwise or, the bits are apart, so that it adds.
    */
  method Aton(s: seq<byte>) returns (r: Option<nat>)
    ensures r == Address(s)
  {
    hide Parts;
    var parts := new nat[4];
    var ok, pp, val, cp := ReadParts(s, parts);
    if !ok {
      return None;
    }
    if cp < |s| && !IsSpace(s[cp]) {
      return None;
    }
    match pp {
      case 0 =>
      case 1 =>
        if val > 0xffffff {
          return None;
        }
        val := val + parts[0] * 0x100_0000;
      case 2 =>
        if val > 0xffff {
          return None;
        }
        val := val + parts[0] * 0x100_0000 + parts[1] * 0x1_0000;
      case 3 =>
        if val > 0xff {
          return None;
        }
        val := val + parts[0] * 0x100_0000 + parts[1] * 0x1_0000 + parts[2] * 0x100;
    }
    return Some(val);
  }

  // ----- inet_network()

  /** All the numbers between dots from i on and where they end. */
  function Numbers(s: seq<byte>, i: nat): (r: (seq<nat>, nat))
    requires i <= |s|
    ensures r.1 <= |s| && |r.0| > 0
    decreases |s| - i
  {
    var (v, e) := Number(s, i);
    if At(s, e) != DOT then ([v], e)
    else var rest := Numbers(s, e + 1); ([v] + rest.0, rest.1)
  }

  /** The low bytes of the numbers, as digits to the base 256. */
  function LowBytes(ps: seq<nat>): nat {
    if ps == [] then 0 else LowBytes(ps[..|ps| - 1]) * 256 + ps[|ps| - 1] % 256
  }

  function NetworkNumber(s: seq<byte>): nat {
    var r := Numbers(s, 0);
    if |r.0| <= 4 && Ends(s, r.1) then LowBytes(r.0) else INADDR_NONE
  }

  lemma {:induction false} LowBytesBound(ps: seq<nat>)
    requires |ps| <= 4
    ensures LowBytes(ps) < if |ps| == 0 then 1 else if |ps| == 1 then 0x100 else if |ps| == 2 then 0x1_0000
                           else if |ps| == 3 then 0x100_0000 else WORD
  {
    if ps != [] {
      LowBytesBound(ps[..|ps| - 1]);
    }
  }

  /** The last loop of inet_network(): the numbers are shifted together. */
  method Fold(parts: array<nat>, n: nat) returns (r: nat)
    requires n <= 4 && n <= parts.Length
    ensures r == LowBytes(parts[..n])
  {
    ghost var ps := parts[..n];
    var i: nat;
    r, i := 0, 0;
    while i < n
      invariant i <= n && r == LowBytes(ps[..i])
    {
      LowBytesBound(ps[..i]);
      assert ps[..i + 1][..i] == ps[..i];
      r := (r * 256) % WORD + parts[i] % 256;
      i := i + 1;
    }
    assert ps[..i] == ps;
  }

  lemma MoreThan(a: seq<nat>, b: seq<nat>, c: seq<nat>)
    ensures |a + (b + c)| == |a| + |b| + |c|
  {
  }

  lemma NumbersStep(s: seq<byte>, i: nat)
    requires i <= |s|
    ensures var (v, e) := Number(s, i);
            Numbers(s, i) ==
            if At(s, e) != DOT then ([v], e) else ([v] + Numbers(s, e + 1).0, Numbers(s, e + 1).1)
  {
    hide Number;
  }

  /** Five numbers and an end: the fifth is stored behind the array before it is turned down. */
  predicate Overruns(s: seq<byte>) {
    |Numbers(s, 0).0| == 5 && Ends(s, Numbers(s, 0).1)
  }

  /** The first loop of inet_network(): all numbers but the last go into parts. */
  method ReadNumbers(s: seq<byte>, parts: array<nat>) returns (ok: bool, pp: nat, val: nat, cp: nat)
    requires parts.Length == 4
    modifies parts
    ensures if ok then pp <= 4 && cp <= |s| && Numbers(s, 0) == (parts[..pp] + [val], cp) else |Numbers(s, 0).0| > 5
  {
    hide Number, Numbers;
    pp, cp, val := 0, 0, 0;
    assert parts[..0] + Numbers(s, 0).0 == Numbers(s, 0).0;
    while true
      invariant pp <= 4 && cp <= |s| && Numbers(s, 0) == (parts[..pp] + Numbers(s, cp).0, Numbers(s, cp).1)
      decreases 4 - pp
    {
      NumbersStep(s, cp);
      ghost var before := parts[..pp];
      val, cp := ReadNumber(s, cp);
      if At(s, cp) != DOT {
        return true, pp, val, cp;
      }
      if pp >= 4 {
        MoreThan(before, [val], Numbers(s, cp + 1).0);
        return false, pp, val, cp;
      }
      parts[pp] := val;
      pp, cp := pp + 1, cp + 1;
      assert parts[..pp] == before + [val];
      assert before + ([val] + Numbers(s, cp).0) == before + [val] + Numbers(s, cp).0;
    }
  }

  /** inet_network(); `overran` tells of the store behind the four places for numbers, which the model does not make. */
  method Network(s: seq<byte>) returns (r: nat, ghost overran: bool)
    ensures r == NetworkNumber(s)
    ensures overran <==> Overruns(s)
  {
    overran := false;
    hide Number, Numbers, LowBytes;
    var parts := new nat[4];
    var ok, pp, val, cp := ReadNumbers(s, parts);
    if !ok || (cp < |s| && !IsSpace(s[cp])) {
      return INADDR_NONE, overran;
    }
    ghost var ps := parts[..pp] + [val];
    if pp < 4 {
      parts[pp] := val;
    } else {
      overran := true;
    }
    pp := pp + 1;
    if pp > 4 {
      return INADDR_NONE, overran;
    }
    assert parts[..pp] == ps;
    r := Fold(parts, pp);
  }

  // ----- the text of an address

  /** How a number is written: plainly, after 0 in octal, or after 0x in hexadecimal. */
  datatype Style = Decimal | Octal | Hex

  function Base(y: Style): nat {
    match y
    case Decimal => 10
    case Octal => 8
    case Hex => 16
  }

  function DigitChar(d: nat): (c: byte)
    requires d < 16
  {
    if d < 10 then (48 + d) as byte else (87 + d) as byte
  }

  function Numeral(n: nat, y: Style): (r: seq<byte>)
    ensures r != [] && (r[0] == 48 <==> n == 0)
    ensures forall i :: 0 <= i < |r| ==> 48 <= r[i] <= 57 || (y == Hex && 97 <= r[i] <= 102)
  {
    var last := DigitChar(n % Base(y));
    if n < Base(y) then [last] else Numeral(n / Base(y), y) + [last]
  }

  /** What tells the style of a number. */
  function Mark(y: Style): (r: seq<byte>) {
    match y
    case Decimal => []
    case Octal => [48]
    case Hex => [48, 120]
  }

  /** A number of an address, as it is written. */
  datatype Part = Part(value: nat, style: Style)

  function Spelling(p: Part): (r: seq<byte>)
    ensures r != []
  {
    Mark(p.style) + Numeral(p.value, p.style)
  }

  /** The numbers in 32 bits. */
  function Values(ps: seq<Part>): (r: seq<nat>)
    ensures |r| == |ps| && forall i :: 0 <= i < |ps| ==> r[i] == ps[i].value % WORD
  {
    seq(|ps|, i requires 0 <= i < |ps| => ps[i].value % WORD)
  }

  function Plainly(vs: seq<nat>): (r: seq<Part>)
    ensures |r| == |vs| && ((forall i :: 0 <= i < |vs| ==> vs[i] < WORD) ==> Values(r) == vs)
  {
    seq(|vs|, i requires 0 <= i < |vs| => Part(vs[i], Decimal))
  }

  /** Numbers with dots between. */
  function Dotted(ps: seq<Part>): seq<byte>
    requires ps != []
  {
    if |ps| == 1 then Spelling(ps[0]) else Spelling(ps[0]) + ([DOT] + Dotted(ps[1..]))
  }

  /** The bytes of an address, first byte first, as it lies in memory. */
  function AddressBytes(a: nat): (r: seq<nat>)
    ensures |r| == 4 && forall i :: 0 <= i < 4 ==> r[i] < 256
  {
    [a / 0x100_0000 % 256, a / 0x1_0000 % 256, a / 0x100 % 256, a % 256]
  }

  /** inet_ntoa() of the address whose host-order value is a. */
  function Ntoa(a: nat): seq<byte> {
    Dotted(Plainly(AddressBytes(a)))
  }

  lemma DigitReads(d: nat, y: Style)
    requires d < Base(y)
    ensures Digit(DigitChar(d), Base(y)) == Some(d)
  {
  }

  /** The value of each digit, and what is none: the letters count in base 16 only, in either case. */
  lemma DigitValues(c: byte, base: nat)
    ensures Digit(c, base).Some? <==> 48 <= c <= 57 || (base == 16 && (65 <= c <= 70 || 97 <= c <= 102))
    ensures Digit(48, base) == Some(0) && Digit(65, 16) == Digit(97, 16) == Some(10)
    ensures c < 255 && Digit(c, base).Some? && Digit(c + 1, base).Some? ==> Digit(c + 1, base).value == Digit(c, base).value + 1
  {
  }

  /** The digits are written in the order of their values, 0 to 9 and then a to f. */
  lemma DigitCharRises(d: nat, e: nat)
    requires d < e < 16
    ensures DigitChar(d) < DigitChar(e) && (d < 10 ==> 48 <= DigitChar(d) <= 57) && (e >= 10 ==> 97 <= DigitChar(e) <= 102)
  {
  }

  lemma ModuloWord(m: nat, d: nat, y: Style)
    ensures (m % WORD * Base(y) + d) % WORD == (m * Base(y) + d) % WORD
  {
    var q, r := m / WORD, m % WORD;
    assert m == WORD * q + r;
    match y
    case Decimal => SameModulo(m * 10 + d, r * 10 + d, 10 * q);
    case Octal => SameModulo(m * 8 + d, r * 8 + d, 8 * q);
    case Hex => SameModulo(m * 16 + d, r * 16 + d, 16 * q);
  }

  lemma SameModulo(x: nat, y: nat, q: nat)
    requires x == WORD * q + y
    ensures x % WORD == y % WORD
  {
  }

  lemma DigitStep(s: seq<byte>, i: nat, m: nat, d: nat, y: Style)
    requires i < |s| && d < Base(y) && s[i] == DigitChar(d)
    ensures Digits(s, i, Base(y), m % WORD) == Digits(s, i + 1, Base(y), (m * Base(y) + d) % WORD)
  {
    DigitReads(d, y);
    ModuloWord(m, d, y);
    hide Digit, DigitChar, Base;
  }

  lemma DivideBase(n: nat, y: Style)
    ensures n == n / Base(y) * Base(y) + n % Base(y)
  {
  }

  lemma NumeralMore(n: nat, y: Style)
    requires n >= Base(y)
    ensures Numeral(n, y) == Numeral(n / Base(y), y) + [DigitChar(n % Base(y))]
  {
  }

  lemma NumeralOne(n: nat, y: Style)
    requires n < Base(y)
    ensures Numeral(n, y) == [DigitChar(n)]
  {
    hide DigitChar;
    assert n % Base(y) == n by {
      hide Base;
    }
  }

  lemma SplitLast(s: seq<byte>, i: nat, f: seq<byte>, c: byte)
    requires i + |f| + 1 <= |s| && s[i..i + |f| + 1] == f + [c]
    ensures s[i..i + |f|] == f && s[i + |f|] == c
  {
    var t := s[i..i + |f| + 1];
    assert s[i..i + |f|] == t[..|f|] && s[i + |f|] == t[|f|];
  }

  lemma {:induction false} DigitsReadNumeral(s: seq<byte>, i: nat, n: nat, y: Style)
    requires i + |Numeral(n, y)| <= |s| && s[i..i + |Numeral(n, y)|] == Numeral(n, y)
    ensures Digits(s, i, Base(y), 0) == Digits(s, i + |Numeral(n, y)|, Base(y), n % WORD)
    decreases n
  {
    hide Digits, Numeral, DigitChar;
    if n < Base(y) {
      NumeralOne(n, y);
      SplitLast(s, i, [], DigitChar(n));
      DigitStep(s, i, 0, n, y);
    } else {
      NumeralMore(n, y);
      DivideBase(n, y);
      var m := n / Base(y);
      SplitLast(s, i, Numeral(m, y), DigitChar(n % Base(y)));
      DigitsReadNumeral(s, i, m, y);
      DigitStep(s, i + |Numeral(m, y)|, m, n % Base(y), y);
    }
  }

  /** A byte that may be part of a number. */
  predicate InNumber(c: byte) {
    48 <= c <= 57 || 65 <= c <= 70 || 97 <= c <= 102 || c == 88 || c == 120
  }

  /** Numbers end at any other byte and at the end of the text. */
  predicate Stops(s: seq<byte>, e: nat) {
    e >= |s| || !InNumber(s[e])
  }

  lemma DigitsStop(s: seq<byte>, e: nat, base: nat, val: nat)
    requires e <= |s| && Stops(s, e)
    ensures Digits(s, e, base, val) == (val, e)
  {
  }

  /** The digits behind the mark are read to their end. */
  lemma NumeralReads(s: seq<byte>, i: nat, p: Part)
    requires i + |Spelling(p)| <= |s| && s[i..i + |Spelling(p)|] == Spelling(p)
    requires Stops(s, i + |Spelling(p)|)
    ensures Digits(s, i + |Mark(p.style)|, Base(p.style), 0) == (p.value % WORD, i + |Spelling(p)|)
    ensures s[i..i + |Mark(p.style)|] == Mark(p.style)
    ensures s[i + |Mark(p.style)|] == Numeral(p.value, p.style)[0]
  {
    hide Digits, Numeral, Stops, Mark, Base;
    var n, a, e := Numeral(p.value, p.style), Mark(p.style), i + |Spelling(p)|;
    var t := s[i..e];
    assert s[i..i + |a|] == t[..|a|] == a;
    assert s[i + |a|..e] == t[|a|..] == n;
    assert s[i + |a|] == s[i + |a|..e][0];
    DigitsReadNumeral(s, i + |a|, p.value, p.style);
    DigitsStop(s, e, Base(p.style), p.value % WORD);
  }

  /** A number of any size is read back in 32 bits in each style; a plain 0 is read as octal without digits. */
  lemma NumberReadsSpelling(s: seq<byte>, i: nat, p: Part)
    requires i + |Spelling(p)| <= |s| && s[i..i + |Spelling(p)|] == Spelling(p)
    requires Stops(s, i + |Spelling(p)|)
    ensures Number(s, i) == (p.value % WORD, i + |Spelling(p)|)
  {
    assert p == Part(0, Decimal) ==> |Spelling(p)| == 1;
    hide Digits, Numeral, Stops, Spelling;
    NumeralReads(s, i, p);
    match p.style
    case Decimal =>
      if p.value == 0 {
        ZeroAlone(s, i);
      }
    case Octal =>
    case Hex =>
      assert s[i] == s[i..i + 2][0] && s[i + 1] == s[i..i + 2][1];
  }

  lemma ZeroAlone(s: seq<byte>, i: nat)
    requires i < |s| && s[i] == 48 && Stops(s, i + 1)
    ensures Number(s, i) == (0, i + 1)
  {
  }

  /** All numbers but the last fit into a byte, and there is room for them. */
  predicate FirstsFit(ps: seq<nat>, k: nat)
    requires ps != []
  {
    (|ps| > 1 ==> k + |ps| <= 4) && forall i :: 0 <= i < |ps| - 1 ==> ps[i] < 256
  }

  lemma DottedMore(ps: seq<Part>)
    requires |ps| > 1
    ensures Dotted(ps) == Spelling(ps[0]) + ([DOT] + Dotted(ps[1..]))
  {
    hide Spelling;
  }

  lemma SplitAtDot(s: seq<byte>, i: nat, d: seq<byte>, rest: seq<byte>)
    requires i <= |s| && s[i..] == d + ([DOT] + rest)
    ensures var e := i + |d|; e < |s| && s[i..e] == d && s[e] == DOT && s[e + 1..] == rest
  {
    DropPrefix(s, i, d, [DOT] + rest);
    var t := s[i + |d|..];
    assert t[0] == DOT && t[1..] == rest;
  }

  /** What may stand behind the numbers without being taken for part of them. */
  predicate Behind(rest: seq<byte>) {
    rest == [] || (rest[0] != DOT && !InNumber(rest[0]))
  }

  /** The first of several numbers, and the text behind its dot. */
  lemma DottedFirst(s: seq<byte>, i: nat, ps: seq<Part>, rest: seq<byte>)
    requires i <= |s| && |ps| > 1 && s[i..] == Dotted(ps) + rest
    ensures var e := i + |Spelling(ps[0])|;
            e < |s| && Number(s, i) == (ps[0].value % WORD, e) && s[e] == DOT && s[e + 1..] == Dotted(ps[1..]) + rest
  {
    hide Number, Spelling, Dotted;
    DottedMore(ps);
    var d, more := Spelling(ps[0]), Dotted(ps[1..]);
    assert d + ([DOT] + more) + rest == d + ([DOT] + (more + rest));
    SplitAtDot(s, i, d, more + rest);
    NumberReadsSpelling(s, i, ps[0]);
  }

  lemma DottedLast(s: seq<byte>, i: nat, p: Part, rest: seq<byte>)
    requires i <= |s| && s[i..] == Dotted([p]) + rest && Behind(rest)
    ensures i + |Dotted([p])| <= |s| && Number(s, i) == (p.value % WORD, i + |Dotted([p])|)
    ensures At(s, i + |Dotted([p])|) == At(rest, 0)
  {
    hide Number, Spelling;
    var e := i + |Spelling(p)|;
    DropPrefix(s, i, Spelling(p), rest);
    assert rest != [] ==> s[e] == s[e..][0] == rest[0];
    NumberReadsSpelling(s, i, p);
  }

  lemma ValuesCons(ps: seq<Part>)
    requires ps != []
    ensures Values(ps) == [ps[0].value % WORD] + Values(ps[1..])
    ensures Values(ps)[1..] == Values(ps[1..])
  {
  }

  lemma {:induction false} PartsReadDotted(s: seq<byte>, i: nat, ps: seq<Part>, rest: seq<byte>, k: nat)
    requires i <= |s| && ps != [] && s[i..] == Dotted(ps) + rest && Behind(rest) && k <= 3
    ensures i + |Dotted(ps)| <= |s|
    ensures Parts(s, i, k) == if FirstsFit(Values(ps), k) then Some((Values(ps), i + |Dotted(ps)|)) else None
    decreases |ps|
  {
    hide Number, Spelling, Dotted, Parts;
    var vs := Values(ps);
    assert |ps| == 1 ==> FirstsFit(vs, k);
    hide FirstsFit;
    PartsStep(s, i, k);
    ValuesCons(ps);
    if |ps| == 1 {
      assert ps == [ps[0]] && vs == [ps[0].value % WORD];
      DottedLast(s, i, ps[0], rest);
    } else {
      DottedFirst(s, i, ps, rest);
      DottedMore(ps);
      FirstsFitStep(vs, k);
      if k < 3 {
        PartsReadDotted(s, i + |Spelling(ps[0])| + 1, ps[1..], rest, k + 1);
      }
    }
  }

  lemma FirstsFitStep(ps: seq<nat>, k: nat)
    requires |ps| > 1
    ensures FirstsFit(ps, k) <==> k < 3 && ps[0] < 256 && FirstsFit(ps[1..], k + 1)
  {
    if k < 3 && ps[0] < 256 && FirstsFit(ps[1..], k + 1) {
      forall i | 0 <= i < |ps| - 1
        ensures ps[i] < 256
      {
        if i > 0 {
          assert ps[i] == ps[1..][i - 1];
        }
      }
    }
  }

  /**
    * inet_aton() on numbers with dots between, each written in any of the three styles and read in 32
    * bits: up to four, each but the last a byte and the last no more than the bytes left, make the
    * address; anything else is turned down, and so is anything but white space behind them.
    */
  lemma AtonReadsDotted(ps: seq<Part>, rest: seq<byte>)
    requires ps != [] && Behind(rest)
    ensures var vs := Values(ps);
            Address(Dotted(ps) + rest) == if FirstsFit(vs, 0) && LastFits(vs) && (rest == [] || IsSpace(rest[0])) then Some(Combined(vs)) else None
  {
    hide Parts, Dotted;
    var s := Dotted(ps) + rest;
    assert s[0..] == s;
    PartsReadDotted(s, 0, ps, rest, 0);
    assert rest != [] ==> s[|Dotted(ps)|] == rest[0];
  }

  lemma {:induction false} NumbersReadDotted(s: seq<byte>, i: nat, ps: seq<Part>, rest: seq<byte>)
    requires i <= |s| && ps != [] && s[i..] == Dotted(ps) + rest && Behind(rest)
    ensures Numbers(s, i) == (Values(ps), i + |Dotted(ps)|)
    decreases |ps|
  {
    hide Number, Spelling, Dotted, Numbers;
    NumbersStep(s, i);
    ValuesCons(ps);
    if |ps| == 1 {
      assert ps == [ps[0]] && Values(ps) == [ps[0].value % WORD];
      DottedLast(s, i, ps[0], rest);
    } else {
      DottedFirst(s, i, ps, rest);
      DottedMore(ps);
      NumbersReadDotted(s, i + |Spelling(ps[0])| + 1, ps[1..], rest);
    }
  }

  /** inet_network() keeps the low byte of each number, up to four of them, with white space behind or nothing. */
  lemma NetworkReadsDotted(ps: seq<Part>, rest: seq<byte>)
    requires ps != [] && Behind(rest)
    ensures NetworkNumber(Dotted(ps) + rest)
            == if |ps| <= 4 && (rest == [] || IsSpace(rest[0])) then LowBytes(Values(ps)) else INADDR_NONE
  {
    hide Numbers, Dotted, LowBytes;
    var s := Dotted(ps) + rest;
    assert s[0..] == s;
    NumbersReadDotted(s, 0, ps, rest);
    assert rest != [] ==> s[|Dotted(ps)|] == rest[0];
  }

  /** Letters count the same in either case, in numbers and in front of them. */
  lemma {:induction false} DigitsFoldCase(s: seq<byte>, t: seq<byte>, i: nat, base: nat, val: nat)
    requires AlikeText(s, t) && i <= |s|
    ensures Digits(s, i, base, val) == Digits(t, i, base, val)
    decreases |s| - i
  {
    if i < |s| {
      assert Alike(s[i], t[i]);
      if Digit(s[i], base).Some? {
        DigitsFoldCase(s, t, i + 1, base, (val * base + Digit(s[i], base).value) % WORD);
      }
    }
  }

  lemma NumberFoldsCase(s: seq<byte>, t: seq<byte>, i: nat)
    requires AlikeText(s, t) && i <= |s|
    ensures Number(s, i) == Number(t, i)
  {
    assert i < |s| ==> Alike(s[i], t[i]);
    assert i + 1 < |s| ==> Alike(s[i + 1], t[i + 1]);
    DigitsFoldCase(s, t, i, 10, 0);
    if i < |s| {
      DigitsFoldCase(s, t, i + 1, 8, 0);
      if i + 1 < |s| {
        DigitsFoldCase(s, t, i + 2, 16, 0);
      }
    }
  }

  /** `08` is 8 and `019` is 17: nothing keeps 8 and 9 out of octal numbers. */
  lemma OctalEights()
    ensures Number([48, 56], 0) == (8, 2) && Number([48, 49, 57], 0) == (17, 3)
  {
    var s, t: seq<byte> := [48, 56], [48, 49, 57];
    assert Digits(s, 2, 8, 8) == (8, 2);
    assert Digits(t, 3, 8, 17) == (17, 3) && Digits(t, 2, 8, 1) == (17, 3);
  }

  lemma BytesOfAddress(a: nat)
    requires a < WORD
    ensures Combined(AddressBytes(a)) == a && LowBytes(AddressBytes(a)) == a
  {
    var b := AddressBytes(a);
    assert a / 0x100_0000 < 256;
    assert a / 0x1_0000 / 256 == a / 0x100_0000 && a / 0x100 / 256 == a / 0x1_0000 && a / 256 == a / 0x100;
    assert b[..3] == [b[0], b[1], b[2]] && b[..3][..2] == [b[0], b[1]] && [b[0], b[1]][..1] == [b[0]] && [b[0]][..0] == [];
    assert LowBytes([b[0]]) == b[0];
    assert LowBytes([b[0], b[1]]) == b[0] * 256 + b[1];
    assert LowBytes([b[0], b[1], b[2]]) == (b[0] * 256 + b[1]) * 256 + b[2];
  }

  /** The text of every address is read back by both readers. */
  lemma NtoaReadsBack(a: nat)
    requires a < WORD
    ensures Address(Ntoa(a)) == Some(a) && NetworkNumber(Ntoa(a)) == a
  {
    hide Address, NetworkNumber, Dotted, LowBytes, Combined, AddressBytes;
    var ps := Plainly(AddressBytes(a));
    assert Dotted(ps) + [] == Dotted(ps);
    AtonReadsDotted(ps, []);
    NetworkReadsDotted(ps, []);
    BytesOfAddress(a);
  }

  /** inet_addr(), in host order. */
  function Addr(s: seq<byte>): nat {
    if Address(s).Some? then Address(s).value else INADDR_NONE
  }

  /** Of all addresses only the broadcast address reads as the error value of the two that return one. */
  lemma BroadcastLooksLikeError(a: nat)
    requires a < WORD
    ensures Addr(Ntoa(a)) == INADDR_NONE <==> a == INADDR_NONE
    ensures NetworkNumber(Ntoa(a)) == INADDR_NONE <==> a == INADDR_NONE
    ensures Address(Ntoa(a)) != None
  {
    NtoaReadsBack(a);
  }

  /** Of numbers with dots between, exactly five overrun the array. */
  lemma FiveNumbersOverrun(ps: seq<Part>)
    requires ps != []
    ensures Overruns(Dotted(ps)) <==> |ps| == 5
  {
    hide Numbers, Dotted;
    assert Dotted(ps)[0..] == Dotted(ps) + [];
    NumbersReadDotted(Dotted(ps), 0, ps, []);
  }

  /** The number in front is the most significant: `1.2.3.4`, and `10.1` and `10.1.2` with the last number filling up. */
  lemma FirstIsHighest()
    ensures Combined([1, 2, 3, 4]) == 0x0102_0304 && LowBytes([1, 2, 3, 4]) == 0x0102_0304
    ensures Combined([10, 1]) == 0x0A00_0001 && Combined([10, 1, 2]) == 0x0A01_0002
    ensures AddressBytes(0x0102_0304) == [1, 2, 3, 4]
  {
    BytesOfAddress(0x0102_0304);
  }

  /** As `1.2.3.4.5` does. */
  lemma OneToFiveOverruns()
    ensures Dotted(Plainly([1, 2, 3, 4, 5])) == [49, DOT, 50, DOT, 51, DOT, 52, DOT, 53]
    ensures Overruns([49, DOT, 50, DOT, 51, DOT, 52, DOT, 53])
  {
    hide Overruns, Dotted, Spelling;
    var p1, p2, p3, p4, p5 := Part(1, Decimal), Part(2, Decimal), Part(3, Decimal), Part(4, Decimal), Part(5, Decimal);
    var ps := Plainly([1, 2, 3, 4, 5]);
    assert ps == [p1, p2, p3, p4, p5];
    LastDigit(5);
    OneMore(4, [p5], [53], [p4, p5], [52, DOT, 53]);
    OneMore(3, [p4, p5], [52, DOT, 53], [p3, p4, p5], [51, DOT, 52, DOT, 53]);
    OneMore(2, [p3, p4, p5], [51, DOT, 52, DOT, 53], [p2, p3, p4, p5], [50, DOT, 51, DOT, 52, DOT, 53]);
    OneMore(1, [p2, p3, p4, p5], [50, DOT, 51, DOT, 52, DOT, 53], ps, [49, DOT, 50, DOT, 51, DOT, 52, DOT, 53]);
    FiveNumbersOverrun(ps);
  }

  lemma LastDigit(d: nat)
    requires d < 10
    ensures Spelling(Part(d, Decimal)) == [48 + d as int] && Dotted([Part(d, Decimal)]) == [48 + d as int]
  {
  }

  /** A number of one digit and a dot before other numbers. */
  lemma OneMore(d: nat, rest: seq<Part>, t: seq<byte>, ps: seq<Part>, text: seq<byte>)
    requires d < 10 && rest != [] && Dotted(rest) == t
    requires ps == [Part(d, Decimal)] + rest && text == [48 + d as int, DOT] + t
    ensures Dotted(ps) == text
  {
    hide Spelling;
    LastDigit(d);
    assert ps[1..] == rest;
  }
}
