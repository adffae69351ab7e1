/** NSAP addresses as text: inet_nsap_addr() and inet_nsap_ntoa(). */
module Nsap {
  import opened Bytes

  const MAX_BYTES := 255

  /** A hexadecimal digit, as xtob() sees it once the letters are capitals. */
  function Nibble(c: byte): (r: Option<nat>)
    ensures r.Some? ==> r.value < 16
  {
    if 48 <= c <= 57 then Some((c as int) - 48)
    else if 65 <= c <= 70 then Some((c as int) - 55)
    else if 97 <= c <= 102 then Some((c as int) - 87)
    else None
  }

  predicate Separates(c: byte) {
    c == DOT || c == 43 || c == 47
  }

  /** The hexadecimal digits and their values: 0 to 9, A to F, and a to f like A to F; and the three separators. */
  lemma NibbleValues(c: byte)
    ensures Nibble(c).Some? <==> 48 <= c <= 57 || 65 <= c <= 70 || 97 <= c <= 102
    ensures Nibble(48) == Some(0) && Nibble(65) == Nibble(97) == Some(10)
    ensures c < 255 && Nibble(c).Some? && Nibble(c + 1).Some? ==> Nibble(c + 1).value == Nibble(c).value + 1
    ensures Separates(c) <==> c in [43, 46, 47]
  {
  }

  /** The digits are written in the order of their values, 0 to 9 and then A to F. */
  lemma HexDigitRises(m: nat, n: nat)
    requires m < n < 16
    ensures HexDigit(m) < HexDigit(n) && (m < 10 ==> 48 <= HexDigit(m) <= 57) && (n >= 10 ==> 65 <= HexDigit(n) <= 70)
  {
  }

  /** The bytes spelled from i on, at most room of them; None if something else comes up before. */
  function Spelled(s: seq<byte>, i: nat, room: nat): (r: Option<seq<byte>>)
    ensures r.Some? ==> |r.value| <= room
    decreases |s| - i
  {
    if i >= |s| || room == 0 then Some([])
    else if Separates(s[i]) then Spelled(s, i + 1, room)
    else if Nibble(s[i]).None? || Nibble(At(s, i + 1)).None? then None
    else Join([(Nibble(s[i]).value * 16 + Nibble(At(s, i + 1)).value) as byte], Spelled(s, i + 2, room - 1))
  }

  function Join(a: seq<byte>, r: Option<seq<byte>>): Option<seq<byte>> {
    if r.None? then None else Some(a + r.value)
  }

  lemma JoinTwice(a: seq<byte>, b: seq<byte>, r: Option<seq<byte>>)
    ensures Join(a, Join(b, r)) == Join(a + b, r)
  {
    if r.Some? {
      Regroup(a, b, r.value);
    }
  }

  lemma JoinNothing(r: Option<seq<byte>>)
    ensures Join([], r) == r
  {
    if r.Some? {
      assert [] + r.value == r.value;
    }
  }

  /** How many bytes are stored by the time reading from i on stops, for whatever reason. */
  function Stored(s: seq<byte>, i: nat, room: nat): (n: nat)
    ensures n <= room
    ensures Spelled(s, i, room).Some? ==> n == |Spelled(s, i, room).value|
    decreases |s| - i
  {
    if i >= |s| || room == 0 then 0
    else if Separates(s[i]) then Stored(s, i + 1, room)
    else if Nibble(s[i]).None? || Nibble(At(s, i + 1)).None? then 0
    else 1 + Stored(s, i + 2, room - 1)
  }

  /** The 32-bit number of bytes that maxlen is compared as, with an unsigned one. */
  function Limit(maxLen: int): nat
    requires -0x8000_0000 <= maxLen < 0x8000_0000
  {
    if maxLen < 0 then maxLen + 0x1_0000_0000 else maxLen
  }

  /** inet_nsap_addr(): the length is 0 for a text that spells no bytes, for whatever reason. */
  method Addr(s: seq<byte>, binary: array<byte>, maxLen: int) returns (len: nat)
    requires NoNul(s) && -0x8000_0000 <= maxLen < 0x8000_0000
    requires Stored(s, 0, Limit(maxLen)) <= binary.Length
    modifies binary
    ensures var r := Spelled(s, 0, Limit(maxLen)); len == if r.None? then 0 else |r.value|
    ensures var r := Spelled(s, 0, Limit(maxLen)); r.Some? ==> binary[..len] == r.value
    ensures forall k :: Stored(s, 0, Limit(maxLen)) <= k < binary.Length ==> binary[k] == old(binary[k])
  {
    hide Spelled, Join, Stored;
    len := 0;
    var i, limit := 0, Limit(maxLen);
    ghost var stored := Stored(s, 0, limit);
    JoinNothing(Spelled(s, 0, limit));
    assert binary[..0] == [];
    while i < |s| && len < limit
      invariant len <= stored && len <= limit && i <= |s| && stored == len + Stored(s, i, limit - len)
      invariant Spelled(s, 0, limit) == Join(binary[..len], Spelled(s, i, limit - len))
      invariant forall k :: stored <= k < binary.Length ==> binary[k] == old(binary[k])
      decreases |s| - i
    {
      var c := s[i];
      SpelledStep(s, i, limit - len);
      i := i + 1;
      if c != DOT && c != 43 && c != 47 {
        var high := Nibble(c);
        if high.None? {
          JoinNone(binary[..len]);
          return 0;
        }
        var low := Nibble(At(s, i));
        if low.None? {
          JoinNone(binary[..len]);
          return 0;
        }
        ghost var before := binary[..len];
        binary[len] := (high.value * 16 + low.value) as byte;
        assert binary[..len + 1] == before + [binary[len]];
        JoinTwice(before, [binary[len]], Spelled(s, i + 1, limit - len - 1));
        i := i + 1;
        len := len + 1;
      }
    }
    SpelledEnd(s, i, limit - len);
    JoinEmpty(binary[..len]);
  }

  lemma SpelledStep(s: seq<byte>, i: nat, room: nat)
    requires i < |s| && room > 0
    ensures Spelled(s, i, room) ==
            if Separates(s[i]) then Spelled(s, i + 1, room)
            else if Nibble(s[i]).None? || Nibble(At(s, i + 1)).None? then None
            else Join([(Nibble(s[i]).value * 16 + Nibble(At(s, i + 1)).value) as byte], Spelled(s, i + 2, room - 1))
    ensures Stored(s, i, room) ==
            if Separates(s[i]) then Stored(s, i + 1, room)
            else if Nibble(s[i]).None? || Nibble(At(s, i + 1)).None? then 0
            else 1 + Stored(s, i + 2, room - 1)
  {
  }

  lemma SpelledEnd(s: seq<byte>, i: nat, room: nat)
    requires i >= |s| || room == 0
    ensures Spelled(s, i, room) == Some([])
  {
  }

  lemma JoinNone(a: seq<byte>)
    ensures Join(a, None) == None
  {
  }

  lemma JoinEmpty(a: seq<byte>)
    ensures Join(a, Some([])) == Some(a)
  {
    assert a + [] == a;
  }

  // ----- the text

  function HexDigit(n: nat): byte
    requires n < 16
  {
    if n < 10 then (48 + n) as byte else (55 + n) as byte
  }

  lemma DigitReadsBack(n: nat)
    requires n < 16
    ensures Nibble(HexDigit(n)) == Some(n) && !Separates(HexDigit(n))
  {
  }

  /** The text of the bytes from i on: a dot behind each even one that is not the last. */
  function TextFrom(b: seq<byte>, i: nat): (r: seq<byte>)
    requires i <= |b|
    decreases |b| - i
  {
    if i == |b| then []
    else [HexDigit((b[i] as int) / 16), HexDigit((b[i] as int) % 16)] + (Dot(b, i) + TextFrom(b, i + 1))
  }

  function Dot(b: seq<byte>, i: nat): seq<byte> {
    if i % 2 == 0 && i + 1 < |b| then [DOT] else []
  }

  /** No more than 255 bytes are written out. */
  function Text(b: seq<byte>): seq<byte> {
    TextFrom(if |b| > MAX_BYTES then b[..MAX_BYTES] else b, 0)
  }

  /** Two digits for each byte, and a dot behind each even one but the last. */
  lemma {:induction false} TextFromLength(b: seq<byte>, i: nat)
    requires i <= |b|
    ensures |TextFrom(b, i)| == 2 * (|b| - i) + DotsLeft(|b|, i)
    decreases |b| - i
  {
    hide DotsLeft;
    if i == |b| {
      NoDotsLeft(|b|);
    } else {
      TextFromLength(b, i + 1);
      NextDot(|b|, i);
      assert |TextFrom(b, i)| == 2 + |Dot(b, i)| + |TextFrom(b, i + 1)|;
    }
  }

  /** The dots in the text of the bytes from i on, of n. */
  function DotsLeft(n: nat, i: nat): int {
    if i < n then n / 2 - (i + 1) / 2 else 0
  }

  lemma NoDotsLeft(n: nat)
    ensures DotsLeft(n, n) == 0
  {
  }

  lemma NextDot(n: nat, i: nat)
    requires i < n
    ensures DotsLeft(n, i) == (if i % 2 == 0 && i + 1 < n then 1 else 0) + DotsLeft(n, i + 1)
  {
  }

  lemma TextStep(b: seq<byte>, i: nat)
    requires i < |b|
    ensures TextFrom(b, i) ==
            [HexDigit((b[i] as int) / 16)] + ([HexDigit((b[i] as int) % 16)] + (Dot(b, i) + TextFrom(b, i + 1)))
  {
    hide HexDigit, Dot;
  }

  /** The size of the routine's own buffer. */
  const STATIC_SIZE := 255 * 3

  /** How long the text is, and that the routine's own buffer always holds it and its NUL. */
  lemma TextLength(b: seq<byte>)
    ensures var n := if |b| > MAX_BYTES then MAX_BYTES else |b|;
            |Text(b)| == 2 * n + n / 2 && |Text(b)| <= 637 < STATIC_SIZE
  {
    TextFromLength(if |b| > MAX_BYTES then b[..MAX_BYTES] else b, 0);
  }

  /** inet_nsap_ntoa(), into any buffer with room for the text and its NUL. */
  method Ntoa(binary: seq<byte>, ascii: array<byte>)
    requires |Text(binary)| < ascii.Length
    modifies ascii
    ensures var n := |Text(binary)|; ascii[..n] == Text(binary) && ascii[n] == 0
    ensures forall k :: |Text(binary)| < k < ascii.Length ==> ascii[k] == old(ascii[k])
  {
    hide HexDigit, TextFrom;
    var b := if |binary| > MAX_BYTES then binary[..MAX_BYTES] else binary;
    var i, p := 0, 0;
    while i < |b|
      invariant i <= |b| && p <= |TextFrom(b, 0)|
      invariant TextFrom(b, 0) == ascii[..p] + TextFrom(b, i)
      invariant forall k :: |TextFrom(b, 0)| < k < ascii.Length ==> ascii[k] == old(ascii[k])
    {
      TextStep(b, i);
      ghost var before := ascii[..p];
      var high, low := HexDigit((b[i] as int) / 16), HexDigit((b[i] as int) % 16);
      ascii[p], ascii[p + 1] := high, low;
      p := p + 2;
      assert ascii[..p] == before + [high] + [low];
      if i % 2 == 0 && i + 1 < |b| {
        ascii[p] := DOT;
        p := p + 1;
      }
      assert ascii[..p] == before + [high] + [low] + Dot(b, i);
      Associate(before, [high], [low], Dot(b, i), TextFrom(b, i + 1));
      i := i + 1;
    }
    TextEnd(b);
    ascii[p] := 0;
  }

  /** The same with no buffer given: the routine's own does. */
  method NtoaStatic(binary: seq<byte>, tmpbuf: array<byte>)
    requires tmpbuf.Length == STATIC_SIZE
    modifies tmpbuf
    ensures var n := |Text(binary)|; n < STATIC_SIZE && tmpbuf[..n] == Text(binary) && tmpbuf[n] == 0
  {
    TextLength(binary);
    Ntoa(binary, tmpbuf);
  }

  lemma TextEnd(b: seq<byte>)
    ensures TextFrom(b, |b|) == []
  {
  }

  lemma Associate(a: seq<byte>, b: seq<byte>, c: seq<byte>, d: seq<byte>, e: seq<byte>)
    ensures a + (b + (c + (d + e))) == a + b + c + d + e
  {
  }

  /** What was written out from byte i on is read back. */
  lemma {:induction false} TextReadsBack(s: seq<byte>, p: nat, b: seq<byte>, i: nat, room: nat)
    requires i <= |b| && p <= |s| && s[p..] == TextFrom(b, i) && |b| - i <= room
    ensures Spelled(s, p, room) == Some(b[i..])
    decreases |b| - i
  {
    hide HexDigit, TextFrom, Spelled, Nibble, Separates, Join;
    if i == |b| {
      TextEnd(b);
      SpelledEnd(s, p, room);
    } else {
      TextStep(b, i);
      var high, low := (b[i] as int) / 16, (b[i] as int) % 16;
      var rest := TextFrom(b, i + 1);
      DropPrefix(s, p, [HexDigit(high)], [HexDigit(low)] + (Dot(b, i) + rest));
      DropPrefix(s, p + 1, [HexDigit(low)], Dot(b, i) + rest);
      DropPrefix(s, p + 2, Dot(b, i), rest);
      DigitReadsBack(high);
      DigitReadsBack(low);
      SpelledStep(s, p, room);
      TextReadsBack(s, p + 2 + |Dot(b, i)|, b, i + 1, room - 1);
      SkipDot(s, p + 2, b, i, room - 1);
      JoinSome([b[i]], b[i + 1..]);
      assert b[i..] == [b[i]] + b[i + 1..];
    }
  }

  lemma JoinSome(a: seq<byte>, b: seq<byte>)
    ensures Join(a, Some(b)) == Some(a + b)
  {
  }

  lemma SkipDot(s: seq<byte>, p: nat, b: seq<byte>, i: nat, room: nat)
    requires p + |Dot(b, i)| <= |s| && s[p..p + |Dot(b, i)|] == Dot(b, i)
    ensures Spelled(s, p, room) == Spelled(s, p + |Dot(b, i)|, room)
  {
    if Dot(b, i) != [] {
      assert s[p] == s[p..p + 1][0];
    }
  }

  /** Every string of up to 255 bytes is read back from its text, given the room. */
  lemma RoundTrip(b: seq<byte>, room: nat)
    requires |b| <= MAX_BYTES && |b| <= room
    ensures Spelled(Text(b), 0, room) == Some(b)
  {
    assert Text(b)[0..] == Text(b) && b[0..] == b;
    TextReadsBack(Text(b), 0, b, 0, room);
  }

  function FirstBytes(b: seq<byte>, n: nat): seq<byte> {
    if n < |b| then b[..n] else b
  }

  /** Whatever the room, as many of the first 255 bytes as it holds are read back. */
  lemma RoundTripCut(b: seq<byte>, room: nat)
    ensures Spelled(Text(b), 0, room) == Some(FirstBytes(FirstBytes(b, MAX_BYTES), room))
  {
    hide TextFrom, Spelled;
    var c := FirstBytes(b, MAX_BYTES);
    assert Text(c) == Text(b);
    RoundTrip(c, room + MAX_BYTES);
    SpelledCut(Text(c), 0, room + MAX_BYTES, room);
  }

  lemma {:induction false} SpelledCut(s: seq<byte>, i: nat, room: nat, less: nat)
    requires Spelled(s, i, room).Some? && less <= room
    ensures Spelled(s, i, less) == Some(FirstBytes(Spelled(s, i, room).value, less))
    decreases |s| - i
  {
    if i < |s| && less > 0 {
      SpelledStep(s, i, room);
      SpelledStep(s, i, less);
      if Separates(s[i]) {
        SpelledCut(s, i + 1, room, less);
      } else {
        var rest := Spelled(s, i + 2, room - 1).value;
        SpelledCut(s, i + 2, room - 1, less - 1);
        var x := [(Nibble(s[i]).value * 16 + Nibble(At(s, i + 1)).value) as byte];
        assert FirstBytes(x + rest, less) == x + FirstBytes(rest, less - 1);
      }
    }
  }
}
