/**
  * The password codec of ruserpass: blocks of eight characters, each enciphered with the block
  * before it as the key and written as eleven cipher characters and a `$`.
  */
module PasswordChain {
  import T = DesTables
  import opened Bytes
  import opened Des
  import opened DesCipher
  import opened PasswordCodec

  const DOLLAR: byte := 36

  function Zeros(n: nat): (b: seq<bit>)
    ensures |b| == n && forall i :: 0 <= i < n ==> b[i] == 0
  {
    seq(n, i requires 0 <= i < n => 0)
  }

  /** The cipher text of one block of characters. */
  ghost function Encrypted8(s: seq<byte>, key: seq<byte>): (c: seq<byte>)
    ensures |c| == 11
  {
    KnotText(Cipher(ClearBlock(s), KeysFor(ClearBlock(key), false)) + Zeros(2))
  }

  /** The characters of one cipher text block, whatever it holds. */
  ghost function Decrypted8(c: seq<byte>, key: seq<byte>): (s: seq<byte>)
    ensures NoNul(s) && |s| <= 10
  {
    var b := KnotBlock(c);
    UpToNul(ClearText(Cipher(b[..64], KeysFor(ClearBlock(key), true)) + b[64..] + Zeros(13)))
  }

  function Chunk(s: seq<byte>): (n: nat)
    ensures n <= |s| && n <= 8 && (s != [] ==> n > 0)
  {
    if |s| < 8 then |s| else 8
  }

  /** What nbsencrypt() makes of a string. */
  ghost function Encrypted(s: seq<byte>, key: seq<byte>): seq<byte>
    decreases |s|
  {
    if s == [] then []
    else
      var n := Chunk(s);
      Encrypted8(s[..n], key) + [DOLLAR] + Encrypted(s[n..], s[..n])
  }

  function FirstDollar(c: seq<byte>): (n: nat)
    ensures n <= |c| && (forall i :: 0 <= i < n ==> c[i] != DOLLAR) && (n < |c| ==> c[n] == DOLLAR)
  {
    if c == [] || c[0] == DOLLAR then 0 else 1 + FirstDollar(c[1..])
  }

  /** What nbsdecrypt() makes of a string. */
  ghost function Decrypted(c: seq<byte>, key: seq<byte>): seq<byte>
    decreases |c|
  {
    if c == [] then []
    else
      var n := FirstDollar(c);
      var p := Decrypted8(c[..n], key);
      if n == |c| then p else p + Decrypted(c[n + 1..], p)
  }

  // ----- the round trip

  lemma Block8RoundTrip(s: seq<byte>, key: seq<byte>)
    requires |s| <= 8 && SevenBit(s)
    ensures Decrypted8(Encrypted8(s, key), key) == s
  {
    hide Cipher, ClearBlock, KeysFor, KnotBlock, KnotText, ClearText, UpToNul;
    var b := Cipher(ClearBlock(s), KeysFor(ClearBlock(key), false));
    KnotReadsBack(b + Zeros(2));
    assert (b + Zeros(2))[..64] == b && (b + Zeros(2))[64..] == Zeros(2);
    DesInversion(ClearBlock(s), ClearBlock(key), false);
    var d := ClearBlock(s) + Zeros(2) + Zeros(13);
    assert d[..64] == ClearBlock(s);
    ClearReadsBack(s, d);
  }

  lemma EncryptedHasNoDollar(s: seq<byte>, key: seq<byte>)
    ensures forall i :: 0 <= i < 11 ==> Encrypted8(s, key)[i] != DOLLAR && Encrypted8(s, key)[i] != 0
  {
  }

  lemma {:induction false} FirstDollarAt(a: seq<byte>, rest: seq<byte>)
    requires forall i :: 0 <= i < |a| ==> a[i] != DOLLAR
    ensures FirstDollar(a + [DOLLAR] + rest) == |a|
  {
    var c := a + [DOLLAR] + rest;
    assert c[|a|] == DOLLAR;
  }

  lemma SevenBitParts(s: seq<byte>, n: nat)
    requires SevenBit(s) && n <= |s|
    ensures SevenBit(s[..n]) && SevenBit(s[n..])
  {
  }

  lemma SplitAtDollar(a: seq<byte>, rest: seq<byte>)
    requires |a| == 11
    ensures (a + [DOLLAR] + rest)[..11] == a && (a + [DOLLAR] + rest)[12..] == rest
  {
  }

  /** Decrypting what was encrypted with the same key gives back any string of 7-bit characters. */
  lemma {:induction false} ChainRoundTrip(s: seq<byte>, key: seq<byte>)
    requires SevenBit(s)
    ensures Decrypted(Encrypted(s, key), key) == s
    decreases |s|
  {
    hide Encrypted8, Decrypted8, SevenBit, FirstDollar;
    if s != [] {
      var n := Chunk(s);
      var a, rest := Encrypted8(s[..n], key), Encrypted(s[n..], s[..n]);
      SevenBitParts(s, n);
      Block8RoundTrip(s[..n], key);
      EncryptedHasNoDollar(s[..n], key);
      FirstDollarAt(a, rest);
      SplitAtDollar(a, rest);
      ChainRoundTrip(s[n..], s[..n]);
      assert s == s[..n] + s[n..];
    }
  }

  lemma ChunkIs(s: seq<byte>)
    ensures Chunk(s) == if |s| < 8 then |s| else 8
  {
  }

  /** Block i of a string: eight characters, or what is left. */
  function ClearCell(s: seq<byte>, i: nat): seq<byte>
    requires 8 * i <= |s|
  {
    s[8 * i..if 8 * i + 8 <= |s| then 8 * i + 8 else |s|]
  }

  /**
    * Each block fills twelve characters, eleven of cipher text and a dollar; its key is the block
    * before it in clear, and the caller's key for the first.
    */
  lemma {:induction false} EncryptedCell(s: seq<byte>, key: seq<byte>, i: nat)
    requires 8 * i < |s|
    ensures 12 * i + 12 <= |Encrypted(s, key)|
    ensures Encrypted(s, key)[12 * i..12 * i + 12]
            == Encrypted8(ClearCell(s, i), if i == 0 then key else ClearCell(s, i - 1)) + [36]
    decreases i
  {
    hide Encrypted8, Chunk;
    EncryptedLength(s, key);
    var n := Chunk(s);
    ChunkIs(s);
    var cell, rest := Encrypted8(s[..n], key) + [DOLLAR], Encrypted(s[n..], s[..n]);
    assert Encrypted(s, key) == cell + rest;
    if i > 0 {
      var t := s[8..];
      EncryptedCell(t, s[..8], i - 1);
      CellBehind(s, i);
      if i > 1 {
        CellBehind(s, i - 1);
      }
      SliceBehind(cell, rest, 12 * (i - 1), 12);
    } else {
      assert (cell + rest)[0..12] == cell;
    }
  }

  lemma CellBehind(s: seq<byte>, i: nat)
    requires 0 < i && 8 * i <= |s|
    ensures ClearCell(s[8..], i - 1) == ClearCell(s, i)
  {
    var from, to := 8 * i, if 8 * i + 8 <= |s| then 8 * i + 8 else |s|;
    assert ClearCell(s[8..], i - 1) == s[8..][from - 8..to - 8] == s[from..to];
  }

  lemma SliceBehind(a: seq<byte>, b: seq<byte>, j: nat, n: nat)
    requires j + n <= |b|
    ensures (a + b)[|a| + j..|a| + j + n] == b[j..j + n]
  {
  }

  /** Twelve characters of cipher text for every eight begun, none of them NUL. */
  lemma {:induction false} EncryptedLength(s: seq<byte>, key: seq<byte>)
    ensures |Encrypted(s, key)| == 12 * ((|s| + 7) / 8) && NoNul(Encrypted(s, key))
    decreases |s|
  {
    hide Encrypted8;
    if s != [] {
      var n := Chunk(s);
      EncryptedLength(s[n..], s[..n]);
      EncryptedHasNoDollar(s[..n], key);
    }
  }

  /** Whatever the cipher text, each of its blocks makes at most ten characters. */
  lemma {:induction false} DecryptedLength(c: seq<byte>, key: seq<byte>)
    ensures |Decrypted(c, key)| <= 10 * (Dollars(c) + 1) && NoNul(Decrypted(c, key))
    decreases |c|
  {
    hide Decrypted8;
    if c != [] {
      var n := FirstDollar(c);
      var p := Decrypted8(c[..n], key);
      if n < |c| {
        DecryptedLength(c[n + 1..], p);
        DollarsBehind(c, n);
      }
    }
  }

  function Dollars(c: seq<byte>): nat {
    if c == [] then 0 else (if c[0] == DOLLAR then 1 else 0) + Dollars(c[1..])
  }

  lemma {:induction false} DollarsBehind(c: seq<byte>, n: nat)
    requires n < |c| && c[n] == DOLLAR
    ensures Dollars(c) >= 1 + Dollars(c[n + 1..])
  {
    if n > 0 {
      assert c[1..][n..] == c[n + 1..];
      DollarsBehind(c[1..], n - 1);
    }
  }

  // ----- the routines on their static buffers

  class PasswordCoder {
    const cipher: BlockCipher
    const keyblk: array<bit>
    const blk: array<bit>
    const iobuf: array<byte>

    ghost predicate Valid()
      reads blk
    {
      && cipher.Valid() && keyblk.Length == 100 && blk.Length == 100 && iobuf.Length == 30
      && keyblk != blk && keyblk !in cipher.Arrays() && blk !in cipher.Arrays() && iobuf !in cipher.Arrays()
      // nothing is ever stored past the first 70 bits of the block
      && forall p :: 70 <= p < 100 ==> blk[p] == 0
    }

    ghost function Buffers(): set<object> {
      cipher.Arrays() + {keyblk, blk} + {iobuf}
    }

    constructor ()
      ensures Valid() && fresh(Buffers())
    {
      cipher := new BlockCipher();
      keyblk := new bit[100](_ => 0);
      blk := new bit[100](_ => 0);
      iobuf := new byte[30](_ => 0);
    }

    /** enblkclr(): pack a clear string, of which only eight characters matter. */
    static method PackClear(b: array<bit>, s: seq<byte>)
      requires b.Length == 100
      modifies b
      ensures b[..64] == ClearBlock(s)
      ensures forall k :: 0 <= k < 8 ==> Partial(b[..], 8 * k, 8) == if k < |s| then 2 * (s[k] % 128) else 0
      ensures forall p :: 64 <= p < 100 ==> b[p] == if p < 70 then 0 else old(b[p])
    {
      hide ClearBit, Partial;
      for p := 0 to 70
        invariant forall q :: 0 <= q < p ==> b[q] == 0
        invariant forall q :: 70 <= q < 100 ==> b[q] == old(b[q])
      {
        b[p] := 0;
      }
      var k, i := 0, 0;
      while k < |s| && i < 64
        invariant 0 <= k <= |s| && i == 8 * k <= 64
        invariant forall q :: 0 <= q < i ==> b[q] == if q % 8 < 7 then ClearBit(s[q / 8], q % 8) else 0
        invariant forall q :: i <= q < 70 ==> b[q] == 0
        invariant forall q :: 70 <= q < 100 ==> b[q] == old(b[q])
      {
        ghost var start := i;
        for j := 0 to 7
          invariant i == start + j
          invariant forall q :: 0 <= q < start ==> b[q] == if q % 8 < 7 then ClearBit(s[q / 8], q % 8) else 0
          invariant forall q :: 0 <= q < j ==> b[start + q] == ClearBit(s[k], q)
          invariant forall q :: i <= q < 70 ==> b[q] == 0
          invariant forall q :: 70 <= q < 100 ==> b[q] == old(b[q])
        {
          b[i] := ClearBit(s[k], j);
          i := i + 1;
        }
        i := i + 1;
        forall q | start <= q < i ensures b[q] == if q % 8 < 7 then ClearBit(s[q / 8], q % 8) else 0 {
          assert q / 8 == k && q % 8 == q - start;
          assert b[q] == b[start + (q - start)];
        }
        k := k + 1;
      }
      assert b[..64] == ClearBlock(s);
      ClearBlockPacked(s, b[..]);
    }

    /** enblknot(): unpack cipher characters, of which only eleven matter. */
    static method PackKnot(b: array<bit>, s: seq<byte>)
      requires b.Length == 100
      modifies b
      ensures b[..66] == KnotBlock(s)
      ensures forall k, v :: 0 <= k < |s| && k < 11 && Stands(s[k], v) ==> Partial(b[..], 6 * k, 6) == v
      ensures forall p :: 66 <= p < 100 ==> b[p] == if p < 70 then 0 else old(b[p])
    {
      hide KnotBit, KnotValue, Partial, Stands;
      for p := 0 to 70
        invariant forall q :: 0 <= q < p ==> b[q] == 0
        invariant forall q :: 70 <= q < 100 ==> b[q] == old(b[q])
      {
        b[p] := 0;
      }
      var k, i := 0, 0;
      while k < |s| && i < 64
        invariant 0 <= k <= |s| && i == 6 * k <= 66
        invariant forall q :: 0 <= q < i ==> b[q] == KnotBit(KnotValue(s[q / 6]), q % 6)
        invariant forall q :: i <= q < 70 ==> b[q] == 0
        invariant forall q :: 70 <= q < 100 ==> b[q] == old(b[q])
      {
        ghost var start := i;
        var v := KnotValue(s[k]);
        for j := 0 to 6
          invariant i == start + j
          invariant forall q :: 0 <= q < start ==> b[q] == KnotBit(KnotValue(s[q / 6]), q % 6)
          invariant forall q :: 0 <= q < j ==> b[start + q] == KnotBit(v, q)
          invariant forall q :: i <= q < 70 ==> b[q] == 0
          invariant forall q :: 70 <= q < 100 ==> b[q] == old(b[q])
        {
          b[i] := KnotBit(v, j);
          i := i + 1;
        }
        forall q | start <= q < i ensures b[q] == KnotBit(KnotValue(s[q / 6]), q % 6) {
          assert q / 6 == k && q % 6 == q - start;
          assert b[q] == b[start + (q - start)];
        }
        k := k + 1;
      }
      assert b[..66] == KnotBlock(s);
      KnotBlockPacked(s, b[..]);
    }

    /** deblkclr(): ten characters of seven bits, as a string. */
    method UnpackClear() returns (s: seq<byte>)
      requires Valid()
      modifies iobuf
      ensures s == UpToNul(ClearText(blk[..79]))
      ensures forall i :: 0 <= i < |s| ==> s[i] == Partial(blk[..79], 8 * i, 7)
      ensures |s| < 10 ==> Partial(blk[..79], 8 * |s|, 7) == 0
    {
      ghost var b := blk[..79];
      for i := 0 to 10
        invariant forall k :: 0 <= k < i ==> iobuf[k] == SevenBits(b, 8 * k)
      {
        var c: int := 0;
        for j := 0 to 7
          invariant c == Partial(b, 8 * i, j)
        {
          c := 2 * c + (blk[8 * i + j] as int);
          assert b[8 * i + j] == blk[8 * i + j];
        }
        PartialSeven(b, 8 * i);
        iobuf[i] := c;
      }
      iobuf[10] := 0;
      assert iobuf[..10] == ClearText(b);
      CutAtTen(iobuf[..11], ClearText(b));
      forall i | 0 <= i < 10
        ensures ClearText(b)[i] == Partial(b, 8 * i, 7)
      {
        PartialSeven(b, 8 * i);
      }
      return UpToNul(iobuf[..11]);
    }

    /** deblknot(): eleven cipher characters. */
    method UnpackKnot() returns (s: seq<byte>)
      requires Valid()
      modifies iobuf
      ensures s == KnotText(blk[..66])
      ensures |s| == 11 && forall i :: 0 <= i < 11 ==> Stands(s[i], Partial(blk[..66], 6 * i, 6))
    {
      hide KnotChar;
      ghost var b := blk[..66];
      for i := 0 to 11
        invariant forall k :: 0 <= k < i ==> iobuf[k] == KnotChar(SixBits(b, 6 * k))
        invariant forall k :: 0 <= k < i ==> Stands(iobuf[k], Partial(b, 6 * k, 6))
      {
        var c: int := 0;
        for j := 0 to 6
          invariant c == Partial(b, 6 * i, j)
        {
          c := 2 * c + (blk[6 * i + j] as int);
          assert b[6 * i + j] == blk[6 * i + j];
        }
        PartialSix(b, 6 * i);
        KnotCharStands(c);
        iobuf[i] := KnotChar(c);
      }
      iobuf[11] := 0;
      assert iobuf[..11] == KnotText(b);
      return iobuf[..11];
    }

    /** Set the key schedule from a string and load the E table. */
    method Prepare(key: seq<byte>)
      requires Valid()
      modifies keyblk, cipher.C, cipher.D, cipher.KS, cipher.E
      ensures cipher.Keyed(ClearBlock(key)) && cipher.Loaded()
    {
      hide ClearBlock, KeyBit, T.E;
      PackClear(keyblk, key);
      cipher.SetKey(keyblk);
      for i := 0 to 48
        invariant forall j :: 0 <= j < i ==> cipher.E[j] == T.E(j)
        modifies cipher.E
      {
        cipher.E[i] := T.E(i);
      }
    }

    /** nbs8encrypt(): the cipher text of up to eight characters. */
    method Encrypt8(s: seq<byte>, key: seq<byte>) returns (c: seq<byte>)
      requires Valid()
      modifies Buffers()
      ensures Valid() && c == Encrypted8(s, key)
    {
      hide ClearBlock, KeysFor, Cipher, KnotText;
      Prepare(key);
      PackClear(blk, s);
      cipher.Encrypt(blk, false, ClearBlock(key));
      assert blk[..66] == blk[..64] + Zeros(2);
      c := UnpackKnot();
    }

    /** nbs8decrypt(): the characters of a block of cipher text. */
    method Decrypt8(c: seq<byte>, key: seq<byte>) returns (s: seq<byte>)
      requires Valid()
      modifies Buffers()
      ensures Valid() && s == Decrypted8(c, key)
    {
      hide ClearBlock, KeysFor, Cipher, ClearText, KnotBlock, UpToNul;
      Prepare(key);
      PackKnot(blk, c);
      ghost var b := KnotBlock(c);
      assert forall p :: 0 <= p < 66 ==> blk[p] == blk[..66][p] == b[p];
      assert blk[..64] == b[..64];
      cipher.Encrypt(blk, true, ClearBlock(key));
      assert blk[..79] == blk[..64] + b[64..] + Zeros(13);
      s := UnpackClear();
    }

    /** strcat(): put a string behind another in a buffer. */
    static method Strcat(dst: array<byte>, src: seq<byte>, ghost text: seq<byte>)
      requires HoldsString(dst, text) && NoNul(src) && |text| + |src| < dst.Length
      modifies dst
      ensures HoldsString(dst, text + src)
      ensures forall k :: |text| + |src| < k < dst.Length ==> dst[k] == old(dst[k])
    {
      var n := 0;
      while dst[n] != 0
        invariant n <= |text|
        decreases |text| - n
        modifies {}
      {
        n := n + 1;
      }
      for k := 0 to |src|
        invariant forall j :: 0 <= j < n ==> dst[j] == text[j]
        invariant forall j :: 0 <= j < k ==> dst[n + j] == src[j]
        invariant forall j :: n + |src| < j < dst.Length ==> dst[j] == old(dst[j])
      {
        dst[n + k] := src[k];
      }
      dst[n + |src|] := 0;
    }

    /** The buffer holds the text as a C string. */
    static ghost predicate HoldsString(a: array<byte>, text: seq<byte>)
      reads a
    {
      |text| < a.Length && NoNul(text) && a[|text|] == 0 && forall j :: 0 <= j < |text| ==> a[j] == text[j]
    }

    static method PutBlock(dst: array<byte>, c: seq<byte>, ghost text: seq<byte>)
      requires HoldsString(dst, text) && NoNul(c) && |text| + |c| + 1 < dst.Length
      modifies dst
      ensures HoldsString(dst, text + (c + [DOLLAR]))
      ensures forall k :: |text| + |c| + 1 < k < dst.Length ==> dst[k] == old(dst[k])
    {
      Strcat(dst, c, text);
      Strcat(dst, [DOLLAR], text + c);
      Regroup(text, c, [DOLLAR]);
    }

    /** A buffer that starts with a NUL. */
    static method Clear(dst: array<byte>)
      requires dst.Length > 0
      modifies dst
      ensures HoldsString(dst, []) && forall k :: 0 < k < dst.Length ==> dst[k] == old(dst[k])
    {
      dst[0] := 0;
    }

    /** nbsencrypt(): the cipher text of a whole string, in a buffer with room for it and its NUL. */
    method Encrypt(s: seq<byte>, key: seq<byte>, result: array<byte>)
      requires Valid() && NoNul(s) && |key| < 20
      requires result !in Buffers() && |Encrypted(s, key)| < result.Length
      modifies Buffers(), result
      ensures Valid() && HoldsString(result, Encrypted(s, key))
      ensures forall k :: |Encrypted(s, key)| < k < result.Length ==> result[k] == old(result[k])
    {
      hide Encrypted8, HoldsString;
      Clear(result);
      ghost var text: seq<byte> := [];
      var oldbuf, at := key, 0;
      assert s[0..] == s;
      while at < |s|
        invariant Valid() && at <= |s| && HoldsString(result, text)
        invariant Encrypted(s, key) == text + Encrypted(s[at..], oldbuf)
        invariant forall k :: |Encrypted(s, key)| < k < result.Length ==> result[k] == old(result[k])
      {
        var buf := [];
        ghost var start := at;
        while |buf| < 8 && at < |s|
          invariant start <= at <= |s| && |buf| <= 8 && buf == s[start..at]
          modifies {}
        {
          buf := buf + [s[at]];
          at := at + 1;
        }
        assert buf == s[start..][..Chunk(s[start..])] && s[at..] == s[start..][Chunk(s[start..])..];
        EncryptedHasNoDollar(buf, oldbuf);
        var c := Encrypt8(buf, oldbuf);
        Regroup(text, c + [DOLLAR], Encrypted(s[at..], buf));
        PutBlock(result, c, text);
        text := text + (c + [DOLLAR]);
        oldbuf := buf;
      }
      assert text + [] == text;
    }

    /**
      * nbsdecrypt(): the characters of a cipher text, a NUL-terminated string at the start of cpt,
      * in which every `$` is overwritten by a NUL; the result's buffer has room for them and a NUL.
      */
    method Decrypt(cpt: array<byte>, key: seq<byte>, result: array<byte>)
      requires Valid() && |key| < 20 && cpt !in Buffers() && |UpToNul(cpt[..])| < cpt.Length
      requires result !in Buffers() && result != cpt && |Decrypted(UpToNul(cpt[..]), key)| < result.Length
      modifies Buffers(), cpt, result
      ensures Valid() && HoldsString(result, Decrypted(old(UpToNul(cpt[..])), key))
      ensures forall k :: |Decrypted(old(UpToNul(cpt[..])), key)| < k < result.Length ==> result[k] == old(result[k])
      ensures forall i :: 0 <= i < cpt.Length ==>
                cpt[i] == if i < |old(UpToNul(cpt[..]))| && old(cpt[i]) == DOLLAR then 0 else old(cpt[i])
    {
      hide Decrypted8, UpToNul, Decrypted, FirstDollar, HoldsString;
      ghost var text, m := UpToNul(cpt[..]), cpt[..];
      ghost var all, written: seq<byte> := Decrypted(text, key), [];
      ghost var n: nat := |text|;
      Clear(result);
      var oldbuf, p := key, 0;
      assert text[0..] == text;
      DecryptedNothing(key);
      while cpt[p] != 0
        invariant Valid() && p <= n && (p == n ==> Decrypted(text[p..], oldbuf) == [])
        invariant HoldsString(result, written) && all == written + Decrypted(text[p..], oldbuf)
        invariant forall k :: |all| < k < result.Length ==> result[k] == old(result[k])
        invariant forall i :: p <= i < cpt.Length ==> cpt[i] == m[i]
        invariant forall i :: 0 <= i < p ==> cpt[i] == if m[i] == DOLLAR then 0 else m[i]
        decreases n - p
      {
        ghost var before := written;
        assert text[p..] == m[p..n];
        var s, c, block := DecryptBlock(cpt, p, n, m, oldbuf, result, written);
        written := written + block;
        if c == 0 {
          return;
        }
        assert text[s + 1..] == m[s + 1..n];
        Regroup(before, block, Decrypted(text[s + 1..], block));
        oldbuf, p := block, s + 1;
        assert p == n ==> text[p..] == [];
        DecryptedNothing(oldbuf);
      }
      assert written + [] == written;
    }

    /** Decrypt the block at p and put its characters behind those written. */
    method DecryptBlock(cpt: array<byte>, p: nat, ghost n: nat, ghost m: seq<byte>, key: seq<byte>,
                        result: array<byte>, ghost written: seq<byte>)
      returns (s: nat, c: byte, block: seq<byte>)
      requires Valid() && cpt !in Buffers() && result !in Buffers() && result != cpt
      requires p < n < cpt.Length == |m| && m[n] == 0 && NoNul(m[..n])
      requires forall i :: p <= i < cpt.Length ==> cpt[i] == m[i]
      requires HoldsString(result, written) && |written| + |Decrypted(m[p..n], key)| < result.Length
      modifies Buffers(), cpt, result
      ensures Valid() && p <= s <= n && c == m[s] && (c == 0 <==> s == n) && (c == 0 || c == DOLLAR)
      ensures forall i :: p <= i < s ==> m[i] != DOLLAR
      ensures forall i :: 0 <= i < cpt.Length ==> cpt[i] == if i == s then 0 else old(cpt[i])
      ensures Decrypted(m[p..n], key) == if c == 0 then block else block + Decrypted(m[s + 1..n], block)
      ensures HoldsString(result, written + block)
      ensures forall k :: |written| + |Decrypted(m[p..n], key)| < k < result.Length ==> result[k] == old(result[k])
    {
      hide Decrypted8, Decrypted, FirstDollar, HoldsString;
      var chunk;
      s, c, chunk := CutChunk(cpt, p, n, m);
      ghost var left := m[p..n];
      assert chunk == left[..s - p] && (s < n ==> left[s - p + 1..] == m[s + 1..n] && left[s - p] == c);
      DecryptedStep(left, key, s - p, chunk);
      block := Decrypt8(chunk, key);
      Strcat(result, block, written);
    }

    /** Find the end of the block at p and put a NUL there. */
    static method CutChunk(cpt: array<byte>, p: nat, ghost n: nat, ghost m: seq<byte>)
      returns (s: nat, c: byte, chunk: seq<byte>)
      requires p <= n < cpt.Length == |m| && m[n] == 0 && NoNul(m[..n])
      requires forall i :: p <= i < cpt.Length ==> cpt[i] == m[i]
      modifies cpt
      ensures p <= s <= n && c == m[s] && (c == 0 <==> s == n) && (c == 0 || c == DOLLAR)
      ensures chunk == m[p..s] && forall i :: p <= i < s ==> m[i] != DOLLAR
      ensures forall i :: 0 <= i < cpt.Length ==> cpt[i] == if i == s then 0 else old(cpt[i])
    {
      s := p;
      while cpt[s] != 0 && cpt[s] != DOLLAR
        invariant p <= s <= n && forall i :: p <= i < s ==> m[i] != DOLLAR
        decreases n - s
      {
        s := s + 1;
      }
      assert s < n ==> m[..n][s] == m[s];
      c := cpt[s];
      cpt[s] := 0;
      chunk := cpt[p..s];
    }
  }

  /** A password put away and fetched again with the same key, in buffers just large enough. */
  method ThereAndBack(s: seq<byte>, key: seq<byte>) returns (t: seq<byte>)
    requires SevenBit(s) && |key| < 20
    ensures t == s
  {
    hide Encrypted, Decrypted, UpToNul;
    var coder := new PasswordCoder();
    EncryptedLength(s, key);
    ChainRoundTrip(s, key);
    var stored := new byte[12 * ((|s| + 7) / 8) + 1](_ => 0);
    coder.Encrypt(s, key, stored);
    ghost var c := Encrypted(s, key);
    assert stored[..][..|c|] == c;
    UpToNulWhole(stored[..], |c|);
    var clear := new byte[|s| + 1](_ => 0);
    coder.Decrypt(stored, key, clear);
    t := clear[..|s|];
  }

  lemma DecryptedNothing(key: seq<byte>)
    ensures Decrypted([], key) == []
  {
  }

  lemma DecryptedStep(c: seq<byte>, key: seq<byte>, n: nat, chunk: seq<byte>)
    requires c != [] && n <= |c| && chunk == c[..n]
    requires (forall i :: 0 <= i < n ==> c[i] != DOLLAR) && (n < |c| ==> c[n] == DOLLAR)
    ensures
      var p := Decrypted8(chunk, key);
      Decrypted(c, key) == if n == |c| then p else p + Decrypted(c[n + 1..], p)
  {
    hide Decrypted8, FirstDollar;
    FirstDollarIs(c, n);
  }

  lemma FirstDollarIs(c: seq<byte>, n: nat)
    requires n <= |c| && (forall i :: 0 <= i < n ==> c[i] != DOLLAR) && (n < |c| ==> c[n] == DOLLAR)
    ensures FirstDollar(c) == n
  {
  }

  /** Ten characters and a NUL show the same string as the ten characters. */
  lemma CutAtTen(buf: seq<byte>, text: seq<byte>)
    requires |text| == 10 && |buf| == 11 && buf[..10] == text && buf[10] == 0
    ensures UpToNul(buf) == UpToNul(text)
  {
    var n := |UpToNul(text)|;
    assert buf[..n] == text[..n] == UpToNul(text);
    assert buf[n] == if n < 10 then text[n] else 0;
    UpToNulWhole(buf, n);
  }
}
