/** A password block from end to end: what the codec makes of `a` under the key `key`. */
module PasswordKnownAnswer {
  import opened Bytes
  import opened Des
  import opened DesWords
  import opened DesReference
  import opened DesKnownAnswers
  import opened PasswordCodec
  import opened PasswordChain

  lemma BlockBit(w: bv64, j: nat)
    requires j < 64
    ensures Block(w)[j] == BitOf(w, 63 - j)
  {
    hide BitOf;
  }

  /** The eight bits from p on, and the number they make. */
  lemma Octet(w: bv64, p: nat, b0: bit, b1: bit, b2: bit, b3: bit, b4: bit, b5: bit, b6: bit, b7: bit)
    requires p + 8 <= 64 && BitOf(w, 63 - p) == b0 && BitOf(w, 62 - p) == b1 && BitOf(w, 61 - p) == b2 && BitOf(w, 60 - p) == b3
    requires BitOf(w, 59 - p) == b4 && BitOf(w, 58 - p) == b5 && BitOf(w, 57 - p) == b6 && BitOf(w, 56 - p) == b7
    ensures Partial(Block(w), p, 8) == 128 * b0 + 64 * b1 + 32 * b2 + 16 * b3 + 8 * b4 + 4 * b5 + 2 * b6 + b7
  {
    hide BitOf, Block, Partial;
    var b := Block(w);
    Sextet(w, b, p, b0, b1, b2, b3, b4, b5);
    BlockBit(w, p + 6);
    BlockBit(w, p + 7);
    PartialMore(b, p, 6);
    PartialMore(b, p, 7);
  }

  /** The same of six bits, in any sequence that begins with the block. */
  lemma Sextet(w: bv64, b: seq<bit>, p: nat, b0: bit, b1: bit, b2: bit, b3: bit, b4: bit, b5: bit)
    requires p + 6 <= 64 && Block(w) <= b
    requires BitOf(w, 63 - p) == b0 && BitOf(w, 62 - p) == b1 && BitOf(w, 61 - p) == b2
    requires BitOf(w, 60 - p) == b3 && BitOf(w, 59 - p) == b4 && BitOf(w, 58 - p) == b5
    ensures Partial(b, p, 6) == 32 * b0 + 16 * b1 + 8 * b2 + 4 * b3 + 2 * b4 + b5
  {
    hide BitOf, Block;
    forall j | p <= j < p + 6
      ensures b[j] == BitOf(w, 63 - j)
    {
      BlockBit(w, j);
    }
    var q: seq<int> := b[p..p + 6];
    assert q[0] == b0 && q[1] == b1 && q[2] == b2 && q[3] == b3 && q[4] == b4 && q[5] == b5;
    PartialSix(b, p);
  }

  lemma {:induction false} PartialTells(b: seq<bit>, b': seq<bit>, p: nat, n: nat)
    requires p + n <= |b| && p + n <= |b'| && Partial(b, p, n) == Partial(b', p, n)
    ensures forall j :: p <= j < p + n ==> b[j] == b'[j]
  {
    if n > 0 {
      PartialTells(b, b', p, n - 1);
    }
  }

  /** A block is told by its eight octets. */
  lemma OctetsTell(b: seq<bit>, b': seq<bit>)
    requires |b| == |b'| == 64 && forall k :: 0 <= k < 8 ==> Partial(b, 8 * k, 8) == Partial(b', 8 * k, 8)
    ensures b == b'
  {
    hide Partial;
    forall j | 0 <= j < 64
      ensures b[j] == b'[j]
    {
      PartialTells(b, b', 8 * (j / 8), 8);
    }
  }

  lemma LowZero(w: bv64, n: bv6)
    requires w & 0xFF_FFFF_FFFF == 0 && n < 40
    ensures Low(w, n) == 0
  {
  }

  lemma PlaceBelow(i: nat)
    requires i < 40
    ensures i as bv6 < 40
  {
  }

  /** The last five octets of a block that ends in forty zero bits. */
  lemma {:induction false} ZeroTail(w: bv64, p: nat, n: nat)
    requires w & 0xFF_FFFF_FFFF == 0 && 24 <= p && p + n <= 64
    ensures Partial(Block(w), p, n) == 0
  {
    hide Low, Block;
    if n > 0 {
      ZeroTail(w, p, n - 1);
      BlockBit(w, p + n - 1);
      PlaceBelow(64 - p - n);
      LowZero(w, (64 - p - n) as bv6);
    }
  }

  lemma KeyPacked()
    ensures ClearBlock([107, 101, 121]) == Block(0xD6CA_F200_0000_0000)
  {
    hide BitOf, Block, Partial, ClearBlock;
    var w: bv64 := 0xD6CA_F200_0000_0000;
    KeyOctets();
    var s: seq<byte> := [107, 101, 121];
    assert ClearBlock(s)[..64] == ClearBlock(s);
    ClearBlockPacked(s, ClearBlock(s));
    forall k | 0 <= k < 8
      ensures Partial(ClearBlock(s), 8 * k, 8) == Partial(Block(w), 8 * k, 8)
    {
      if k < 3 {
        assert k == 0 || k == 1 || k == 2;
      } else {
        ZeroTail(w, 8 * k, 8);
      }
    }
    OctetsTell(ClearBlock(s), Block(w));
  }

  lemma KeyOctets()
    ensures
      var b := Block(0xD6CA_F200_0000_0000);
      Partial(b, 0, 8) == 2 * 107 && Partial(b, 8, 8) == 2 * 101 && Partial(b, 16, 8) == 2 * 121
  {
    hide Block, Partial;
    var w: bv64 := 0xD6CA_F200_0000_0000;
    Octet(w, 0, 1, 1, 0, 1, 0, 1, 1, 0);
    Octet(w, 8, 1, 1, 0, 0, 1, 0, 1, 0);
    Octet(w, 16, 1, 1, 1, 1, 0, 0, 1, 0);
  }

  lemma TextPacked()
    ensures ClearBlock([97]) == Block(0xC200_0000_0000_0000)
  {
    hide BitOf, Block, Partial, ClearBlock;
    var w: bv64 := 0xC200_0000_0000_0000;
    TextOctets();
    var s: seq<byte> := [97];
    assert ClearBlock(s)[..64] == ClearBlock(s);
    ClearBlockPacked(s, ClearBlock(s));
    forall k | 0 <= k < 8
      ensures Partial(ClearBlock(s), 8 * k, 8) == Partial(Block(w), 8 * k, 8)
    {
      if k < 3 {
        assert k == 0 || k == 1 || k == 2;
      } else {
        ZeroTail(w, 8 * k, 8);
      }
    }
    OctetsTell(ClearBlock(s), Block(w));
  }

  lemma TextOctets()
    ensures
      var b := Block(0xC200_0000_0000_0000);
      Partial(b, 0, 8) == 2 * 97 && Partial(b, 8, 8) == 0 && Partial(b, 16, 8) == 0
  {
    hide Block, Partial;
    var w: bv64 := 0xC200_0000_0000_0000;
    Octet(w, 0, 1, 1, 0, 0, 0, 0, 1, 0);
    Octet(w, 8, 0, 0, 0, 0, 0, 0, 0, 0);
    Octet(w, 16, 0, 0, 0, 0, 0, 0, 0, 0);
  }

  /** The cipher block in eleven characters. */
  lemma CipherUnpacked()
    ensures KnotText(Block(0x0291_9BFD_D195_78FC) + Zeros(2)) == [46, 100, 52, 80, 122, 82, 52, 74, 83, 68, 107]
  {
    hide Block, Partial, KnotChar, SixBits;
    var w: bv64 := 0x0291_9BFD_D195_78FC;
    var b := Block(w) + Zeros(2);
    FirstSextets();
    NextSextets();
    LastSextets();
    forall i | 0 <= i < 11
      ensures Stands(KnotText(b)[i], Partial(b, 6 * i, 6))
    {
      PartialSix(b, 6 * i);
      KnotCharStands(SixBits(b, 6 * i));
    }
    var t := KnotText(b);
    assert Stands(t[0], 0) && Stands(t[1], 41) && Stands(t[2], 6) && Stands(t[3], 27) && Stands(t[4], 63) && Stands(t[5], 29);
    assert Stands(t[6], 6) && Stands(t[7], 21) && Stands(t[8], 30) && Stands(t[9], 15) && Stands(t[10], 48);
  }

  lemma FirstSextets()
    ensures
      var b := Block(0x0291_9BFD_D195_78FC) + Zeros(2);
      Partial(b, 0, 6) == 0 && Partial(b, 6, 6) == 41 && Partial(b, 12, 6) == 6 && Partial(b, 18, 6) == 27
  {
    hide Block, Partial;
    var w: bv64 := 0x0291_9BFD_D195_78FC;
    var b := Block(w) + Zeros(2);
    Sextet(w, b, 0, 0, 0, 0, 0, 0, 0);
    Sextet(w, b, 6, 1, 0, 1, 0, 0, 1);
    Sextet(w, b, 12, 0, 0, 0, 1, 1, 0);
    Sextet(w, b, 18, 0, 1, 1, 0, 1, 1);
  }

  lemma NextSextets()
    ensures
      var b := Block(0x0291_9BFD_D195_78FC) + Zeros(2);
      Partial(b, 24, 6) == 63 && Partial(b, 30, 6) == 29 && Partial(b, 36, 6) == 6 && Partial(b, 42, 6) == 21
  {
    hide Block, Partial;
    var w: bv64 := 0x0291_9BFD_D195_78FC;
    var b := Block(w) + Zeros(2);
    Sextet(w, b, 24, 1, 1, 1, 1, 1, 1);
    Sextet(w, b, 30, 0, 1, 1, 1, 0, 1);
    Sextet(w, b, 36, 0, 0, 0, 1, 1, 0);
    Sextet(w, b, 42, 0, 1, 0, 1, 0, 1);
  }

  lemma LastSextets()
    ensures
      var b := Block(0x0291_9BFD_D195_78FC) + Zeros(2);
      Partial(b, 48, 6) == 30 && Partial(b, 54, 6) == 15 && Partial(b, 60, 6) == 48
  {
    hide Block, Partial;
    var w: bv64 := 0x0291_9BFD_D195_78FC;
    var b := Block(w) + Zeros(2);
    Sextet(w, b, 48, 0, 1, 1, 1, 1, 0);
    Sextet(w, b, 54, 0, 0, 1, 1, 1, 1);
    LastSextet(w, b, 1, 1, 0, 0);
  }

  lemma LastSextet(w: bv64, b: seq<bit>, b0: bit, b1: bit, b2: bit, b3: bit)
    requires b == Block(w) + Zeros(2)
    requires BitOf(w, 3) == b0 && BitOf(w, 2) == b1 && BitOf(w, 1) == b2 && BitOf(w, 0) == b3
    ensures Partial(b, 60, 6) == 32 * b0 + 16 * b1 + 8 * b2 + 4 * b3
  {
    hide BitOf, Block;
    forall j | 60 <= j < 64
      ensures b[j] == BitOf(w, 63 - j)
    {
      BlockBit(w, j);
    }
    var q: seq<int> := b[60..66];
    assert q[0] == b0 && q[1] == b1 && q[2] == b2 && q[3] == b3 && q[4] == 0 && q[5] == 0;
    PartialSix(b, 60);
  }

  lemma CellKnown()
    ensures Encrypted8([97], [107, 101, 121]) == [46, 100, 52, 80, 122, 82, 52, 74, 83, 68, 107]
  {
    hide Cipher, KeysFor, Block, KnotText, ClearBlock, CipherWord;
    KeyPacked();
    TextPacked();
    KnownAnswers();
    CipherUnpacked();
  }

  lemma OneCell(s: seq<byte>, key: seq<byte>)
    requires |s| == 1
    ensures Encrypted(s, key) == Encrypted8(s, key) + [DOLLAR]
  {
    hide Encrypted8;
    assert s[..1] == s && s[1..] == [];
    assert Encrypted([], s) == [];
    assert Encrypted8(s, key) + [DOLLAR] + [] == Encrypted8(s, key) + [DOLLAR];
  }

  /** `a` under the key `key` is `.d4PzR4JSDk` and a dollar, and that is `a` again, with the dollar or without. */
  lemma PasswordKnown()
    ensures Encrypted([97], [107, 101, 121]) == [46, 100, 52, 80, 122, 82, 52, 74, 83, 68, 107, 36]
    ensures Decrypted([46, 100, 52, 80, 122, 82, 52, 74, 83, 68, 107, 36], [107, 101, 121]) == [97]
    ensures Decrypted([46, 100, 52, 80, 122, 82, 52, 74, 83, 68, 107], [107, 101, 121]) == [97]
  {
    hide Encrypted8, Decrypted8, Encrypted, Decrypted;
    CellKnown();
    var s: seq<byte>, key: seq<byte> := [97], [107, 101, 121];
    var c := Encrypted8(s, key);
    OneCell(s, key);
    assert c + [DOLLAR] == [46, 100, 52, 80, 122, 82, 52, 74, 83, 68, 107, 36];
    ChainRoundTrip(s, key);
    Block8RoundTrip(s, key);
    assert c[..11] == c;
    DecryptedStep(c, key, 11, c);
  }
}
