/** The cipher on bit arrays and the one on words are the same, for every block and key. */
module DesReference {
  import T = DesTables
  import opened Des
  import opened DesWords
  import opened DesWires

  /** A block, a round key and two halves of a block as the model has them. */
  function Block(x: bv64): (b: seq<bit>)
    ensures |b| == 64
  {
    Bits(x, 64)
  }

  function RoundKey(k: bv64): (b: seq<bit>)
    ensures |b| == 48
  {
    Bits(k, 48)
  }

  function Halves(l: bv64, r: bv64): (b: seq<bit>)
    ensures |b| == 64
  {
    Bits(l, 32) + Bits(r, 32)
  }

  // ----- the two halves of a word

  lemma LowOfHalves(l: bv64, r: bv64, n: bv6)
    requires l <= 0xFFFF_FFFF && r <= 0xFFFF_FFFF && n < 32
    ensures Low((l << 32) | r, n) == Low(r, n) && Low((l << 32) | r, n + 32) == Low(l, n)
  {
  }

  lemma LowOfParts(x: bv64, n: bv6)
    requires n < 32
    ensures Low(x & 0xFFFF_FFFF, n) == Low(x, n) && Low(x >> 32, n) == Low(x, n + 32)
  {
  }

  lemma BitOfHalves(l: bv64, r: bv64, i: nat)
    requires l <= 0xFFFF_FFFF && r <= 0xFFFF_FFFF && i < 32
    ensures BitOf((l << 32) | r, i) == BitOf(r, i) && BitOf((l << 32) | r, i + 32) == BitOf(l, i)
  {
    hide Low;
    PlaceAbove(i);
    LowOfHalves(l, r, i as bv6);
  }

  lemma BitOfParts(x: bv64, i: nat)
    requires i < 32
    ensures BitOf(x & 0xFFFF_FFFF, i) == BitOf(x, i) && BitOf(x >> 32, i) == BitOf(x, i + 32)
  {
    hide Low;
    PlaceAbove(i);
    LowOfParts(x, i as bv6);
  }

  lemma HalvesJoin(l: bv64, r: bv64)
    requires l <= 0xFFFF_FFFF && r <= 0xFFFF_FFFF
    ensures Block(Join(l, r)) == Halves(l, r)
  {
    hide BitOf;
    var b := Block(Join(l, r));
    forall j | 0 <= j < 64
      ensures b[j] == Halves(l, r)[j]
    {
      BitOfHalves(l, r, if j < 32 then 31 - j else 63 - j);
    }
  }

  lemma PartsOf(x: bv64)
    ensures Left(x) <= 0xFFFF_FFFF && Right(x) <= 0xFFFF_FFFF
    ensures Block(x) == Halves(Left(x), Right(x))
  {
    hide Left, Right, Join, Block, Halves;
    HalvesAgain(x);
    HalvesJoin(Left(x), Right(x));
  }

  lemma HalvesAgain(x: bv64)
    ensures Join(Left(x), Right(x)) == x
    ensures Left(x) <= 0xFFFF_FFFF && Right(x) <= 0xFFFF_FFFF
  {
  }

  // ----- a round

  lemma MixedWord(r: bv64, k: bv64)
    requires r <= 0xFFFF_FFFF
    ensures Mixed(Bits(r, 32), Bits(k, 48)) == Bits(XorWord(ExpandWord(r), k), 48)
  {
    hide BitOf, ExpandWord, XorWord, T.E, Xor;
    forall j | 0 <= j < 48
      ensures Mixed(Bits(r, 32), Bits(k, 48))[j] == Bits(XorWord(ExpandWord(r), k), 48)[j]
    {
      ExpandBit(r, j);
      BitOfXor(ExpandWord(r), k, 47 - j);
    }
  }

  lemma SixOfBit(p: bv64, box: nat, i: nat)
    requires box < 8 && i < 6
    ensures BitOf(SixOf(p, box), 5 - i) == BitOf(p, 47 - (6 * box + i))
  {
    hide BitOf;
    SixWires(p);
    assert i == 0 || i == 1 || i == 2 || i == 3 || i == 4 || i == 5;
    match box
    case 0 =>
    case 1 =>
    case 2 =>
    case 3 =>
    case 4 =>
    case 5 =>
    case 6 =>
    case 7 =>
  }

  lemma SixSmall(p: bv64, box: nat)
    requires box < 8
    ensures SixOf(p, box) < 64
  {
  }

  /** The index of a table is read off the word as it is off the bits. */
  lemma IndexOfSix(p: bv64, box: nat)
    requires box < 8
    ensures BoxIndex(Bits(p, 48), 6 * box) == IndexWord(SixOf(p, box)) && SixOf(p, box) < 64
  {
    hide BitOf, SixOf;
    SixSmall(p, box);
    var b := Bits(p, 48);
    var q: seq<int> := b[6 * box..6 * box + 6];
    forall i | 0 <= i < 6
      ensures q[i] == BitOf(SixOf(p, box), 5 - i)
    {
      assert q[i] == b[6 * box + i];
      SixOfBit(p, box, i);
    }
    assert q[0] == BitOf(SixOf(p, box), 5) && q[1] == BitOf(SixOf(p, box), 4) && q[2] == BitOf(SixOf(p, box), 3);
    assert q[3] == BitOf(SixOf(p, box), 2) && q[4] == BitOf(SixOf(p, box), 1) && q[5] == BitOf(SixOf(p, box), 0);
    assert BoxIndex(b, 6 * box) == q[0] * 32 + q[1] * 8 + q[2] * 4 + q[3] * 2 + q[4] + q[5] * 16;
  }

  lemma SelectedWords(p: bv64)
    ensures Selected(Bits(p, 48)) == Bits(SelectedWord(p), 32)
  {
    hide BitOf, SelectedWord, SelectWord, SixOf, BoxIndex, IndexWord, T.S, Des.Nibble, Number;
    forall j | 0 <= j < 32
      ensures Selected(Bits(p, 48))[j] == Bits(SelectedWord(p), 32)[j]
    {
      IndexOfSix(p, j / 4);
      SelectAgrees(j / 4, SixOf(p, j / 4));
      NumberBit(BoxWord(p, j / 4), j % 4);
      SelectedBit(p, j / 4, j % 4);
      assert j == 4 * (j / 4) + j % 4;
    }
  }

  lemma PermutedSmall(f: bv64)
    ensures PermuteWord(f) <= 0xFFFF_FFFF
  {
  }

  lemma XorSmall(x: bv64, y: bv64)
    requires x <= 0xFFFF_FFFF && y <= 0xFFFF_FFFF
    ensures XorWord(x, y) <= 0xFFFF_FFFF
  {
  }

  lemma RoundParts(b: seq<bit>, k: seq<bit>, l: seq<bit>, r: seq<bit>, f: seq<bit>, y: seq<bit>)
    requires |l| == 32 && |r| == 32 && |k| == 48 && b == l + r && f == Selected(Mixed(r, k))
    requires |y| == 32 && forall j :: 0 <= j < 32 ==> y[j] == Xor(l[j], f[T.P(j) - 1])
    ensures Round(b, k) == r + y
  {
    hide T.P, Selected, Mixed, Xor;
    assert b[32..] == r;
  }

  lemma XorPermuted(l: bv64, f: bv64, j: nat)
    requires j < 32
    ensures Bits(XorWord(l, PermuteWord(f)), 32)[j] == Xor(Bits(l, 32)[j], Bits(f, 32)[T.P(j) - 1])
  {
    hide BitOf, PermuteWord, XorWord, T.P, Xor;
    PermuteBit(f, j);
    BitOfXor(l, PermuteWord(f), 31 - j);
  }

  lemma RoundOfHalves(l: bv64, r: bv64, k: bv64, f: bv64)
    requires r <= 0xFFFF_FFFF && f == SelectedWord(XorWord(ExpandWord(r), k))
    ensures Round(Halves(l, r), RoundKey(k)) == Halves(r, XorWord(l, PermuteWord(f)))
  {
    hide BitOf, ExpandWord, SelectedWord, PermuteWord, XorWord, T.P, Mixed, Selected, Round, Xor;
    MixedWord(r, k);
    SelectedWords(XorWord(ExpandWord(r), k));
    forall j | 0 <= j < 32
      ensures Bits(XorWord(l, PermuteWord(f)), 32)[j] == Xor(Bits(l, 32)[j], Bits(f, 32)[T.P(j) - 1])
    {
      XorPermuted(l, f, j);
    }
    RoundParts(Bits(l, 32) + Bits(r, 32), Bits(k, 48), Bits(l, 32), Bits(r, 32), Bits(f, 32), Bits(XorWord(l, PermuteWord(f)), 32));
  }

  lemma RoundJoined(l: bv64, r: bv64, k: bv64)
    requires l <= 0xFFFF_FFFF && r <= 0xFFFF_FFFF
    ensures Round(Halves(l, r), RoundKey(k)) == Block(Join(r, MixedHalf(l, r, k)))
  {
    hide ExpandWord, SelectedWord, PermuteWord, XorWord, Round, Join, Halves, RoundKey, Block;
    var f := SelectedWord(XorWord(ExpandWord(r), k));
    RoundOfHalves(l, r, k, f);
    PermutedSmall(f);
    XorSmall(l, PermuteWord(f));
    HalvesJoin(r, XorWord(l, PermuteWord(f)));
  }

  /** One round of the model is one round on words. */
  lemma RoundWords(x: bv64, k: bv64)
    ensures Round(Block(x), RoundKey(k)) == Block(RoundWord(x, k))
  {
    hide MixedHalf, Round, Left, Right, Join, Halves, RoundKey, Block;
    PartsOf(x);
    RoundJoined(Left(x), Right(x), k);
  }

  // ----- the block

  lemma InitialWords(b: bv64)
    ensures Initial(Block(b)) == Block(InitialWord(b))
  {
    hide BitOf, InitialWord, T.IP;
    forall j | 0 <= j < 64
      ensures Initial(Bits(b, 64))[j] == Bits(InitialWord(b), 64)[j]
    {
      InitialBit(b, j);
    }
  }

  lemma FinalWords(x: bv64)
    ensures Final(Block(x)) == Block(FinalWord(x))
  {
    hide Initial, Final, InitialWord, FinalWord, Block;
    FinalThenInitial(x);
    InitialWords(FinalWord(x));
    FinalUndoesInitial(Block(FinalWord(x)));
  }

  lemma SwapWords(x: bv64)
    ensures Swap(Block(x)) == Block(SwapWord(x))
  {
    hide BitOf, SwapWord;
    forall j | 0 <= j < 64
      ensures Swap(Bits(x, 64))[j] == Bits(SwapWord(x), 64)[j]
    {
      SwapBit(x, j);
    }
  }

  // ----- the keys

  lemma TurnedSmall(c: bv64, n: nat)
    requires c <= 0xFFF_FFFF
    ensures TurnedWord(c, n) <= 0xFFF_FFFF
  {
  }

  lemma {:induction false} TurnedBit(c: bv64, n: nat, j: nat)
    requires c <= 0xFFF_FFFF && j < 28
    ensures BitOf(TurnedWord(c, n), 27 - j) == BitOf(c, 27 - (j + n) % 28)
  {
    hide BitOf, OneTurn;
    if n > 0 {
      TurnedSmall(c, n - 1);
      TurnBit(TurnedWord(c, n - 1), j);
      TurnedBit(c, n - 1, (j + 1) % 28);
      TurnOnce(j, n);
    }
  }

  lemma TurnOnce(j: nat, n: nat)
    requires j < 28 && n > 0
    ensures ((j + 1) % 28 + (n - 1)) % 28 == (j + n) % 28
  {
    assert (j + 1) % 28 == j + 1 - 28 * ((j + 1) / 28);
  }

  lemma HalvesSmall(key: bv64)
    ensures FirstHalf(key) <= 0xFFF_FFFF && SecondHalf(key) <= 0xFFF_FFFF
  {
  }

  lemma KeyBitWord(key: bv64, i: nat, j: nat)
    requires i < 16 && j < 48
    ensures KeyBit(Bits(key, 64), i, j) == BitOf(KeyWord(key, i), 47 - j)
  {
    hide BitOf, T.PC1C, T.PC1D, T.PC2C, T.PC2D, Turned, FirstHalf, SecondHalf, PickWord, TurnedWord;
    var n := Turned(i);
    var c, d := FirstHalf(key), SecondHalf(key);
    HalvesSmall(key);
    PickBit(TurnedWord(c, n), TurnedWord(d, n), j);
    if j < 24 {
      TurnedBit(c, n, T.PC2C(j) - 1);
      FirstBit(key, (T.PC2C(j) - 1 + n) % 28);
    } else {
      TurnedBit(d, n, T.PC2D(j - 24) - 29);
      SecondBit(key, (T.PC2D(j - 24) - 29 + n) % 28);
    }
  }

  lemma ScheduleWord(key: bv64, i: nat)
    requires i < 16
    ensures Schedule(Block(key))[i] == RoundKey(KeyWord(key, i))
  {
    hide BitOf, KeyBit, KeyWord;
    forall j | 0 <= j < 48
      ensures Schedule(Bits(key, 64))[i][j] == Bits(KeyWord(key, i), 48)[j]
    {
      KeyBitWord(key, i, j);
    }
  }

  lemma KeyWords(key: bv64, backward: bool, n: nat)
    requires n < 16
    ensures |KeysFor(Block(key), backward)| == 16
    ensures KeysFor(Block(key), backward)[n] == RoundKey(KeyWord(key, if backward then 15 - n else n))
  {
    hide Block, RoundKey, Schedule, KeyWord;
    ScheduleWord(key, if backward then 15 - n else n);
  }

  // ----- the cipher

  lemma {:induction false} RoundsWords(x: bv64, key: bv64, backward: bool, n: nat)
    requires n <= 16
    ensures |KeysFor(Block(key), backward)| == 16
    ensures Rounds(Block(x), KeysFor(Block(key), backward)[..n]) == Block(RoundsWord(x, key, backward, n))
  {
    hide Block, RoundKey, Round, RoundWord, KeyWord, KeysFor;
    var ks := KeysFor(Block(key), backward);
    KeyWords(key, backward, if n > 0 then n - 1 else 0);
    if n > 0 {
      RoundsWords(x, key, backward, n - 1);
      RoundsAppend(Block(x), ks[..n - 1], ks[n - 1]);
      assert ks[..n] == ks[..n - 1] + [ks[n - 1]];
      RoundWords(RoundsWord(x, key, backward, n - 1), KeyWord(key, if backward then 16 - n else n - 1));
    }
  }

  /** The cipher on words is the cipher, in both directions. */
  lemma CipherWords(b: bv64, key: bv64, backward: bool)
    ensures Cipher(Block(b), KeysFor(Block(key), backward)) == Block(CipherWord(b, key, backward))
  {
    hide Block, RoundsWord, KeysFor, InitialWord, FinalWord, SwapWord, Initial, Final, Swap, Rounds;
    RoundsWords(InitialWord(b), key, backward, 16);
    var ks := KeysFor(Block(key), backward);
    assert ks[..16] == ks;
    InitialWords(b);
    var y := RoundsWord(InitialWord(b), key, backward, 16);
    SwapWords(y);
    FinalWords(SwapWord(y));
  }
}
