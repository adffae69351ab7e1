/** Laws of the selection tables: what changes of the six bits chosen do to the four selected. */
module DesBoxes {
  import T = DesTables
  import opened Des
  import opened DesWords
  import opened DesWires

  /** In how many of their four bits two selected values differ. */
  function Distance(a: nat, b: nat): nat
    requires a < 16 && b < 16
  {
    (if Des.Nibble(a, 0) == Des.Nibble(b, 0) then 0 else 1) + (if Des.Nibble(a, 1) == Des.Nibble(b, 1) then 0 else 1)
    + (if Des.Nibble(a, 2) == Des.Nibble(b, 2) then 0 else 1) + if Des.Nibble(a, 3) == Des.Nibble(b, 3) then 0 else 1
  }

  /** One of the six bits, or the middle two. */
  predicate Change(m: bv64) {
    m == 1 || m == 2 || m == 4 || m == 8 || m == 16 || m == 32 || m == 12
  }

  /** At least two bits of a word are set. */
  predicate TwoSet(d: bv64) {
    d & (d - 1) != 0
  }

  predicate WordsApart(box: nat, six: bv64, m: bv64)
    requires box < 8
  {
    TwoSet(SelectWord(box, six) ^ SelectWord(box, six ^ m))
  }

  lemma Box1Apart(six: bv64, m: bv64)
    requires six < 64 && Change(m)
    ensures WordsApart(0, six, m)
  {
  }

  lemma Box1Columns(r: bv64, c: bv64, c': bv64)
    requires r < 4 && c < 16 && c' < 16 && c != c'
    ensures DigitOf(RowWord(0, r), c) != DigitOf(RowWord(0, r), c')
  {
  }

  lemma Box2Apart(six: bv64, m: bv64)
    requires six < 64 && Change(m)
    ensures WordsApart(1, six, m)
  {
  }

  lemma Box2Columns(r: bv64, c: bv64, c': bv64)
    requires r < 4 && c < 16 && c' < 16 && c != c'
    ensures DigitOf(RowWord(1, r), c) != DigitOf(RowWord(1, r), c')
  {
  }

  lemma Box3Apart(six: bv64, m: bv64)
    requires six < 64 && Change(m)
    ensures WordsApart(2, six, m)
  {
  }

  lemma Box3Columns(r: bv64, c: bv64, c': bv64)
    requires r < 4 && c < 16 && c' < 16 && c != c'
    ensures DigitOf(RowWord(2, r), c) != DigitOf(RowWord(2, r), c')
  {
  }

  lemma Box4Apart(six: bv64, m: bv64)
    requires six < 64 && Change(m)
    ensures WordsApart(3, six, m)
  {
  }

  lemma Box4Columns(r: bv64, c: bv64, c': bv64)
    requires r < 4 && c < 16 && c' < 16 && c != c'
    ensures DigitOf(RowWord(3, r), c) != DigitOf(RowWord(3, r), c')
  {
  }

  lemma Box5Apart(six: bv64, m: bv64)
    requires six < 64 && Change(m)
    ensures WordsApart(4, six, m)
  {
  }

  lemma Box5Columns(r: bv64, c: bv64, c': bv64)
    requires r < 4 && c < 16 && c' < 16 && c != c'
    ensures DigitOf(RowWord(4, r), c) != DigitOf(RowWord(4, r), c')
  {
  }

  lemma Box6Apart(six: bv64, m: bv64)
    requires six < 64 && Change(m)
    ensures WordsApart(5, six, m)
  {
  }

  lemma Box6Columns(r: bv64, c: bv64, c': bv64)
    requires r < 4 && c < 16 && c' < 16 && c != c'
    ensures DigitOf(RowWord(5, r), c) != DigitOf(RowWord(5, r), c')
  {
  }

  lemma Box7Apart(six: bv64, m: bv64)
    requires six < 64 && Change(m)
    ensures WordsApart(6, six, m)
  {
  }

  lemma Box7Columns(r: bv64, c: bv64, c': bv64)
    requires r < 4 && c < 16 && c' < 16 && c != c'
    ensures DigitOf(RowWord(6, r), c) != DigitOf(RowWord(6, r), c')
  {
  }

  lemma Box8Apart(six: bv64, m: bv64)
    requires six < 64 && Change(m)
    ensures WordsApart(7, six, m)
  {
  }

  lemma Box8Columns(r: bv64, c: bv64, c': bv64)
    requires r < 4 && c < 16 && c' < 16 && c != c'
    ensures DigitOf(RowWord(7, r), c) != DigitOf(RowWord(7, r), c')
  {
  }

  lemma BoxApart(box: nat, six: bv64, m: bv64)
    requires box < 8 && six < 64 && Change(m)
    ensures WordsApart(box, six, m)
  {
    hide WordsApart;
    match box
    case 0 => Box1Apart(six, m);
    case 1 => Box2Apart(six, m);
    case 2 => Box3Apart(six, m);
    case 3 => Box4Apart(six, m);
    case 4 => Box5Apart(six, m);
    case 5 => Box6Apart(six, m);
    case 6 => Box7Apart(six, m);
    case 7 => Box8Apart(six, m);
  }

  lemma BoxColumns(box: nat, r: bv64, c: bv64, c': bv64)
    requires box < 8 && r < 4 && c < 16 && c' < 16 && c != c'
    ensures DigitOf(RowWord(box, r), c) != DigitOf(RowWord(box, r), c')
  {
    hide DigitOf, RowWord;
    match box
    case 0 => Box1Columns(r, c, c');
    case 1 => Box2Columns(r, c, c');
    case 2 => Box3Columns(r, c, c');
    case 3 => Box4Columns(r, c, c');
    case 4 => Box5Columns(r, c, c');
    case 5 => Box6Columns(r, c, c');
    case 6 => Box7Columns(r, c, c');
    case 7 => Box8Columns(r, c, c');
  }

  // ----- on the tables

  lemma TwoSetIsDistance(x: bv64, y: bv64)
    requires x < 16 && y < 16
    ensures TwoSet(x ^ y) <==> Distance(Number(x), Number(y)) >= 2
  {
    hide Des.Nibble, Number;
    NumberBit(x, 0);
    NumberBit(x, 1);
    NumberBit(x, 2);
    NumberBit(x, 3);
    NumberBit(y, 0);
    NumberBit(y, 1);
    NumberBit(y, 2);
    NumberBit(y, 3);
  }

  /** The word reads as the six bits. */
  predicate Reads(q: seq<bit>, w: bv64) {
    && |q| == 6 && w < 64
    && (q[0] == 1 <==> w & 32 != 0) && (q[1] == 1 <==> w & 16 != 0) && (q[2] == 1 <==> w & 8 != 0)
    && (q[3] == 1 <==> w & 4 != 0) && (q[4] == 1 <==> w & 2 != 0) && (q[5] == 1 <==> w & 1 != 0)
  }

  /** There is such a word. */
  lemma SixWord(q: seq<bit>) returns (w: bv64)
    requires |q| == 6
    ensures Reads(q, w)
  {
    w := (if q[0] == 1 then 32 else 0) | (if q[1] == 1 then 16 else 0) | (if q[2] == 1 then 8 else 0)
         | (if q[3] == 1 then 4 else 0) | (if q[4] == 1 then 2 else 0) | (if q[5] == 1 then 1 else 0);
  }

  lemma ReadsIndex(q: seq<bit>, w: bv64)
    requires Reads(q, w)
    ensures w < 64 && IndexWord(w) == BoxIndex(q, 0)
  {
    var p: seq<int> := q[0..6];
    assert p[0] == q[0] && p[1] == q[1] && p[2] == q[2] && p[3] == q[3] && p[4] == q[4] && p[5] == q[5];
    assert BoxIndex(q, 0) == p[0] * 32 + p[1] * 8 + p[2] * 4 + p[3] * 2 + p[4] + p[5] * 16;
  }

  function Flipped(q: seq<bit>, i: nat): (r: seq<bit>)
    requires i < |q|
    ensures |r| == |q|
  {
    q[i := Not(q[i])]
  }

  lemma Flipped0Is(q: seq<bit>, w: bv64)
    requires Reads(q, w)
    ensures Reads(Flipped(q, 0), w ^ 32)
  {
  }

  lemma Flipped1Is(q: seq<bit>, w: bv64)
    requires Reads(q, w)
    ensures Reads(Flipped(q, 1), w ^ 16)
  {
  }

  lemma Flipped2Is(q: seq<bit>, w: bv64)
    requires Reads(q, w)
    ensures Reads(Flipped(q, 2), w ^ 8)
  {
  }

  lemma Flipped3Is(q: seq<bit>, w: bv64)
    requires Reads(q, w)
    ensures Reads(Flipped(q, 3), w ^ 4)
  {
  }

  lemma Flipped4Is(q: seq<bit>, w: bv64)
    requires Reads(q, w)
    ensures Reads(Flipped(q, 4), w ^ 2)
  {
  }

  lemma Flipped5Is(q: seq<bit>, w: bv64)
    requires Reads(q, w)
    ensures Reads(Flipped(q, 5), w ^ 1)
  {
  }

  lemma ChangedApart(box: nat, q: seq<bit>, q': seq<bit>, w: bv64, m: bv64)
    requires box < 8 && |q| == 6 && |q'| == 6 && Change(m) && Reads(q, w) && Reads(q', w ^ m)
    ensures Distance(T.S(box, BoxIndex(q, 0)), T.S(box, BoxIndex(q', 0))) >= 2
  {
    hide T.S, SelectWord, IndexWord, Number, TwoSet, Distance, Reads, BoxIndex;
    ReadsIndex(q, w);
    ReadsIndex(q', w ^ m);
    SelectAgrees(box, w);
    SelectAgrees(box, w ^ m);
    BoxApart(box, w, m);
    TwoSetIsDistance(SelectWord(box, w), SelectWord(box, w ^ m));
  }

  /** Changing one of the six bits changes at least two of the four selected. */
  lemma OneBitChanges(box: nat, q: seq<bit>, i: nat)
    requires box < 8 && |q| == 6 && i < 6
    ensures Distance(T.S(box, BoxIndex(q, 0)), T.S(box, BoxIndex(Flipped(q, i), 0))) >= 2
  {
    hide Reads, BoxIndex, T.S, Distance, Flipped;
    var w := SixWord(q);
    match i
    case 0 =>
      Flipped0Is(q, w);
      ChangedApart(box, q, Flipped(q, i), w, 32);
    case 1 =>
      Flipped1Is(q, w);
      ChangedApart(box, q, Flipped(q, i), w, 16);
    case 2 =>
      Flipped2Is(q, w);
      ChangedApart(box, q, Flipped(q, i), w, 8);
    case 3 =>
      Flipped3Is(q, w);
      ChangedApart(box, q, Flipped(q, i), w, 4);
    case 4 =>
      Flipped4Is(q, w);
      ChangedApart(box, q, Flipped(q, i), w, 2);
    case 5 =>
      Flipped5Is(q, w);
      ChangedApart(box, q, Flipped(q, i), w, 1);
  }

  lemma MiddleFlippedIs(q: seq<bit>, w: bv64)
    requires Reads(q, w)
    ensures Reads(Flipped(Flipped(q, 2), 3), w ^ 12)
  {
  }

  /** So does changing the middle two. */
  lemma MiddleBitsChange(box: nat, q: seq<bit>)
    requires box < 8 && |q| == 6
    ensures Distance(T.S(box, BoxIndex(q, 0)), T.S(box, BoxIndex(Flipped(Flipped(q, 2), 3), 0))) >= 2
  {
    hide Reads, BoxIndex, T.S, Distance, Flipped;
    var w := SixWord(q);
    MiddleFlippedIs(q, w);
    ChangedApart(box, q, Flipped(Flipped(q, 2), 3), w, 12);
  }

  /** A number below sixteen as a word. */
  function DigitWord(c: nat): (w: bv64)
    requires c < 16
    ensures w < 16 && Number(w) == c
  {
    match c
    case 0 => 0
    case 1 => 1
    case 2 => 2
    case 3 => 3
    case 4 => 4
    case 5 => 5
    case 6 => 6
    case 7 => 7
    case 8 => 8
    case 9 => 9
    case 10 => 10
    case 11 => 11
    case 12 => 12
    case 13 => 13
    case 14 => 14
    case 15 => 15
  }

  function RowOf(r: nat): (w: bv64)
    requires r < 4
    ensures w < 4 && RowNumber(w) == r
  {
    match r
    case 0 => 0
    case 1 => 1
    case 2 => 2
    case 3 => 3
  }

  lemma NumberTells(x: bv64, y: bv64)
    requires x < 16 && y < 16 && Number(x) == Number(y)
    ensures x == y
  {
  }

  /** Each row of each table is a permutation of the numbers below sixteen: no two columns are alike. */
  lemma RowPermutes(box: nat, r: nat, c: nat, c': nat)
    requires box < 8 && r < 4 && c < 16 && c' < 16 && c != c'
    ensures T.SRow(box, r)[c] != T.SRow(box, r)[c']
  {
    hide T.SRow, DigitOf, RowWord, DigitWord, RowOf, Number, RowNumber;
    var w, x, x' := RowOf(r), DigitWord(c), DigitWord(c');
    RowAgrees(box, w, x);
    RowAgrees(box, w, x');
    BoxColumns(box, w, x, x');
    DigitSmall(RowWord(box, w), x);
    DigitSmall(RowWord(box, w), x');
    if Number(DigitOf(RowWord(box, w), x)) == Number(DigitOf(RowWord(box, w), x')) {
      NumberTells(DigitOf(RowWord(box, w), x), DigitOf(RowWord(box, w), x'));
      assert false;
    }
  }
}
