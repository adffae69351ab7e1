/** The fixed tables of the block cipher (Data Encryption Standard, FIPS PUB 46-3). */
module DesTables {
  function IPRow(r: nat): (row: seq<int>)
    requires r < 8
    ensures |row| == 8
    ensures forall c :: 0 <= c < 8 ==> row[c] == (if r < 4 then 58 + 2 * r else 49 + 2 * r) - 8 * c
  {
    match r
    case 0 => [58, 50, 42, 34, 26, 18, 10, 2]
    case 1 => [60, 52, 44, 36, 28, 20, 12, 4]
    case 2 => [62, 54, 46, 38, 30, 22, 14, 6]
    case 3 => [64, 56, 48, 40, 32, 24, 16, 8]
    case 4 => [57, 49, 41, 33, 25, 17, 9, 1]
    case 5 => [59, 51, 43, 35, 27, 19, 11, 3]
    case 6 => [61, 53, 45, 37, 29, 21, 13, 5]
    case 7 => [63, 55, 47, 39, 31, 23, 15, 7]
  }

  /** Initial permutation: where bit j of the permuted block comes from. */
  function IP(j: nat): (v: int)
    requires j < 64
    ensures 1 <= v <= 64
  {
    IPRow(j / 8)[j % 8]
  }

  function FPRow(r: nat): (row: seq<int>)
    requires r < 8
    ensures |row| == 8
    ensures forall c :: 0 <= c < 8 ==> row[c] == (if c % 2 == 0 then 40 else 8) + 8 * (c / 2) - r
  {
    match r
    case 0 => [40, 8, 48, 16, 56, 24, 64, 32]
    case 1 => [39, 7, 47, 15, 55, 23, 63, 31]
    case 2 => [38, 6, 46, 14, 54, 22, 62, 30]
    case 3 => [37, 5, 45, 13, 53, 21, 61, 29]
    case 4 => [36, 4, 44, 12, 52, 20, 60, 28]
    case 5 => [35, 3, 43, 11, 51, 19, 59, 27]
    case 6 => [34, 2, 42, 10, 50, 18, 58, 26]
    case 7 => [33, 1, 41, 9, 49, 17, 57, 25]
  }

  /** Final permutation. */
  function FP(j: nat): (v: int)
    requires j < 64
    ensures 1 <= v <= 64
  {
    FPRow(j / 8)[j % 8]
  }

  function ERow(r: nat): (row: seq<int>)
    requires r < 8
    ensures |row| == 6
    ensures forall c :: 0 <= c < 6 ==> 1 <= row[c] <= 32
  {
    match r
    case 0 => [32, 1, 2, 3, 4, 5]
    case 1 => [4, 5, 6, 7, 8, 9]
    case 2 => [8, 9, 10, 11, 12, 13]
    case 3 => [12, 13, 14, 15, 16, 17]
    case 4 => [16, 17, 18, 19, 20, 21]
    case 5 => [20, 21, 22, 23, 24, 25]
    case 6 => [24, 25, 26, 27, 28, 29]
    case 7 => [28, 29, 30, 31, 32, 1]
  }

  /** Bit selection, from 32 bits to 48. */
  function E(j: nat): (v: int)
    requires j < 48
    ensures 1 <= v <= 32
  {
    ERow(j / 6)[j % 6]
  }

  function PRow(r: nat): (row: seq<int>)
    requires r < 8
    ensures |row| == 4
    ensures forall c :: 0 <= c < 4 ==> 1 <= row[c] <= 32
  {
    match r
    case 0 => [16, 7, 20, 21]
    case 1 => [29, 12, 28, 17]
    case 2 => [1, 15, 23, 26]
    case 3 => [5, 18, 31, 10]
    case 4 => [2, 8, 24, 14]
    case 5 => [32, 27, 3, 9]
    case 6 => [19, 13, 30, 6]
    case 7 => [22, 11, 4, 25]
  }

  /** Permutation of the selected bits. */
  function P(j: nat): (v: int)
    requires j < 32
    ensures 1 <= v <= 32
  {
    PRow(j / 4)[j % 4]
  }

  function PC1CRow(r: nat): (row: seq<int>)
    requires r < 4
    ensures |row| == 7
    ensures forall c :: 0 <= c < 7 ==> 1 <= row[c] <= 64
  {
    match r
    case 0 => [57, 49, 41, 33, 25, 17, 9]
    case 1 => [1, 58, 50, 42, 34, 26, 18]
    case 2 => [10, 2, 59, 51, 43, 35, 27]
    case 3 => [19, 11, 3, 60, 52, 44, 36]
  }

  /** Permuted choice 1, first half. */
  function PC1C(j: nat): (v: int)
    requires j < 28
    ensures 1 <= v <= 64
  {
    PC1CRow(j / 7)[j % 7]
  }

  function PC1DRow(r: nat): (row: seq<int>)
    requires r < 4
    ensures |row| == 7
    ensures forall c :: 0 <= c < 7 ==> 1 <= row[c] <= 64
  {
    match r
    case 0 => [63, 55, 47, 39, 31, 23, 15]
    case 1 => [7, 62, 54, 46, 38, 30, 22]
    case 2 => [14, 6, 61, 53, 45, 37, 29]
    case 3 => [21, 13, 5, 28, 20, 12, 4]
  }

  /** Permuted choice 1, second half. */
  function PC1D(j: nat): (v: int)
    requires j < 28
    ensures 1 <= v <= 64
  {
    PC1DRow(j / 7)[j % 7]
  }

  function PC2CRow(r: nat): (row: seq<int>)
    requires r < 4
    ensures |row| == 6
    ensures forall c :: 0 <= c < 6 ==> 1 <= row[c] <= 28
  {
    match r
    case 0 => [14, 17, 11, 24, 1, 5]
    case 1 => [3, 28, 15, 6, 21, 10]
    case 2 => [23, 19, 12, 4, 26, 8]
    case 3 => [16, 7, 27, 20, 13, 2]
  }

  /** Permuted choice 2, from the first half. */
  function PC2C(j: nat): (v: int)
    requires j < 24
    ensures 1 <= v <= 28
  {
    PC2CRow(j / 6)[j % 6]
  }

  function PC2DRow(r: nat): (row: seq<int>)
    requires r < 4
    ensures |row| == 6
    ensures forall c :: 0 <= c < 6 ==> 29 <= row[c] <= 56
  {
    match r
    case 0 => [41, 52, 31, 37, 47, 55]
    case 1 => [30, 40, 51, 45, 33, 48]
    case 2 => [44, 49, 39, 56, 34, 53]
    case 3 => [46, 42, 50, 36, 29, 32]
  }

  /** Permuted choice 2, from the second half. */
  function PC2D(j: nat): (v: int)
    requires j < 24
    ensures 29 <= v <= 56
  {
    PC2DRow(j / 6)[j % 6]
  }

  /** How far the key halves are rotated before round i. */
  function Shift(i: nat): (v: nat)
    requires i < 16
    ensures 1 <= v <= 2
  {
    if i == 0 || i == 1 || i == 8 || i == 15 then 1 else 2
  }

  function S1Row(r: nat): (row: seq<int>)
    requires r < 4
    ensures |row| == 16
    ensures forall c :: 0 <= c < 16 ==> 0 <= row[c] < 16
  {
    match r
    case 0 => [14, 4, 13, 1, 2, 15, 11, 8, 3, 10, 6, 12, 5, 9, 0, 7]
    case 1 => [0, 15, 7, 4, 14, 2, 13, 1, 10, 6, 12, 11, 9, 5, 3, 8]
    case 2 => [4, 1, 14, 8, 13, 6, 2, 11, 15, 12, 9, 7, 3, 10, 5, 0]
    case 3 => [15, 12, 8, 2, 4, 9, 1, 7, 5, 11, 3, 14, 10, 0, 6, 13]
  }

  function S2Row(r: nat): (row: seq<int>)
    requires r < 4
    ensures |row| == 16
    ensures forall c :: 0 <= c < 16 ==> 0 <= row[c] < 16
  {
    match r
    case 0 => [15, 1, 8, 14, 6, 11, 3, 4, 9, 7, 2, 13, 12, 0, 5, 10]
    case 1 => [3, 13, 4, 7, 15, 2, 8, 14, 12, 0, 1, 10, 6, 9, 11, 5]
    case 2 => [0, 14, 7, 11, 10, 4, 13, 1, 5, 8, 12, 6, 9, 3, 2, 15]
    case 3 => [13, 8, 10, 1, 3, 15, 4, 2, 11, 6, 7, 12, 0, 5, 14, 9]
  }

  function S3Row(r: nat): (row: seq<int>)
    requires r < 4
    ensures |row| == 16
    ensures forall c :: 0 <= c < 16 ==> 0 <= row[c] < 16
  {
    match r
    case 0 => [10, 0, 9, 14, 6, 3, 15, 5, 1, 13, 12, 7, 11, 4, 2, 8]
    case 1 => [13, 7, 0, 9, 3, 4, 6, 10, 2, 8, 5, 14, 12, 11, 15, 1]
    case 2 => [13, 6, 4, 9, 8, 15, 3, 0, 11, 1, 2, 12, 5, 10, 14, 7]
    case 3 => [1, 10, 13, 0, 6, 9, 8, 7, 4, 15, 14, 3, 11, 5, 2, 12]
  }

  function S4Row(r: nat): (row: seq<int>)
    requires r < 4
    ensures |row| == 16
    ensures forall c :: 0 <= c < 16 ==> 0 <= row[c] < 16
  {
    match r
    case 0 => [7, 13, 14, 3, 0, 6, 9, 10, 1, 2, 8, 5, 11, 12, 4, 15]
    case 1 => [13, 8, 11, 5, 6, 15, 0, 3, 4, 7, 2, 12, 1, 10, 14, 9]
    case 2 => [10, 6, 9, 0, 12, 11, 7, 13, 15, 1, 3, 14, 5, 2, 8, 4]
    case 3 => [3, 15, 0, 6, 10, 1, 13, 8, 9, 4, 5, 11, 12, 7, 2, 14]
  }

  function S5Row(r: nat): (row: seq<int>)
    requires r < 4
    ensures |row| == 16
    ensures forall c :: 0 <= c < 16 ==> 0 <= row[c] < 16
  {
    match r
    case 0 => [2, 12, 4, 1, 7, 10, 11, 6, 8, 5, 3, 15, 13, 0, 14, 9]
    case 1 => [14, 11, 2, 12, 4, 7, 13, 1, 5, 0, 15, 10, 3, 9, 8, 6]
    case 2 => [4, 2, 1, 11, 10, 13, 7, 8, 15, 9, 12, 5, 6, 3, 0, 14]
    case 3 => [11, 8, 12, 7, 1, 14, 2, 13, 6, 15, 0, 9, 10, 4, 5, 3]
  }

  function S6Row(r: nat): (row: seq<int>)
    requires r < 4
    ensures |row| == 16
    ensures forall c :: 0 <= c < 16 ==> 0 <= row[c] < 16
  {
    match r
    case 0 => [12, 1, 10, 15, 9, 2, 6, 8, 0, 13, 3, 4, 14, 7, 5, 11]
    case 1 => [10, 15, 4, 2, 7, 12, 9, 5, 6, 1, 13, 14, 0, 11, 3, 8]
    case 2 => [9, 14, 15, 5, 2, 8, 12, 3, 7, 0, 4, 10, 1, 13, 11, 6]
    case 3 => [4, 3, 2, 12, 9, 5, 15, 10, 11, 14, 1, 7, 6, 0, 8, 13]
  }

  function S7Row(r: nat): (row: seq<int>)
    requires r < 4
    ensures |row| == 16
    ensures forall c :: 0 <= c < 16 ==> 0 <= row[c] < 16
  {
    match r
    case 0 => [4, 11, 2, 14, 15, 0, 8, 13, 3, 12, 9, 7, 5, 10, 6, 1]
    case 1 => [13, 0, 11, 7, 4, 9, 1, 10, 14, 3, 5, 12, 2, 15, 8, 6]
    case 2 => [1, 4, 11, 13, 12, 3, 7, 14, 10, 15, 6, 8, 0, 5, 9, 2]
    case 3 => [6, 11, 13, 8, 1, 4, 10, 7, 9, 5, 0, 15, 14, 2, 3, 12]
  }

  function S8Row(r: nat): (row: seq<int>)
    requires r < 4
    ensures |row| == 16
    ensures forall c :: 0 <= c < 16 ==> 0 <= row[c] < 16
  {
    match r
    case 0 => [13, 2, 8, 4, 6, 15, 11, 1, 10, 9, 3, 14, 5, 0, 12, 7]
    case 1 => [1, 15, 13, 8, 10, 3, 7, 4, 12, 5, 6, 11, 0, 14, 9, 2]
    case 2 => [7, 11, 4, 1, 9, 12, 14, 2, 0, 6, 10, 13, 15, 3, 5, 8]
    case 3 => [2, 1, 14, 7, 4, 10, 8, 13, 15, 12, 9, 0, 3, 5, 6, 11]
  }

  function SRow(box: nat, r: nat): (row: seq<int>)
    requires box < 8 && r < 4
    ensures |row| == 16
    ensures forall c :: 0 <= c < 16 ==> 0 <= row[c] < 16
  {
    match box
    case 0 => S1Row(r)
    case 1 => S2Row(r)
    case 2 => S3Row(r)
    case 3 => S4Row(r)
    case 4 => S5Row(r)
    case 5 => S6Row(r)
    case 6 => S7Row(r)
    case 7 => S8Row(r)
  }

  /** The selection functions: six bits to four. */
  function S(box: nat, v: nat): (k: int)
    requires box < 8 && v < 64
    ensures 0 <= k < 16
  {
    SRow(box, v / 16)[v % 16]
  }

  /** Each of the two block permutations undoes the other. */
  lemma FPInvertsIP(j: nat)
    requires j < 64
    ensures IP(FP(j) - 1) == j + 1
  {
    hide IPRow, FPRow;
    var r, c := j / 8, j % 8;
    var base := (if c % 2 == 0 then 4 else 0) + c / 2;
    assert 0 <= base < 8;
    assert FP(j) - 1 == 8 * base + (7 - r);
    assert (8 * base + (7 - r)) / 8 == base && (8 * base + (7 - r)) % 8 == 7 - r;
  }

  lemma IPInvertsFP(j: nat)
    requires j < 64
    ensures FP(IP(j) - 1) == j + 1
  {
    hide IPRow, FPRow;
    var r, c := j / 8, j % 8;
    var col := if r < 4 then 1 + 2 * r else 2 * (r - 4);
    assert 0 <= col < 8;
    assert IP(j) - 1 == 8 * (7 - c) + col;
    assert (8 * (7 - c) + col) / 8 == 7 - c && (8 * (7 - c) + col) % 8 == col;
  }
}
