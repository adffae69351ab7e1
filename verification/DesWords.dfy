/**
  * The cipher once more, on words: shifts, masks and packed tables in place of bit arrays.  It computes
  * the same as the model of the bit arrays, for every block and key.
  */
module DesWords {
  import T = DesTables
  import opened Des

  function Low(x: bv64, n: bv6): bit {
    if (x >> n) & 1 == 0 then 0 else 1
  }

  /** Bit i of a word, counted from the right. */
  function BitOf(x: bv64, i: nat): bit
    requires i < 64
  {
    Low(x, i as bv6)
  }

  /** The low n bits of a word, most significant first. */
  function Bits(x: bv64, n: nat): (b: seq<bit>)
    requires n <= 64
    ensures |b| == n && forall j :: 0 <= j < n ==> b[j] == BitOf(x, n - 1 - j)
  {
    seq(n, j requires 0 <= j < n => BitOf(x, n - 1 - j))
  }

  /** The number of a four-bit word. */
  function Number(w: bv64): (n: nat)
    ensures n < 16
  {
    (if w & 8 == 0 then 0 else 8) + (if w & 4 == 0 then 0 else 4) + (if w & 2 == 0 then 0 else 2) + if w & 1 == 0 then 0 else 1
  }

  // ----- the rounds

  /** Each bit of the right half and its two neighbours' neighbours, six at a time. */
  function ExpandWord(r: bv64): bv64 {
    var w := ((r & 1) << 33) | (r << 1) | (r >> 31);
    (((w >> 28) & 63) << 42) | (((w >> 24) & 63) << 36) | (((w >> 20) & 63) << 30) | (((w >> 16) & 63) << 24)
    | (((w >> 12) & 63) << 18) | (((w >> 8) & 63) << 12) | (((w >> 4) & 63) << 6) | (w & 63)
  }

  /** A row of a selection table, one hexadecimal digit for each column. */
  function RowWord(box: nat, r: bv64): bv64
    requires box < 8
  {
    match box
    case 0 => if r == 0 then 0xE4D1_2FB8_3A6C_5907 else if r == 1 then 0x0F74_E2D1_A6CB_9538
              else if r == 2 then 0x41E8_D62B_FC97_3A50 else 0xFC82_4917_5B3E_A06D
    case 1 => if r == 0 then 0xF18E_6B34_972D_C05A else if r == 1 then 0x3D47_F28E_C01A_69B5
              else if r == 2 then 0x0E7B_A4D1_58C6_932F else 0xD8A1_3F42_B67C_05E9
    case 2 => if r == 0 then 0xA09E_63F5_1DC7_B428 else if r == 1 then 0xD709_346A_285E_CBF1
              else if r == 2 then 0xD649_8F30_B12C_5AE7 else 0x1AD0_6987_4FE3_B52C
    case 3 => if r == 0 then 0x7DE3_069A_1285_BC4F else if r == 1 then 0xD8B5_6F03_472C_1AE9
              else if r == 2 then 0xA690_CB7D_F13E_5284 else 0x3F06_A1D8_945B_C72E
    case 4 => if r == 0 then 0x2C41_7AB6_853F_D0E9 else if r == 1 then 0xEB2C_47D1_50FA_3986
              else if r == 2 then 0x421B_AD78_F9C5_630E else 0xB8C7_1E2D_6F09_A453
    case 5 => if r == 0 then 0xC1AF_9268_0D34_E75B else if r == 1 then 0xAF42_7C95_61DE_0B38
              else if r == 2 then 0x9EF5_28C3_704A_1DB6 else 0x432C_95FA_BE17_608D
    case 6 => if r == 0 then 0x4B2E_F08D_3C97_5A61 else if r == 1 then 0xD0B7_491A_E35C_2F86
              else if r == 2 then 0x14BD_C37E_AF68_0592 else 0x6BD8_14A7_950F_E23C
    case 7 => if r == 0 then 0xD284_6FB1_A93E_50C7 else if r == 1 then 0x1FD8_A374_C56B_0E92
              else if r == 2 then 0x7B41_9CE2_06AD_F358 else 0x21E7_4A8D_FC90_356B
  }

  function DigitOf(row: bv64, c: bv64): bv64
    requires c < 16
  {
    (row >> (60 - 4 * c) as bv6) & 15
  }

  /** The first and the last of six bits choose the row, the other four the column. */
  function SelectWord(box: nat, six: bv64): bv64
    requires box < 8
  {
    DigitOf(RowWord(box, ((six >> 4) & 2) | (six & 1)), (six >> 1) & 15)
  }

  function SixOf(p: bv64, box: nat): bv64
    requires box < 8
  {
    match box
    case 0 => (p >> 42) & 63
    case 1 => (p >> 36) & 63
    case 2 => (p >> 30) & 63
    case 3 => (p >> 24) & 63
    case 4 => (p >> 18) & 63
    case 5 => (p >> 12) & 63
    case 6 => (p >> 6) & 63
    case 7 => p & 63
  }

  function Eight(a: bv64, b: bv64, c: bv64, d: bv64, e: bv64, f: bv64, g: bv64, h: bv64): bv64 {
    (a << 28) | (b << 24) | (c << 20) | (d << 16) | (e << 12) | (f << 8) | (g << 4) | h
  }

  function BoxWord(p: bv64, box: nat): bv64
    requires box < 8
  {
    SelectWord(box, SixOf(p, box))
  }

  function SelectedWord(p: bv64): bv64 {
    Eight(SelectWord(0, (p >> 42) & 63), SelectWord(1, (p >> 36) & 63), SelectWord(2, (p >> 30) & 63), SelectWord(3, (p >> 24) & 63),
          SelectWord(4, (p >> 18) & 63), SelectWord(5, (p >> 12) & 63), SelectWord(6, (p >> 6) & 63), SelectWord(7, p & 63))
  }

  function PermuteWord(f: bv64): bv64 {
    (((f >> 16) & 1) << 31) | (((f >> 25) & 1) << 30) | (((f >> 12) & 1) << 29) | (((f >> 11) & 1) << 28)
    | (((f >> 3) & 1) << 27) | (((f >> 20) & 1) << 26) | (((f >> 4) & 1) << 25) | (((f >> 15) & 1) << 24)
    | (((f >> 31) & 1) << 23) | (((f >> 17) & 1) << 22) | (((f >> 9) & 1) << 21) | (((f >> 6) & 1) << 20)
    | (((f >> 27) & 1) << 19) | (((f >> 14) & 1) << 18) | (((f >> 1) & 1) << 17) | (((f >> 22) & 1) << 16)
    | (((f >> 30) & 1) << 15) | (((f >> 24) & 1) << 14) | (((f >> 8) & 1) << 13) | (((f >> 18) & 1) << 12)
    | ((f & 1) << 11) | (((f >> 5) & 1) << 10) | (((f >> 29) & 1) << 9) | (((f >> 23) & 1) << 8)
    | (((f >> 13) & 1) << 7) | (((f >> 19) & 1) << 6) | (((f >> 2) & 1) << 5) | (((f >> 26) & 1) << 4)
    | (((f >> 10) & 1) << 3) | (((f >> 21) & 1) << 2) | (((f >> 28) & 1) << 1) | ((f >> 7) & 1)
  }

  function Left(x: bv64): bv64 {
    x >> 32
  }

  function Right(x: bv64): bv64 {
    x & 0xFFFF_FFFF
  }

  /** A word that holds the left half above the right one. */
  function Join(l: bv64, r: bv64): bv64 {
    (l << 32) | r
  }

  function XorWord(x: bv64, y: bv64): bv64 {
    x ^ y
  }

  /** What a round makes of the left half. */
  function MixedHalf(l: bv64, r: bv64, k: bv64): bv64 {
    XorWord(l, PermuteWord(SelectedWord(XorWord(ExpandWord(r), k))))
  }

  function RoundWord(x: bv64, k: bv64): bv64 {
    Join(Right(x), MixedHalf(Left(x), Right(x), k))
  }

  // ----- the block

  /** The lowest bits of the eight bytes, the last byte's first. */
  function Column(w: bv64): bv64 {
    ((w & 1) << 7) | (((w >> 8) & 1) << 6) | (((w >> 16) & 1) << 5) | (((w >> 24) & 1) << 4)
    | (((w >> 32) & 1) << 3) | (((w >> 40) & 1) << 2) | (((w >> 48) & 1) << 1) | ((w >> 56) & 1)
  }

  /** The other way round: the bits of a byte as the lowest of eight bytes. */
  function Spread(v: bv64): bv64 {
    ((v >> 7) & 1) | (((v >> 6) & 1) << 8) | (((v >> 5) & 1) << 16) | (((v >> 4) & 1) << 24)
    | (((v >> 3) & 1) << 32) | (((v >> 2) & 1) << 40) | (((v >> 1) & 1) << 48) | ((v & 1) << 56)
  }

  /** The even bits of all bytes come first, then the odd ones. */
  function InitialWord(b: bv64): bv64 {
    (Column(b >> 6) << 56) | (Column(b >> 4) << 48) | (Column(b >> 2) << 40) | (Column(b) << 32)
    | (Column(b >> 7) << 24) | (Column(b >> 5) << 16) | (Column(b >> 3) << 8) | Column(b >> 1)
  }

  function FinalWord(x: bv64): bv64 {
    (Spread(x >> 56) << 6) | (Spread(x >> 48) << 4) | (Spread(x >> 40) << 2) | Spread(x >> 32)
    | (Spread(x >> 24) << 7) | (Spread(x >> 16) << 5) | (Spread(x >> 8) << 3) | (Spread(x) << 1)
  }

  function SwapWord(x: bv64): bv64 {
    (x << 32) | (x >> 32)
  }

  // ----- the keys

  /** The 28 bits of the key that make up its first half, and its second. */
  function FirstHalf(key: bv64): bv64 {
    (((key >> 7) & 1) << 27) | (((key >> 15) & 1) << 26) | (((key >> 23) & 1) << 25)
    | (((key >> 31) & 1) << 24) | (((key >> 39) & 1) << 23) | (((key >> 47) & 1) << 22)
    | (((key >> 55) & 1) << 21) | (((key >> 63) & 1) << 20) | (((key >> 6) & 1) << 19)
    | (((key >> 14) & 1) << 18) | (((key >> 22) & 1) << 17) | (((key >> 30) & 1) << 16)
    | (((key >> 38) & 1) << 15) | (((key >> 46) & 1) << 14) | (((key >> 54) & 1) << 13)
    | (((key >> 62) & 1) << 12) | (((key >> 5) & 1) << 11) | (((key >> 13) & 1) << 10)
    | (((key >> 21) & 1) << 9) | (((key >> 29) & 1) << 8) | (((key >> 37) & 1) << 7)
    | (((key >> 45) & 1) << 6) | (((key >> 53) & 1) << 5) | (((key >> 61) & 1) << 4) | (((key >> 4) & 1) << 3)
    | (((key >> 12) & 1) << 2) | (((key >> 20) & 1) << 1) | ((key >> 28) & 1)
  }

  function SecondHalf(key: bv64): bv64 {
    (((key >> 1) & 1) << 27) | (((key >> 9) & 1) << 26) | (((key >> 17) & 1) << 25)
    | (((key >> 25) & 1) << 24) | (((key >> 33) & 1) << 23) | (((key >> 41) & 1) << 22)
    | (((key >> 49) & 1) << 21) | (((key >> 57) & 1) << 20) | (((key >> 2) & 1) << 19)
    | (((key >> 10) & 1) << 18) | (((key >> 18) & 1) << 17) | (((key >> 26) & 1) << 16)
    | (((key >> 34) & 1) << 15) | (((key >> 42) & 1) << 14) | (((key >> 50) & 1) << 13)
    | (((key >> 58) & 1) << 12) | (((key >> 3) & 1) << 11) | (((key >> 11) & 1) << 10)
    | (((key >> 19) & 1) << 9) | (((key >> 27) & 1) << 8) | (((key >> 35) & 1) << 7)
    | (((key >> 43) & 1) << 6) | (((key >> 51) & 1) << 5) | (((key >> 59) & 1) << 4)
    | (((key >> 36) & 1) << 3) | (((key >> 44) & 1) << 2) | (((key >> 52) & 1) << 1) | ((key >> 60) & 1)
  }

  /** A half of 28 bits rotated left by one place, n times. */
  function TurnedWord(c: bv64, n: nat): bv64 {
    if n == 0 then c else OneTurn(TurnedWord(c, n - 1))
  }

  function OneTurn(c: bv64): bv64 {
    ((c << 1) | (c >> 27)) & 0xFFF_FFFF
  }

  /** The round key picked from the two halves. */
  function PickWord(c: bv64, d: bv64): bv64 {
    (((c >> 14) & 1) << 47) | (((c >> 11) & 1) << 46) | (((c >> 17) & 1) << 45) | (((c >> 4) & 1) << 44)
    | (((c >> 27) & 1) << 43) | (((c >> 23) & 1) << 42) | (((c >> 25) & 1) << 41) | ((c & 1) << 40)
    | (((c >> 13) & 1) << 39) | (((c >> 22) & 1) << 38) | (((c >> 7) & 1) << 37) | (((c >> 18) & 1) << 36)
    | (((c >> 5) & 1) << 35) | (((c >> 9) & 1) << 34) | (((c >> 16) & 1) << 33) | (((c >> 24) & 1) << 32)
    | (((c >> 2) & 1) << 31) | (((c >> 20) & 1) << 30) | (((c >> 12) & 1) << 29) | (((c >> 21) & 1) << 28)
    | (((c >> 1) & 1) << 27) | (((c >> 8) & 1) << 26) | (((c >> 15) & 1) << 25) | (((c >> 26) & 1) << 24)
    | (((d >> 15) & 1) << 23) | (((d >> 4) & 1) << 22) | (((d >> 25) & 1) << 21) | (((d >> 19) & 1) << 20)
    | (((d >> 9) & 1) << 19) | (((d >> 1) & 1) << 18) | (((d >> 26) & 1) << 17) | (((d >> 16) & 1) << 16)
    | (((d >> 5) & 1) << 15) | (((d >> 11) & 1) << 14) | (((d >> 23) & 1) << 13) | (((d >> 8) & 1) << 12)
    | (((d >> 12) & 1) << 11) | (((d >> 7) & 1) << 10) | (((d >> 17) & 1) << 9) | ((d & 1) << 8)
    | (((d >> 22) & 1) << 7) | (((d >> 3) & 1) << 6) | (((d >> 10) & 1) << 5) | (((d >> 14) & 1) << 4)
    | (((d >> 6) & 1) << 3) | (((d >> 20) & 1) << 2) | (((d >> 27) & 1) << 1) | ((d >> 24) & 1)
  }

  function KeyWord(key: bv64, i: nat): bv64
    requires i < 16
  {
    PickWord(TurnedWord(FirstHalf(key), Turned(i)), TurnedWord(SecondHalf(key), Turned(i)))
  }

  /** The first n rounds. */
  function RoundsWord(x: bv64, key: bv64, backward: bool, n: nat): bv64
    requires n <= 16
  {
    if n == 0 then x
    else RoundWord(RoundsWord(x, key, backward, n - 1), KeyWord(key, if backward then 16 - n else n - 1))
  }

  function CipherWord(b: bv64, key: bv64, backward: bool): bv64 {
    FinalWord(SwapWord(RoundsWord(InitialWord(b), key, backward, 16)))
  }
}
