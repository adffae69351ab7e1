/** The block cipher of ruserpass: what nbssetkey() and blkencrypt() compute, and why one undoes the other. */
module Des {
  import opened DesTables

  type bit = b: int | 0 <= b <= 1

  function Xor(a: bit, b: bit): bit {
    if a == b then 0 else 1
  }

  function Not(a: bit): bit {
    1 - a
  }

  // ----- the round function

  /** The six bits chosen for a box, as the row and column index of its table. */
  function BoxIndex(p: seq<bit>, t: nat): (v: nat)
    requires t + 6 <= |p|
    ensures v < 64
  {
    var q: seq<int> := p[t..t + 6];
    q[0] * 32 + q[1] * 8 + q[2] * 4 + q[3] * 2 + q[4] + q[5] * 16
  }

  /** Bit i, counted from the left, of a four-bit value. */
  function Nibble(k: int, i: nat): bit
    requires 0 <= k < 16 && i < 4
  {
    if i == 0 then k / 8 else if i == 1 then (k / 4) % 2 else if i == 2 then (k / 2) % 2 else k % 2
  }

  /** The right half expanded to 48 bits and combined with the round key. */
  function Mixed(r: seq<bit>, k: seq<bit>): (p: seq<bit>)
    requires |r| == 32 && |k| == 48
    ensures |p| == 48
  {
    seq(48, j requires 0 <= j < 48 => Xor(r[E(j) - 1], k[j]))
  }

  function Selected(p: seq<bit>): (f: seq<bit>)
    requires |p| == 48
    ensures |f| == 32
  {
    seq(32, j requires 0 <= j < 32 => Nibble(S(j / 4, BoxIndex(p, 6 * (j / 4))), j % 4))
  }

  /** One round on a block held as left half followed by right half. */
  function Round(x: seq<bit>, k: seq<bit>): (y: seq<bit>)
    requires |x| == 64 && |k| == 48
    ensures |y| == 64
  {
    var f := Selected(Mixed(x[32..], k));
    x[32..] + seq(32, j requires 0 <= j < 32 => Xor(x[j], f[P(j) - 1]))
  }

  function Swap(x: seq<bit>): (y: seq<bit>)
    requires |x| == 64
    ensures |y| == 64
  {
    x[32..] + x[..32]
  }

  ghost predicate Keys(ks: seq<seq<bit>>) {
    forall i :: 0 <= i < |ks| ==> |ks[i]| == 48
  }

  /** Rounds with the keys ks, in order. */
  ghost function Rounds(x: seq<bit>, ks: seq<seq<bit>>): (y: seq<bit>)
    requires |x| == 64 && Keys(ks)
    ensures |y| == 64
    decreases |ks|
  {
    if ks == [] then x else Rounds(Round(x, ks[0]), ks[1..])
  }

  function Initial(b: seq<bit>): (x: seq<bit>)
    requires |b| == 64
    ensures |x| == 64
  {
    seq(64, j requires 0 <= j < 64 => b[IP(j) - 1])
  }

  function Final(x: seq<bit>): (b: seq<bit>)
    requires |x| == 64
    ensures |b| == 64
  {
    seq(64, j requires 0 <= j < 64 => x[FP(j) - 1])
  }

  /** The cipher with the round keys ks, however many. */
  ghost function Cipher(b: seq<bit>, ks: seq<seq<bit>>): (c: seq<bit>)
    requires |b| == 64 && Keys(ks)
    ensures |c| == 64
  {
    Final(Swap(Rounds(Initial(b), ks)))
  }

  ghost function Reverse(ks: seq<seq<bit>>): (r: seq<seq<bit>>)
    ensures |r| == |ks| && forall i :: 0 <= i < |ks| ==> r[i] == ks[|ks| - 1 - i]
  {
    if ks == [] then [] else Reverse(ks[1..]) + [ks[0]]
  }

  // ----- deciphering undoes enciphering

  /** A round, seen from the other side, is its own inverse. */
  lemma RoundUndoesItself(x: seq<bit>, k: seq<bit>)
    requires |x| == 64 && |k| == 48
    ensures Round(Swap(Round(x, k)), k) == Swap(x)
  {
    var y := Round(x, k);
    var z := Swap(y);
    assert z[32..] == x[32..];
    var f := Selected(Mixed(x[32..], k));
    assert y[..32] == x[32..];
    forall j | 0 <= j < 32 ensures Xor(z[j], f[P(j) - 1]) == x[j] {
      assert z[j] == y[32 + j] == Xor(x[j], f[P(j) - 1]);
    }
    assert Round(z, k)[32..] == x[..32];
    assert Round(z, k) == x[32..] + x[..32];
  }

  lemma {:induction false} RoundsAppend(x: seq<bit>, ks: seq<seq<bit>>, k: seq<bit>)
    requires |x| == 64 && Keys(ks) && |k| == 48
    ensures Keys(ks + [k]) && Rounds(x, ks + [k]) == Round(Rounds(x, ks), k)
    decreases |ks|
  {
    if ks != [] {
      RoundsAppend(Round(x, ks[0]), ks[1..], k);
      assert (ks + [k])[1..] == ks[1..] + [k];
    } else {
      assert [k][1..] == [];
    }
  }

  lemma {:induction false} RoundsUndone(x: seq<bit>, ks: seq<seq<bit>>)
    requires |x| == 64 && Keys(ks)
    ensures Rounds(Swap(Rounds(x, ks)), Reverse(ks)) == Swap(x)
    decreases |ks|
  {
    if ks != [] {
      var k, rest, y := ks[0], ks[1..], Round(x, ks[0]);
      RoundsUndone(y, rest);
      RoundsAppend(Swap(Rounds(x, ks)), Reverse(rest), k);
      RoundUndoesItself(x, k);
    }
  }

  lemma FinalUndoesInitial(b: seq<bit>)
    requires |b| == 64
    ensures Final(Initial(b)) == b
  {
    hide IP, FP;
    forall j | 0 <= j < 64 ensures Final(Initial(b))[j] == b[j] {
      FPInvertsIP(j);
      assert Final(Initial(b))[j] == Initial(b)[FP(j) - 1];
    }
  }

  lemma InitialUndoesFinal(x: seq<bit>)
    requires |x| == 64
    ensures Initial(Final(x)) == x
  {
    hide IP, FP;
    forall j | 0 <= j < 64 ensures Initial(Final(x))[j] == x[j] {
      IPInvertsFP(j);
      assert Initial(Final(x))[j] == Final(x)[IP(j) - 1];
    }
  }

  lemma SwapTwice(x: seq<bit>)
    requires |x| == 64
    ensures Swap(Swap(x)) == x
  {
  }

  /** Enciphering again with the keys in reverse order restores any block, whatever the keys. */
  lemma CipherUndone(b: seq<bit>, ks: seq<seq<bit>>)
    requires |b| == 64 && Keys(ks)
    ensures Cipher(Cipher(b, ks), Reverse(ks)) == b
  {
    var x := Initial(b);
    var y := Swap(Rounds(x, ks));
    InitialUndoesFinal(y);
    RoundsUndone(x, ks);
    SwapTwice(x);
    FinalUndoesInitial(b);
  }

  // ----- complementing

  function Complement(s: seq<bit>): (r: seq<bit>)
    ensures |r| == |s| && forall i :: 0 <= i < |s| ==> r[i] == Not(s[i])
  {
    seq(|s|, i requires 0 <= i < |s| => Not(s[i]))
  }

  ghost predicate Complements(a: seq<seq<bit>>, b: seq<seq<bit>>) {
    |a| == |b| && forall i :: 0 <= i < |a| ==> b[i] == Complement(a[i])
  }

  /** The two complements cancel in the round function and show in its result. */
  lemma RoundComplement(x: seq<bit>, k: seq<bit>)
    requires |x| == 64 && |k| == 48
    ensures Round(Complement(x), Complement(k)) == Complement(Round(x, k))
  {
    hide E, P, Selected;
    var x', k' := Complement(x), Complement(k);
    assert x'[32..] == Complement(x[32..]);
    MixedComplement(x[32..], k);
    var f := Selected(Mixed(x[32..], k));
    var y, y' := Round(x, k), Round(x', k');
    forall j | 0 <= j < 64 ensures y'[j] == Not(y[j]) {
      if j < 32 {
        assert y[j] == x[32..][j] && y'[j] == x'[32..][j];
      } else {
        assert y[j] == Xor(x[j - 32], f[P(j - 32) - 1]) && y'[j] == Xor(x'[j - 32], f[P(j - 32) - 1]);
      }
    }
    assert y' == Complement(y);
  }

  lemma MixedComplement(r: seq<bit>, k: seq<bit>)
    requires |r| == 32 && |k| == 48
    ensures Mixed(Complement(r), Complement(k)) == Mixed(r, k)
  {
    hide E;
    forall j | 0 <= j < 48 ensures Mixed(Complement(r), Complement(k))[j] == Mixed(r, k)[j] {
    }
  }

  lemma {:induction false} RoundsComplement(x: seq<bit>, ks: seq<seq<bit>>, ks': seq<seq<bit>>)
    requires |x| == 64 && Keys(ks) && Keys(ks') && Complements(ks, ks')
    ensures Rounds(Complement(x), ks') == Complement(Rounds(x, ks))
    decreases |ks|
  {
    if ks != [] {
      RoundComplement(x, ks[0]);
      RoundsComplement(Round(x, ks[0]), ks[1..], ks'[1..]);
    }
  }

  /** Complementing the block and every round key complements the result. */
  lemma CipherComplement(b: seq<bit>, ks: seq<seq<bit>>, ks': seq<seq<bit>>)
    requires |b| == 64 && Keys(ks) && Keys(ks') && Complements(ks, ks')
    ensures Cipher(Complement(b), ks') == Complement(Cipher(b, ks))
  {
    var x := Initial(b);
    assert Initial(Complement(b)) == Complement(x);
    RoundsComplement(x, ks, ks');
    var y := Rounds(x, ks);
    assert Swap(Complement(y)) == Complement(Swap(y));
    assert Final(Complement(Swap(y))) == Complement(Final(Swap(y)));
  }

  // ----- the key schedule

  /** Where bit j of the key half starts out in the key, counting C first and D from 28. */
  function Chosen(key: seq<bit>, j: nat): bit
    requires |key| == 64 && j < 56
  {
    if j < 28 then key[PC1C(j) - 1] else key[PC1D(j - 28) - 1]
  }

  /** Bit p of the key half that starts at `base`, going round. */
  function HalfBit(key: seq<bit>, base: nat, p: nat): bit
    requires |key| == 64 && base <= 28
  {
    Chosen(key, base + p % 28)
  }

  /** How far the halves have been rotated in all when round i begins. */
  function Turned(i: nat): (n: nat)
    requires i < 16
  {
    Shift(i) + if i == 0 then 0 else Turned(i - 1)
  }

  /**
    * Bit j of the key of round i (FIPS PUB 46-3, Appendix 1): permuted choice 2 of the halves
    * rotated left by the shifts so far.
    */
  function KeyBit(key: seq<bit>, i: nat, j: nat): bit
    requires |key| == 64 && i < 16 && j < 48
  {
    if j < 24 then HalfBit(key, 0, PC2C(j) - 1 + Turned(i))
    else HalfBit(key, 28, PC2D(j - 24) - 29 + Turned(i))
  }

  function Schedule(key: seq<bit>): (ks: seq<seq<bit>>)
    requires |key| == 64
    ensures |ks| == 16 && forall i :: 0 <= i < 16 ==> |ks[i]| == 48
  {
    seq(16, i requires 0 <= i < 16 => seq(48, j requires 0 <= j < 48 => KeyBit(key, i, j)))
  }

  lemma ScheduleComplement(key: seq<bit>)
    requires |key| == 64
    ensures Complements(Schedule(key), Schedule(Complement(key)))
  {
    var ks, ks' := Schedule(key), Schedule(Complement(key));
    forall i | 0 <= i < 16 ensures ks'[i] == Complement(ks[i]) {
      forall j | 0 <= j < 48 ensures ks'[i][j] == Not(ks[i][j]) {
        assert KeyBit(Complement(key), i, j) == Not(KeyBit(key, i, j));
      }
    }
  }

  ghost function KeysFor(key: seq<bit>, backward: bool): (ks: seq<seq<bit>>)
    requires |key| == 64
    ensures Keys(ks)
  {
    if backward then Reverse(Schedule(key)) else Schedule(key)
  }

  /** In either direction, complementing all key and block bits complements all bits of the result. */
  lemma DesComplement(b: seq<bit>, key: seq<bit>, backward: bool)
    requires |b| == 64 && |key| == 64
    ensures Cipher(Complement(b), KeysFor(Complement(key), backward)) == Complement(Cipher(b, KeysFor(key, backward)))
  {
    ScheduleComplement(key);
    CipherComplement(b, KeysFor(key, backward), KeysFor(Complement(key), backward));
  }

  /** Deciphering with a key undoes enciphering with it, and the other way round. */
  lemma DesInversion(b: seq<bit>, key: seq<bit>, backward: bool)
    requires |b| == 64 && |key| == 64
    ensures Cipher(Cipher(b, KeysFor(key, backward)), KeysFor(key, !backward)) == b
  {
    var ks := Schedule(key);
    CipherUndone(b, KeysFor(key, backward));
    assert Reverse(Reverse(ks)) == ks;
  }
}
