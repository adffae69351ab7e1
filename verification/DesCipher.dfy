/** nbssetkey() and blkencrypt() on their static arrays. */
module DesCipher {
  import T = DesTables
  import opened Des

  class BlockCipher {
    /** The two key halves. */
    const C: array<bit>
    const D: array<bit>
    /** The key schedule. */
    const KS: array2<bit>
    /** The block: L is its first half and R its second. */
    const LR: array<bit>
    const tempL: array<bit>
    const f: array<bit>
    const preS: array<bit>
    /** The E table, which the callers load. */
    const E: array<int>

    ghost predicate Valid() {
      && C.Length == 28 && D.Length == 28 && KS.Length0 == 16 && KS.Length1 == 48
      && LR.Length == 64 && tempL.Length == 32 && f.Length == 32 && preS.Length == 48 && E.Length == 48
      && C != D && LR != tempL && LR != f && LR != preS && tempL != f && tempL != preS && f != preS
    }

    ghost function Arrays(): set<object> {
      {C, D, KS, LR, tempL, f, preS, E}
    }

    constructor ()
      ensures Valid() && fresh(Arrays())
    {
      C := new bit[28];
      D := new bit[28];
      KS := new bit[16, 48];
      LR := new bit[64];
      tempL := new bit[32];
      f := new bit[32];
      preS := new bit[48];
      E := new int[48];
    }

    ghost function KeyRow(i: nat): (k: seq<bit>)
      requires Valid() && i < 16
      reads KS
      ensures |k| == 48
    {
      seq(48, j requires 0 <= j < 48 reads KS => KS[i, j])
    }

    /** The key schedule is that of `key`. */
    ghost predicate Keyed(key: seq<bit>)
      requires Valid() && |key| == 64
      reads KS
    {
      forall i, j :: 0 <= i < 16 && 0 <= j < 48 ==> KS[i, j] == KeyBit(key, i, j)
    }

    ghost predicate Loaded()
      requires Valid()
      reads E
    {
      forall j :: 0 <= j < 48 ==> E[j] == T.E(j)
    }

    method RotateLeft(a: array<bit>)
      requires a.Length == 28
      modifies a
      ensures forall j :: 0 <= j < 28 ==> a[j] == old(a[(j + 1) % 28])
    {
      var t := a[0];
      for j := 0 to 27
        invariant forall i :: 0 <= i < j ==> a[i] == old(a[i + 1])
        invariant forall i :: j <= i < 28 ==> a[i] == old(a[i])
      {
        a[j] := a[j + 1];
      }
      a[27] := t;
    }

    /** The half in `a` is the chosen one from `base` on, rotated n places. */
    ghost predicate Rotated(a: array<bit>, key: seq<bit>, base: nat, n: nat)
      requires |key| == 64 && a.Length == 28 && base <= 28
      reads a
    {
      forall j :: 0 <= j < 28 ==> a[j] == HalfBit(key, base, j + n)
    }

    lemma RotateOnce(key: seq<bit>, base: nat, j: nat, n: nat)
      requires |key| == 64 && base <= 28
      ensures HalfBit(key, base, (j + 1) % 28 + n) == HalfBit(key, base, j + (n + 1))
    {
      hide Chosen;
      assert (j + 1) % 28 == j + 1 - 28 * ((j + 1) / 28);
      assert ((j + 1) % 28 + n) % 28 == (j + (n + 1)) % 28;
    }

    method TurnHalf(a: array<bit>, ghost key: seq<bit>, ghost base: nat, ghost n: nat)
      requires |key| == 64 && a.Length == 28 && base <= 28 && Rotated(a, key, base, n)
      modifies a
      ensures Rotated(a, key, base, n + 1)
    {
      hide HalfBit;
      RotateLeft(a);
      forall j | 0 <= j < 28 ensures a[j] == HalfBit(key, base, j + (n + 1)) {
        RotateOnce(key, base, j, n);
      }
    }

    /** Permuted choice 1. */
    method ChooseHalves(key: array<bit>)
      requires Valid() && key.Length >= 64 && key != C && key != D
      modifies C, D
      ensures Rotated(C, key[..64], 0, 0) && Rotated(D, key[..64], 28, 0)
    {
      hide T.PC1C, T.PC1D;
      for i := 0 to 28
        invariant forall j :: 0 <= j < i ==> C[j] == key[T.PC1C(j) - 1] && D[j] == key[T.PC1D(j) - 1]
      {
        C[i] := key[T.PC1C(i) - 1];
        D[i] := key[T.PC1D(i) - 1];
      }
      ghost var k := key[..64];
      forall j | 0 <= j < 28 ensures C[j] == HalfBit(k, 0, j + 0) && D[j] == HalfBit(k, 28, j + 0) {
        assert j % 28 == j;
      }
    }

    /** Generate the key schedule.  The shifts add up to a full turn, so both halves end as they began. */
    method SetKey(key: array<bit>)
      requires Valid() && key.Length >= 64 && key != C && key != D
      modifies C, D, KS
      ensures Keyed(key[..64])
      ensures Rotated(C, key[..64], 0, 28) && Rotated(D, key[..64], 28, 28)
    {
      hide HalfBit, KeyBit, T.Shift;
      ghost var k := key[..64];
      ChooseHalves(key);
      ghost var turned := 0;
      for i := 0 to 16
        invariant turned == if i == 0 then 0 else Turned(i - 1)
        invariant Rotated(C, k, 0, turned) && Rotated(D, k, 28, turned)
        invariant forall r, j :: 0 <= r < i && 0 <= j < 48 ==> KS[r, j] == KeyBit(k, r, j)
      {
        for n := 0 to T.Shift(i)
          invariant Rotated(C, k, 0, turned + n) && Rotated(D, k, 28, turned + n)
          modifies C, D
        {
          TurnHalf(C, k, 0, turned + n);
          TurnHalf(D, k, 28, turned + n);
        }
        turned := turned + T.Shift(i);
        PickRow(i, k);
      }
      FullTurn();
    }

    lemma FullTurn()
      ensures Turned(15) == 28
    {
      assert Turned(3) == 6 && Turned(7) == 14 && Turned(11) == 21;
    }

    /** The halves start over after 28 places: the schedule leaves them as permuted choice 1 made them. */
    lemma HalvesRestored(key: seq<bit>, base: nat, j: nat)
      requires |key| == 64 && base <= 28 && j < 28
      ensures HalfBit(key, base, j + 28) == Chosen(key, base + j)
    {
      assert (j + 28) % 28 == j;
    }

    method PickRow(i: nat, ghost key: seq<bit>)
      requires Valid() && i < 16 && |key| == 64
      requires Rotated(C, key, 0, Turned(i)) && Rotated(D, key, 28, Turned(i))
      modifies KS
      ensures forall j :: 0 <= j < 48 ==> KS[i, j] == KeyBit(key, i, j)
      ensures forall r, j :: 0 <= r < 16 && r != i && 0 <= j < 48 ==> KS[r, j] == old(KS[r, j])
    {
      hide HalfBit, T.PC2C, T.PC2D, Turned;
      for j := 0 to 24
        invariant forall c :: 0 <= c < j || 24 <= c < 24 + j ==> KS[i, c] == KeyBit(key, i, c)
        invariant forall r, c :: 0 <= r < 16 && r != i && 0 <= c < 48 ==> KS[r, c] == old(KS[r, c])
      {
        KS[i, j] := C[T.PC2C(j) - 1];
        KS[i, j + 24] := D[T.PC2D(j) - 28 - 1];
      }
    }

    // ----- the block

    /** Expand the right half and combine it with the round key. */
    method Mix(i: nat)
      requires Valid() && Loaded() && i < 16
      modifies preS
      ensures preS[..] == Mixed(LR[32..], KeyRow(i))
    {
      hide T.E;
      for j := 0 to 48
        invariant forall c :: 0 <= c < j ==> preS[c] == Xor(LR[32 + T.E(c) - 1], KS[i, c])
      {
        preS[j] := Xor(LR[32 + E[j] - 1], KS[i, j]);
      }
    }

    /** Run the selection functions. */
    method Select()
      requires Valid()
      modifies f
      ensures f[..] == Selected(preS[..])
    {
      hide T.S, BoxIndex, Nibble;
      for j := 0 to 8
        invariant forall c :: 0 <= c < 4 * j ==> f[c] == Nibble(T.S(c / 4, BoxIndex(preS[..], 6 * (c / 4))), c % 4)
      {
        var t := 6 * j;
        var k := T.S(j, BoxIndex(preS[..], t));
        t := 4 * j;
        f[t + 0] := Nibble(k, 0);
        f[t + 1] := Nibble(k, 1);
        f[t + 2] := Nibble(k, 2);
        f[t + 3] := Nibble(k, 3);
        forall c | 4 * j <= c < 4 * j + 4 ensures c / 4 == j && c % 4 == c - 4 * j {
        }
      }
    }

    /** One of the sixteen rounds. */
    method DoRound(i: nat)
      requires Valid() && Loaded() && i < 16
      modifies LR, tempL, f, preS
      ensures LR[..] == Round(old(LR[..]), KeyRow(i))
    {
      hide Mixed, Selected, T.P, KeyRow;
      ghost var x := LR[..];
      for j := 0 to 32
        invariant forall c :: 0 <= c < j ==> tempL[c] == x[32 + c]
        modifies tempL
      {
        tempL[j] := LR[32 + j];
      }
      Mix(i);
      Select();
      ghost var g := f[..];
      assert LR[32..] == x[32..];
      for j := 0 to 32
        invariant forall c :: 0 <= c < 32 ==> LR[c] == x[c]
        invariant forall c :: 0 <= c < j ==> LR[32 + c] == Xor(x[c], g[T.P(c) - 1])
        modifies LR
      {
        LR[32 + j] := Xor(LR[j], f[T.P(j) - 1]);
      }
      for j := 0 to 32
        invariant forall c :: 0 <= c < j ==> LR[c] == x[32 + c]
        invariant forall c :: 0 <= c < 32 ==> LR[32 + c] == Xor(x[c], g[T.P(c) - 1])
        modifies LR
      {
        LR[j] := tempL[j];
      }
      assert LR[..] == Round(x, KeyRow(i));
    }

    /** The key rows in the order of the direction. */
    lemma RowsInOrder(key: seq<bit>, backward: bool, ii: nat)
      requires Valid() && |key| == 64 && Keyed(key) && ii < 16
      ensures KeyRow(if backward then 15 - ii else ii) == KeysFor(key, backward)[ii]
    {
      hide KeyBit;
      var i := if backward then 15 - ii else ii;
      assert KeyRow(i) == Schedule(key)[i];
    }

    /** Encipher the first 64 bits of `block` in place, or decipher them when `backward`. */
    method Encrypt(block: array<bit>, backward: bool, ghost key: seq<bit>)
      requires Valid() && Loaded() && |key| == 64 && Keyed(key)
      requires block.Length >= 64 && block !in {LR, tempL, f, preS}
      modifies block, LR, tempL, f, preS
      ensures block[..64] == Cipher(old(block[..64]), KeysFor(key, backward))
      ensures forall p :: 64 <= p < block.Length ==> block[p] == old(block[p])
    {
      hide T.IP, T.FP, Round, Rounds, KeyBit, KeyRow;
      ghost var b := block[..64];
      ghost var ks := KeysFor(key, backward);
      Load(block);
      RoundsNone(Initial(b));
      for ii := 0 to 16
        invariant LR[..] == Rounds(Initial(b), ks[..ii])
        modifies LR, tempL, f, preS
      {
        var i := if backward then 15 - ii else ii;
        RowsInOrder(key, backward, ii);
        DoRound(i);
        RoundsAppend(Initial(b), ks[..ii], ks[ii]);
        assert ks[..ii + 1] == ks[..ii] + [ks[ii]];
      }
      assert ks[..16] == ks;
      Exchange();
      Unload(block);
    }

    lemma RoundsNone(x: seq<bit>)
      requires |x| == 64
      ensures Rounds(x, []) == x
    {
    }

    method Load(block: array<bit>)
      requires Valid() && block.Length >= 64 && block != LR
      modifies LR
      ensures LR[..] == Initial(block[..64])
    {
      hide T.IP;
      for j := 0 to 64
        invariant forall c :: 0 <= c < j ==> LR[c] == block[T.IP(c) - 1]
      {
        LR[j] := block[T.IP(j) - 1];
      }
    }

    /** The output halves are exchanged. */
    method Exchange()
      requires Valid()
      modifies LR
      ensures LR[..] == Swap(old(LR[..]))
    {
      for j := 0 to 32
        invariant forall c :: 0 <= c < j ==> LR[c] == old(LR[32 + c]) && LR[32 + c] == old(LR[c])
        invariant forall c :: j <= c < 32 ==> LR[c] == old(LR[c])
        invariant forall c :: 32 + j <= c < 64 ==> LR[c] == old(LR[c])
      {
        var t := LR[j];
        LR[j] := LR[32 + j];
        LR[32 + j] := t;
      }
    }

    method Unload(block: array<bit>)
      requires Valid() && block.Length >= 64 && block != LR
      modifies block
      ensures block[..64] == Final(LR[..]) && forall p :: 64 <= p < block.Length ==> block[p] == old(block[p])
    {
      hide T.FP;
      for j := 0 to 64
        invariant forall c :: 0 <= c < j ==> block[c] == LR[T.FP(c) - 1]
        invariant forall p :: 64 <= p < block.Length ==> block[p] == old(block[p])
      {
        block[j] := LR[T.FP(j) - 1];
      }
    }
  }
}
