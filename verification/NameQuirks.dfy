/** Inputs on which the name packer does less than its documentation suggests. */
module NameQuirks {
  import opened Bytes
  import opened Presentation
  import opened Wire
  import opened NameExpand
  import opened NameFind
  import opened NameCompress

  /** `a..` is packed as `a`, but is not found when `a` is listed; `A.` is. */
  lemma UntidyNameIsNotShared()
    ensures
      var m: seq<byte> := [1, 97, 0];
      && GoodList(m, [0], 3)
      && Labels([97, 46, 46], 0) == Some([[97]]) == Decode(m, 0, 0)
      && Find(m, [0], [97, 46, 46], 0) == -1
      && Find(m, [0], [65, 46], 0) == 0
  {
    var m: seq<byte> := [1, 97, 0];
    ADecodes(m);
    assert SegEnd(m, 2) == 3 && SegEnd(m, 0) == 3;
    AName([97, 46, 46]);
    AName([65, 46]);
    assert [0][1..] == [];
    assert Find(m, [], [97, 46, 46], 0) == -1;
    assert GoodLabel([97]);
  }

  lemma ADecodes(m: seq<byte>)
    requires |m| >= 3 && m[0] == 1 && m[1] == 97 && m[2] == 0
    ensures Decode(m, 0, 0) == Some([[97]]) && SegEnd(m, 0) == 3
  {
    var l: Label, none: seq<Label> := [97], [];
    assert Decode(m, 0, 2) == Some(none) && SegEnd(m, 2) == 3;
    assert m[1..2] == l;
    assert [m[1..2]] + none == [l];
  }

  lemma AName(s: seq<byte>)
    requires s == [97, 46, 46] || s == [97, 46] || s == [65, 46]
    ensures ScanLabel(s, 0) == Scan([s[0]], 2, false)
    ensures Labels(s, 0) == Some([[s[0]]])
    ensures MatchAt(s, 0, [[97]]) <==> |s| == 2
  {
    assert ScanLabel(s, 1) == Scan([], 2, false);
    if |s| == 3 {
      assert ScanLabel(s, 2) == Scan([], 3, false);
    }
    var none: seq<Label> := [];
    assert Labels(s, 2) == Some(none);
    assert [[s[0]]] + none == [[s[0]]];
    var l: Label := [97];
    assert l[1..] == [];
    assert MatchLabel(s, 0, l) == Some(1);
    assert [l][1..] == [];
  }

  /**
    * Packing `b.a` in three bytes when `a` is listed fails on the pointer, and leaves the list
    * with an entry for `b.a`, which is not in the message.
    */
  lemma ShortBufferKeepsEntry()
    ensures
      var m: seq<byte> := [1, 97, 0, 9, 9, 9];
      var s: seq<byte> := [98, 46, 97];
      && GoodList(m, [0], 3)
      && KeepsEntries(m, [0], s, 3)
      && [0] + Take(Saved(m, [0], s, 0, 3), Room([0], 20)) == [0, 3]
      && !GoodEntry(m, 3, |m|)
  {
    var m: seq<byte> := [1, 97, 0, 9, 9, 9];
    var s: seq<byte> := [98, 46, 97];
    ADecodes(m);
    assert SegEnd(m, 2) == 3 && SegEnd(m, 0) == 3;
    assert GoodLabel([97]);
    assert ScanLabel(s, 1) == Scan([], 2, false);
    assert ScanLabel(s, 0) == Scan([98], 2, false);
    var l: Label := [97];
    assert l[1..] == [] && [l][1..] == [];
    assert MatchLabel(s, 0, l) == None;
    assert MatchLabel(s, 3, []) == Some(3);
    assert MatchLabel(s, 2, l) == Some(3);
    assert MatchAt(s, 2, [l]) && !MatchAt(s, 0, [l]);
    assert [0][1..] == [];
    assert Find(m, [], s, 0) == -1 && Find(m, [0], s, 0) == -1 && Find(m, [0], s, 2) == 0;
    assert Emit(m, [0], s, 2) == Some(PointerBytes(0));
    assert |Emit(m, [0], s, 0).value| == 4;
    assert EndsInPointer(m, [0], s, 2) && EndsInPointer(m, [0], s, 0);
    assert Saved(m, [0], s, 2, 5) == [];
    assert Saved(m, [0], s, 0, 3) == [3];
    assert SegEnd(m, 3) == -1;
  }

  /**
    * With `a` listed at 0x4000, packing `a` stores a pointer that leads to the start of the message:
    * with a root byte there, the name packed expands without complaint, to no labels at all.
    */
  lemma FarPlaceWraps(m: seq<byte>)
    requires |m| >= 0x4003 && m[0] == 0 && m[0x4000..0x4003] == [1, 97, 0]
    ensures
      var s: seq<byte> := [97];
      var m' := m + [192, 0];
      && GoodList(m, [0x4000], 0x4003) && Labels(s, 0) == Some([[97]])
      && Matched(m, [0x4000], s, 0) == 0x4000 && Emit(m, [0x4000], s, 0) == Some([192, 0])
      && ExpandResult(m', |m'|, |m|, 10) == 2 && Walk(m', |m'|, |m|, 0) == Some([])
  {
    var s: seq<byte> := [97];
    var none: seq<Label> := [];
    FarDecodes(m);
    assert ScanLabel(s, 1) == Scan([], 1, false);
    assert ScanLabel(s, 0) == Scan([97], 1, false);
    assert [[97 as byte]] + none == [[97]];
    assert [97 as byte][1..] == [] && [[97 as byte]][1..] == none;
    assert MatchLabel(s, 0, [97]) == Some(1);
    assert MatchAt(s, 0, [[97]]);
    assert Find(m, [0x4000], s, 0) == 0x4000;
    var m' := m + [192, 0];
    assert m'[|m|] == 192 && m'[|m| + 1] == 0 && m'[0] == 0;
    assert Walk(m', |m'|, 0, 2) == Some(none);
    ShowNothing();
  }

  lemma FarDecodes(m: seq<byte>)
    requires |m| >= 0x4003 && m[0x4000..0x4003] == [1, 97, 0]
    ensures Decode(m, 0x4000, 0x4000) == Some([[97]]) && GoodEntry(m, 0x4000, 0x4003)
  {
    var far, none: seq<Label> := m[0x4000..0x4003], [];
    assert far[0] == m[0x4000] && far[1] == m[0x4001] && far[2] == m[0x4002];
    assert Decode(m, 0x4000, 0x4002) == Some(none) && SegEnd(m, 0x4002) == 0x4003;
    assert m[0x4001..0x4002] == [97] && [m[0x4001..0x4002]] + none == [[97]];
    assert GoodLabel([97]);
  }

  /** A pointer cut in two by the end of the message: the name expands, but is not skipped. */
  lemma CutPointerIsNotSkipped()
    ensures
      var m: seq<byte> := [1, 97, 0, 192, 0];
      && Walk(m, 4, 3, 0) == Some([[97]]) && ExpandResult(m, 4, 3, 10) == 2
      && SkipResult(m, 4, 3) == -1
  {
    var m: seq<byte> := [1, 97, 0, 192, 0];
    var none: seq<Label> := [];
    assert Walk(m, 4, 2, 4) == Some(none);
    assert m[1..2] == [97] && [m[1..2]] + none == [[97]];
    assert Walk(m, 4, 0, 2) == Some([[97]]);
    assert EscapeLabel([97]) == [97] by {
      assert [97 as byte][1..] == [];
    }
    assert [[97 as byte]][1..] == none && Tail(false, none) == [];
    assert Show([[97]]) == [97];
    UpToNulWhole([97], 1);
    assert [97 as byte][..1] == [97];
    SkipAgreesWithExpand(m, 4, 3, 0);
  }

  /**
    * Nothing keeps a name inside the message: past its end, the root expands by one byte and a
    * pointer into the message by two, while a label is turned down only once a byte of it was read.
    */
  lemma NamesPastTheEnd(m: seq<byte>, end: nat, p: nat, room: nat)
    requires Openable(m, end, p) && end <= p && room > 0
    ensures m[p] == 0 ==> ExpandResult(m, end, p, room) == 1
    ensures 0 < m[p] < INDIR ==> ExpandResult(m, end, p, room) == -1
    ensures m[p] >= INDIR ==> ExpandResult(m, end, p, room) == -1 || ExpandResult(m, end, p, room) == 2
  {
    ShowNothing();
    assert !HasSpace([]);
  }
}
