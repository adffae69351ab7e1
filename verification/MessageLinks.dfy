/** Where the pointers of a message lead: to labels of names packed earlier in its run. */
module MessageLinks {
  import opened Bytes
  import opened Presentation
  import opened Wire
  import opened NameFind
  import opened NameCompress
  import opened MessageRuns

  /** At t stands a label, or the root byte, of the name at p; its pointer is not followed. */
  predicate OnName(m: seq<byte>, p: nat, t: int)
    decreases |m| - p
  {
    p < |m| && m[p] < 64 && (p == t || (m[p] > 0 && OnName(m, p + 1 + m[p], t)))
  }

  /** At t stands a label, or the root byte, of one of the names. */
  ghost predicate OnSome(m: seq<byte>, names: seq<Name>, t: int) {
    exists i :: 0 <= i < |names| && OnName(m, names[i].at, t)
  }

  /** Name k ends at its root, or in a pointer to a label of an earlier name. */
  ghost predicate AimsBack(m: seq<byte>, names: seq<Name>, k: nat)
    requires k < |names|
  {
    var j := Mark(m, names[k].at);
    j < |m| && (m[j] == 0 || (j + 1 < |m| && m[j] >= INDIR && OnSome(m, names[..k], Target(m[j], m[j + 1]))))
  }

  /** All that is listed is on names of the message, and all their pointers lead to earlier names. */
  ghost predicate Linked(x: Message) {
    && (forall k :: 0 <= k < |Known(x.a)| ==> OnSome(x.m, x.names, Known(x.a)[k]))
    && (forall k :: 0 <= k < |x.names| ==> AimsBack(x.m, x.names, k))
  }

  // ----- what stays

  lemma {:induction false} OnNameStays(m: seq<byte>, m': seq<byte>, floor: nat, p: nat, t: int, e: nat)
    requires floor <= p && e <= |m| && e <= |m'| && m[..e] == m'[..e]
    requires Decode(m, floor, p).Some? && SegEnd(m, p) <= e && OnName(m, p, t)
    ensures OnName(m', p, t)
    decreases |m| - p
  {
    DecodeEnds(m, floor, p);
    assert m[..e][p] == m'[..e][p];
    if p != t {
      OnNameStays(m, m', floor, p + 1 + m[p], t, e);
    }
  }

  lemma {:induction false} MarkStays(m: seq<byte>, m': seq<byte>, floor: nat, p: nat, e: nat)
    requires floor <= p && e <= |m| && e <= |m'| && m[..e] == m'[..e]
    requires Decode(m, floor, p).Some? && SegEnd(m, p) <= e
    ensures
      var j := Mark(m, p);
      && Mark(m', p) == j < e && m'[j] == m[j]
      && (m[j] != 0 ==> j + 1 < e && m'[j + 1] == m[j + 1])
    decreases |m| - p
  {
    DecodeEnds(m, floor, p);
    assert m[..e][p] == m'[..e][p];
    if 0 < m[p] < 64 {
      MarkStays(m, m', floor, p + 1 + m[p], e);
    } else if m[p] != 0 {
      assert m[..e][p + 1] == m'[..e][p + 1];
    }
  }

  ghost predicate AllHold(m: seq<byte>, names: seq<Name>, top: nat) {
    forall k :: 0 <= k < |names| ==> Holds(m, names[k], top)
  }

  lemma OnSomeStays(m: seq<byte>, m': seq<byte>, names: seq<Name>, names': seq<Name>, t: int, top: nat)
    requires AllHold(m, names, top) && top <= |m| && top <= |m'| && m[..top] == m'[..top]
    requires names <= names' && OnSome(m, names, t)
    ensures OnSome(m', names', t)
  {
    hide OnName;
    var i :| 0 <= i < |names| && OnName(m, names[i].at, t);
    assert Holds(m, names[i], top);
    OnNameStays(m, m', names[i].at, names[i].at, t, top);
    assert names'[i] == names[i];
  }

  lemma AimsBackStays(m: seq<byte>, m': seq<byte>, names: seq<Name>, names': seq<Name>, k: nat, top: nat)
    requires AllHold(m, names, top) && top <= |m| && top <= |m'| && m[..top] == m'[..top]
    requires names <= names' && k < |names| && AimsBack(m, names, k)
    ensures AimsBack(m', names', k)
  {
    hide OnSome, Mark;
    assert Holds(m, names[k], top);
    MarkStays(m, m', names[k].at, names[k].at, top);
    var j := Mark(m, names[k].at);
    assert names'[..k] == names[..k];
    if m[j] != 0 {
      OnSomeStays(m, m', names[..k], names[..k], Target(m[j], m[j + 1]), top);
    }
  }

  /** Whatever happens past the top leaves the names and the places listed before linked. */
  lemma LinksStay(x: Message, y: Message)
    requires Sound(x) && Linked(x) && x.top <= |y.m| && x.m[..x.top] == y.m[..x.top] && x.names <= y.names
    ensures forall k :: 0 <= k < |Known(x.a)| ==> OnSome(y.m, y.names, Known(x.a)[k])
    ensures forall k :: 0 <= k < |x.names| ==> AimsBack(y.m, y.names, k)
  {
    hide OnSome, AimsBack, Holds, Known, GoodEntry;
    assert AllHold(x.m, x.names, x.top);
    forall k | 0 <= k < |Known(x.a)|
      ensures OnSome(y.m, y.names, Known(x.a)[k])
    {
      OnSomeStays(x.m, y.m, x.names, y.names, Known(x.a)[k], x.top);
    }
    forall k | 0 <= k < |x.names|
      ensures AimsBack(y.m, y.names, k)
    {
      AimsBackStays(x.m, y.m, x.names, y.names, k, x.top);
    }
  }

  // ----- a new name

  /** Every place recorded is on the name stored. */
  lemma {:induction false} SavedOnName(m: seq<byte>, m': seq<byte>, list: seq<int>, s: seq<byte>, i: nat, p: nat)
    requires i <= |s| && Emit(m, list, s, i).Some? && StoredAt(m', p, Emit(m, list, s, i).value)
    ensures forall k :: 0 <= k < |Saved(m, list, s, i, p)| ==> OnName(m', p, Saved(m, list, s, i, p)[k])
    decreases |s| - i
  {
    hide StoredAt;
    if i < |s| && Find(m, list, s, i) < 0 {
      var scan := ScanLabel(s, i);
      if scan.bytes == [] {
        StoredByte(m', p, 0);
      } else {
        LabelStored(m', p, scan.bytes, Emit(m, list, s, scan.next).value);
        SavedOnName(m, m', list, s, scan.next, p + 1 + |scan.bytes|);
      }
    }
  }

  /** At j stands the byte that ends a name, or the pointer, which is aimed at q unless q < 0. */
  ghost predicate Closes(m: seq<byte>, j: nat, q: int) {
    if q < 0 then j < |m| && m[j] == 0
    else j + 1 < |m| && m[j] == PointerBytes(q)[0] && m[j + 1] == PointerBytes(q)[1]
  }

  lemma RootCloses(m: seq<byte>, p: nat)
    requires StoredAt(m, p, [0])
    ensures Mark(m, p) == p && Closes(m, p, -1)
  {
    StoredByte(m, p, 0);
  }

  lemma PointerCloses(m: seq<byte>, p: nat, q: nat)
    requires StoredAt(m, p, PointerBytes(q))
    ensures Mark(m, p) == p && Closes(m, p, q)
  {
    var e := PointerBytes(q);
    assert m[p..p + 2][0] == m[p] && m[p..p + 2][1] == m[p + 1];
  }

  lemma LabelMark(m: seq<byte>, p: nat, l: Label, rest: seq<byte>)
    requires 1 <= |l| <= MAX_LABEL && StoredAt(m, p, [|l|] + l + rest)
    ensures Mark(m, p) == Mark(m, p + 1 + |l|) && StoredAt(m, p + 1 + |l|, rest)
  {
    LabelStored(m, p, l, rest);
  }

  /** The labels stored close with the root byte, or with the pointer to the place matched. */
  lemma {:induction false} MarkOfStored(m: seq<byte>, m': seq<byte>, list: seq<int>, s: seq<byte>, i: nat, p: nat)
    requires i <= |s| && Emit(m, list, s, i).Some? && StoredAt(m', p, Emit(m, list, s, i).value)
    ensures Closes(m', Mark(m', p), Matched(m, list, s, i))
    decreases |s| - i
  {
    hide StoredAt, Mark, Closes, Find, ScanLabel;
    if i == |s| {
      RootCloses(m', p);
    } else if Find(m, list, s, i) >= 0 {
      PointerCloses(m', p, Find(m, list, s, i));
    } else if ScanLabel(s, i).bytes == [] {
      RootCloses(m', p);
    } else {
      var scan := ScanLabel(s, i);
      LabelMark(m', p, scan.bytes, Emit(m, list, s, scan.next).value);
      MarkOfStored(m, m', list, s, scan.next, p + 1 + |scan.bytes|);
    }
  }

  lemma NewNameAimsBack(x: Message, y: Message, text: seq<byte>, at: nat, length: int, last: int, size: nat)
    requires Sound(x) && Linked(x) && PacksName(x, y, text, at, length, last)
    requires Packed(x.m, x.a, text, at, length, last, y.m, y.a, size)
    requires y.names == x.names + [Name(text, at, size)]
    ensures AimsBack(y.m, y.names, |x.names|)
  {
    hide OnSome, Emit, StoredAt, Saved, Known, Mark, Holds, GoodEntry;
    var list := Known(x.a);
    MarkOfStored(x.m, y.m, list, text, 0, at);
    var q := Matched(x.m, list, text, 0);
    assert y.names[|x.names|].at == at && y.names[..|x.names|] == x.names;
    if q >= 0 {
      PointerLeadsBack(q);
      var k :| 0 <= k < |list| && list[k] == q;
      PrefixKept(x.m, y.m, at, at + size);
      assert x.m[..x.top] == x.m[..at][..x.top] == y.m[..at][..x.top] == y.m[..x.top];
      assert AllHold(x.m, x.names, x.top);
      OnSomeStays(x.m, y.m, x.names, x.names, q, x.top);
    }
  }

  lemma NewPlacesOnNames(x: Message, y: Message, text: seq<byte>, at: nat, length: int, last: int, size: nat)
    requires PacksName(x, y, text, at, length, last)
    requires Packed(x.m, x.a, text, at, length, last, y.m, y.a, size) && x.a != []
    requires y.names == x.names + [Name(text, at, size)]
    requires forall k :: 0 <= k < |Known(x.a)| ==> OnSome(y.m, y.names, Known(x.a)[k])
    ensures forall k :: 0 <= k < |Known(y.a)| ==> OnSome(y.m, y.names, Known(y.a)[k])
  {
    hide Emit, StoredAt, Saved, Known, Room, OnName;
    if x.a[0] != NULL {
      var list, saved := Known(x.a), Saved(x.m, Known(x.a), text, 0, at);
      SavedOnName(x.m, y.m, list, text, 0, at);
      TakesFrom(saved, Room(list, last));
      forall k | 0 <= k < |Known(y.a)|
        ensures OnSome(y.m, y.names, Known(y.a)[k])
      {
        if k >= |list| {
          assert Known(y.a)[k] == saved[k - |list|];
          assert OnName(y.m, y.names[|x.names|].at, saved[k - |list|]);
        }
      }
    }
  }

  lemma NameKeepsLinked(x: Message, y: Message, text: seq<byte>, at: nat, length: int, last: int)
    requires Sound(x) && Linked(x) && PacksName(x, y, text, at, length, last)
    ensures Linked(y)
  {
    hide OnSome, AimsBack, Known, Packed, Holds, GoodEntry, Leads;
    var size: nat :| Packed(x.m, x.a, text, at, length, last, y.m, y.a, size)
                     && y.names == x.names + [Name(text, at, size)] && y.top == at + size;
    NewNameHolds(x.m, x.a, x.top, text, at, length, last, y.m, y.a, size);
    assert x.m[..x.top] == x.m[..at][..x.top] == y.m[..at][..x.top] == y.m[..x.top];
    LinksStay(x, y);
    NewPlacesOnNames(x, y, text, at, length, last, size);
    NewNameAimsBack(x, y, text, at, length, last, size);
  }

  lemma {:induction false} RunIsLinked(xs: seq<Message>, k: nat)
    requires Run(xs) && k < |xs|
    ensures Sound(xs[k]) && Linked(xs[k])
  {
    hide Sound, Linked, OnSome, AimsBack, Known, Packed, Holds;
    RunIsSound(xs, k);
    if k == 0 {
      FreshIsLinked(xs[0]);
    } else {
      RunIsLinked(xs, k - 1);
      assert Step(xs[k - 1], xs[k - 1 + 1]);
      StepKeepsLinked(xs[k - 1], xs[k]);
    }
  }

  lemma FreshIsLinked(x: Message)
    requires Fresh(x)
    ensures Linked(x)
  {
  }

  lemma StepKeepsLinked(x: Message, y: Message)
    requires Sound(x) && Linked(x) && Step(x, y)
    ensures Linked(y)
  {
    hide OnSome, AimsBack, Known, Packed, Holds, Leads, LeavesStale, GoodEntry;
    if text, at, length, last :| FailsName(x, y, text, at, length, last) && !LeavesStale(x, text, at, length, last) {
      FailureChangesList(x, y, text, at, length, last);
      FailureKeepsPrefix(x, y, text, at, length, last);
      LinksStay(x, y);
    } else if exists at, n :: WritesData(x, y, at, n) {
      var at, n :| WritesData(x, y, at, n);
      assert x.m[..x.top] == y.m[..x.top];
      LinksStay(x, y);
    } else {
      var text, at, length, last :| PacksName(x, y, text, at, length, last);
      NameKeepsLinked(x, y, text, at, length, last);
    }
  }

  lemma FailureKeepsPrefix(x: Message, y: Message, text: seq<byte>, at: nat, length: int, last: int)
    requires Sound(x) && FailsName(x, y, text, at, length, last)
    ensures x.top <= |y.m| && x.m[..x.top] == y.m[..x.top]
  {
    hide Emit, Saved, Known, Holds;
  }

  /**
    * Every pointer stored in a run leads to a label of a name that was packed, and complete, before
    * the name holding the pointer was begun, so following pointers always comes to an end.
    */
  lemma PointersLeadBack(xs: seq<Message>, k: nat)
    requires Run(xs) && k < |xs[|xs| - 1].names|
    ensures
      var x := xs[|xs| - 1];
      var name := x.names[k];
      var j := Mark(x.m, name.at);
      && name.at <= j < name.at + name.size <= |x.m|
      && (x.m[j] == 0 <==> j + 1 == name.at + name.size)
      && (x.m[j] != 0 ==>
            && j + 2 == name.at + name.size && x.m[j] >= INDIR
            && var t := Target(x.m[j], x.m[j + 1]);
            && t < SegEnd(x.m, t) <= name.at && 0 < x.m[t] < 64 && Decode(x.m, t, t).Some?
            && exists i :: 0 <= i < k && OnName(x.m, x.names[i].at, t))
  {
    hide Step, Fresh, Decode;
    var x := xs[|xs| - 1];
    RunIsLinked(xs, |xs| - 1);
    assert Holds(x.m, x.names[k], x.top) && AimsBack(x.m, x.names, k);
    MarkClosesName(x.m, x.names[k].at, x.names[k].at);
    var j := Mark(x.m, x.names[k].at);
    if x.m[j] != 0 {
      var t := Target(x.m[j], x.m[j + 1]);
      var i :| 0 <= i < k && OnName(x.m, x.names[..k][i].at, t);
      assert x.names[..k][i] == x.names[i];
    }
  }
}
