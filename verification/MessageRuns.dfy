/**
  * Messages built by any sequence of dn_comp() calls sharing one list of names, with other data
  * written in between: every name in them reads back.  Calls may fail, but for the one failure that
  * leaves the list with places that hold no name.
  */
module MessageRuns {
  import opened Bytes
  import opened Presentation
  import opened Wire
  import opened NameExpand
  import opened NameFind
  import opened NameCompress

  /** A name packed at `at` in `size` bytes. */
  datatype Name = Name(text: seq<byte>, at: nat, size: nat)

  /** A message being built: its bytes, the pointer list array, the names so far, and where data ends. */
  datatype Message = Message(m: seq<byte>, a: seq<int>, names: seq<Name>, top: nat)

  ghost predicate Fresh(x: Message) {
    x.names == [] && x.top <= |x.m| && x.a != [] && (x.a[0] == NULL || Terminated(x.a)) && Known(x.a) == []
  }

  /**
    * A successful call of dn_comp() past the data already there, whose pointer, if it stores one, is
    * aimed below 0x4000; that is so for every call while the message is no longer (AllLead).
    */
  ghost predicate PacksName(x: Message, y: Message, text: seq<byte>, at: nat, length: int, last: int) {
    && NoNul(text) && x.top <= at && at + length <= |x.m| && 0 <= length
    && (last == NULL || 0 <= last <= |x.a|)
    && Leads(x.m, Known(x.a), text, 0)
    && exists size: nat ::
         && Packed(x.m, x.a, text, at, length, last, y.m, y.a, size)
         && y.names == x.names + [Name(text, at, size)] && y.top == at + size
  }

  /** Any other bytes written past the data already there. */
  ghost predicate WritesData(x: Message, y: Message, at: nat, n: nat) {
    && x.top <= at && at + n <= |x.m| && OnlyWithin(x.m, y.m, at, at + n)
    && y.a == x.a && y.names == x.names && y.top == at + n
  }

  /** A failing call of dn_comp() past the data already there. */
  ghost predicate FailsName(x: Message, y: Message, text: seq<byte>, at: nat, length: int, last: int) {
    && NoNul(text) && x.top <= at && at + length <= |x.m|
    && (last == NULL || 0 <= last <= |x.a|)
    && Packed(x.m, x.a, text, at, length, last, y.m, y.a, -1)
    && y.names == x.names && y.top == x.top
  }

  /**
    * The call would find a listed suffix and room for all but its pointer, and has places recorded
    * by then: such a failure leaves them listed.
    */
  ghost predicate LeavesStale(x: Message, text: seq<byte>, at: nat, length: int, last: int) {
    && x.a != [] && x.a[0] != NULL
    && KeepsEntries(x.m, Known(x.a), text, length)
    && Saved(x.m, Known(x.a), text, 0, at) != [] && Room(Known(x.a), last) > 0
  }

  ghost predicate Step(x: Message, y: Message) {
    || (exists text, at, length, last :: FailsName(x, y, text, at, length, last) && !LeavesStale(x, text, at, length, last))
    || (exists text, at, length, last :: PacksName(x, y, text, at, length, last))
    || (exists at, n :: WritesData(x, y, at, n))
  }

  ghost predicate Run(xs: seq<Message>) {
    xs != [] && Fresh(xs[0]) && forall k :: 0 <= k < |xs| - 1 ==> Step(xs[k], xs[k + 1])
  }

  /** The name is complete below `top` and spells its text up to case. */
  ghost predicate Holds(m: seq<byte>, name: Name, top: nat) {
    && name.at + name.size <= top
    && Decode(m, name.at, name.at).Some? && SegEnd(m, name.at) == name.at + name.size
    && NoNul(name.text) && Labels(name.text, 0).Some?
    && SameLabels(Decode(m, name.at, name.at).value, Labels(name.text, 0).value)
  }

  ghost predicate Below(list: seq<int>, top: nat) {
    forall k :: 0 <= k < |list| ==> list[k] < top
  }

  ghost predicate Sound(x: Message) {
    && x.top <= |x.m| && x.a != [] && (x.a[0] == NULL || Terminated(x.a))
    && GoodList(x.m, Known(x.a), x.top) && Below(Known(x.a), x.top)
    && forall k :: 0 <= k < |x.names| ==> Holds(x.m, x.names[k], x.top)
  }

  lemma HoldsStays(m: seq<byte>, m': seq<byte>, name: Name, top: nat, top': nat)
    requires Holds(m, name, top) && top <= top' && top <= |m| && top <= |m'| && m[..top] == m'[..top]
    ensures Holds(m', name, top')
  {
    DecodeFrame(m, m', name.at, name.at, top);
  }

  lemma DataKeepsSound(x: Message, y: Message, at: nat, n: nat)
    requires Sound(x) && WritesData(x, y, at, n)
    ensures Sound(y)
  {
    assert x.m[..x.top] == y.m[..x.top];
    ListStays(x.m, y.m, Known(x.a), x.top, y.top);
    forall k | 0 <= k < |y.names| ensures Holds(y.m, y.names[k], y.top) {
      HoldsStays(x.m, y.m, x.names[k], x.top, y.top);
    }
  }

  lemma TakesFrom(s: seq<int>, n: nat)
    ensures forall k :: 0 <= k < |Take(s, n)| ==> k < |s| && Take(s, n)[k] == s[k]
  {
  }

  lemma GoodListTake(m: seq<byte>, list: seq<int>, saved: seq<int>, n: nat, top: nat)
    requires GoodList(m, list, top) && GoodList(m, saved, top) && Below(list, top) && Below(saved, top)
    ensures GoodList(m, list + Take(saved, n), top) && Below(list + Take(saved, n), top)
  {
    hide GoodEntry;
    TakesFrom(saved, n);
    var all := list + Take(saved, n);
    forall k | 0 <= k < |all| ensures GoodEntry(m, all[k], top) && all[k] < top {
      if k >= |list| {
        assert all[k] == saved[k - |list|];
      }
    }
  }

  /** In a message of at most 0x4000 bytes, however large its buffer, every pointer is aimed well. */
  lemma AllLead(x: Message, text: seq<byte>)
    requires Sound(x) && x.top <= 0x4000
    ensures Leads(x.m, Known(x.a), text, 0)
  {
    LeadsBelow(x.m, Known(x.a), text, 0);
  }

  /**
    * A successful call of dn_comp() on a good list leaves its name readable and the list good, if it
    * shares nothing or the place it shares is below 0x4000.
    */
  lemma NewNameHolds(m: seq<byte>, a: seq<int>, top: nat, text: seq<byte>, at: nat, length: int, last: int,
                     m': seq<byte>, a': seq<int>, size: nat)
    requires top <= at <= |m| && NoNul(text) && Leads(m, Known(a), text, 0)
    requires GoodList(m, Known(a), top) && Below(Known(a), top) && a != []
    requires Packed(m, a, text, at, length, last, m', a', size)
    ensures at + size <= |m'| == |m| && m'[..at] == m[..at]
    ensures Holds(m', Name(text, at, size), at + size)
    ensures GoodList(m', Known(a'), at + size) && Below(Known(a'), at + size)
  {
    hide GoodList, Emit, Saved, StoredAt, Labels, KeepsEntries, Take, Room;
    var list := Known(a);
    PrefixKept(m, m', at, at + size);
    StoredFits(m', at, Emit(m, list, text, 0).value);
    ListStays(m, m, list, top, at);
    assert Sharable(m, m', list, at);
    EmittedDecodes(m, m', list, at, text, 0, at);
    SavedAreGood(m, m', list, at, text, 0, at);
    ListStays(m, m', list, at, at + size);
    if a[0] != NULL {
      GoodListTake(m', list, Saved(m, list, text, 0, at), Room(list, last), at + size);
    }
  }

  lemma StoredFits(m: seq<byte>, p: nat, e: seq<byte>)
    requires StoredAt(m, p, e)
    ensures p + |e| <= |m|
  {
  }

  lemma NameKeepsSound(x: Message, y: Message, text: seq<byte>, at: nat, length: int, last: int)
    requires Sound(x) && PacksName(x, y, text, at, length, last)
    ensures Sound(y)
  {
    var size: nat :| Packed(x.m, x.a, text, at, length, last, y.m, y.a, size)
                     && y.names == x.names + [Name(text, at, size)] && y.top == at + size;
    NewNameHolds(x.m, x.a, x.top, text, at, length, last, y.m, y.a, size);
    assert x.m[..x.top] == x.m[..at][..x.top] == y.m[..at][..x.top] == y.m[..x.top];
    forall k | 0 <= k < |y.names| ensures Holds(y.m, y.names[k], y.top) {
      if k < |x.names| {
        HoldsStays(x.m, y.m, x.names[k], x.top, y.top);
      }
    }
  }

  lemma {:induction false} SavedFrom(m: seq<byte>, list: seq<int>, s: seq<byte>, i: nat, at: nat)
    requires i <= |s|
    ensures forall k :: 0 <= k < |Saved(m, list, s, i, at)| ==> Saved(m, list, s, i, at)[k] >= at
    decreases |s| - i
  {
    var scan := ScanLabel(s, i);
    if i < |s| && Find(m, list, s, i) < 0 && scan.bytes != [] && |scan.bytes| <= MAX_LABEL {
      SavedFrom(m, list, s, scan.next, at + 1 + |scan.bytes|);
    }
  }

  /** A failing call changes what is listed exactly when it leaves stale places. */
  lemma FailureChangesList(x: Message, y: Message, text: seq<byte>, at: nat, length: int, last: int)
    requires x.a != [] && FailsName(x, y, text, at, length, last)
    ensures Known(y.a) != Known(x.a) <==> LeavesStale(x, text, at, length, last)
    ensures LeavesStale(x, text, at, length, last) ==>
              Known(y.a) == Known(x.a) + Take(Saved(x.m, Known(x.a), text, 0, at), Room(Known(x.a), last))
  {
    hide Emit, Saved, KeepsEntries, Room, Known;
    var list := Known(x.a);
    assert list + [] == list;
    if x.a[0] != NULL {
      TakesNothing(Saved(x.m, list, text, 0, at), Room(list, last));
      if KeepsEntries(x.m, list, text, length) {
        assert |Known(y.a)| == |list| + |Take(Saved(x.m, list, text, 0, at), Room(list, last))|;
      }
    } else {
      NothingListed(x.a);
    }
  }

  lemma NothingListed(a: seq<int>)
    requires a != [] && a[0] == NULL
    ensures Known(a) == []
  {
  }

  lemma TakesNothing(s: seq<int>, n: nat)
    ensures Take(s, n) == [] <==> s == [] || n == 0
  {
  }

  /**
    * A failing call leaves the message as usable as it was, with all names readable and all listed
    * places good, if and only if it leaves no stale places.
    */
  lemma FailureKeepsSound(x: Message, y: Message, text: seq<byte>, at: nat, length: int, last: int)
    requires Sound(x) && FailsName(x, y, text, at, length, last)
    ensures Sound(y) <==> !LeavesStale(x, text, at, length, last)
  {
    hide Emit, Saved, KeepsEntries, Room, Known, LeavesStale, GoodEntry;
    FailureChangesList(x, y, text, at, length, last);
    if LeavesStale(x, text, at, length, last) {
      StaleIsAbove(x, y, text, at, length, last);
    } else {
      assert x.m[..x.top] == y.m[..x.top];
      ListStays(x.m, y.m, Known(x.a), x.top, x.top);
      forall k | 0 <= k < |y.names| ensures Holds(y.m, y.names[k], y.top) {
        HoldsStays(x.m, y.m, x.names[k], x.top, y.top);
      }
    }
  }

  lemma StaleIsAbove(x: Message, y: Message, text: seq<byte>, at: nat, length: int, last: int)
    requires FailsName(x, y, text, at, length, last) && LeavesStale(x, text, at, length, last)
    ensures !Below(Known(y.a), x.top)
  {
    hide Emit, Saved, KeepsEntries, Room, Known;
    FailureChangesList(x, y, text, at, length, last);
    var list, saved, room := Known(x.a), Saved(x.m, Known(x.a), text, 0, at), Room(Known(x.a), last);
    SavedFrom(x.m, list, text, 0, at);
    TakesNothing(saved, room);
    TakesFrom(saved, room);
    assert Known(y.a)[|list|] == Take(saved, room)[0] == saved[0] >= x.top;
  }

  lemma {:induction false} RunIsSound(xs: seq<Message>, k: nat)
    requires Run(xs) && k < |xs|
    ensures Sound(xs[k])
  {
    if k > 0 {
      RunIsSound(xs, k - 1);
      var x, y := xs[k - 1], xs[k];
      assert Step(x, xs[k - 1 + 1]);
      if text, at, length, last :| FailsName(x, y, text, at, length, last) && !LeavesStale(x, text, at, length, last) {
        FailureKeepsSound(x, y, text, at, length, last);
      } else if exists at, n :: WritesData(x, y, at, n) {
        var at, n :| WritesData(x, y, at, n);
        DataKeepsSound(x, y, at, n);
      } else {
        var text, at, length, last :| PacksName(x, y, text, at, length, last);
        NameKeepsSound(x, y, text, at, length, last);
      }
    }
  }

  /** Folding case neither adds nor removes white space. */
  lemma SameTextSameSpace(a: seq<byte>, b: seq<byte>)
    requires SameText(a, b)
    ensures HasSpace(a) <==> HasSpace(b)
  {
    forall i | 0 <= i < |a| ensures IsSpace(a[i]) <==> IsSpace(b[i]) {
      assert Lower(a[i]) == Lower(b[i]);
    }
    if HasSpace(a) {
      var i :| 0 <= i < |a| && IsSpace(a[i]);
      assert IsSpace(b[i]);
    }
    if HasSpace(b) {
      var i :| 0 <= i < |b| && IsSpace(b[i]);
      assert IsSpace(a[i]);
    }
  }

  /** A name that holds expands to the text of its labels, and both readers return its size. */
  lemma HeldNameExpands(m: seq<byte>, name: Name, top: nat, end: nat, room: nat)
    requires Holds(m, name, top) && top <= end <= |m|
    ensures Openable(m, end, name.at)
    ensures
      var want := Show(Labels(name.text, 0).value);
      && ExpandResult(m, end, name.at, room) == (if |want| < room && !HasSpace(want) then name.size else -1)
      && Walk(m, end, name.at, 0).Some?
      && SameText(Show(Walk(m, end, name.at, 0).value), want)
      && SkipResult(m, end, name.at) == name.size
      && Labels(Show(Walk(m, end, name.at, 0).value), 0).Some?
      && SameLabels(Labels(Show(Walk(m, end, name.at, 0).value), 0).value, Labels(name.text, 0).value)
  {
    var ls, want := Decode(m, name.at, name.at).value, Labels(name.text, 0).value;
    DecodeEnds(m, name.at, name.at);
    assert m[..end][..end] == m[..end];
    DecodeFrame(m, m[..end], name.at, name.at, end);
    HonestNameExpands(m, end, name.at, room);
    LabelsAreGood(name.text, 0);
    SameLabelsGood(ls, want);
    ShowNoNul(true, ls);
    UpToNulWhole(Show(ls), |Show(ls)|);
    assert Show(ls)[..|Show(ls)|] == Show(ls);
    TailSame(true, ls, want);
    SameTextSameSpace(Show(ls), Show(want));
    ShowReadsBack(ls);
    SkipAgreesWithExpand(m, end, name.at, 0);
  }

  /**
    * The compression round trip.  After any run, in a buffer of any size, dn_expand() at the start of
    * each name packed returns the size dn_comp() returned and the same labels up to case, unless the
    * text would not fit or a label shows white space; __dn_skipname() agrees.
    */
  lemma RoundTrip(xs: seq<Message>, k: nat, end: nat, room: nat)
    requires Run(xs)
    requires
      var x := xs[|xs| - 1];
      k < |x.names| && x.top <= end <= |x.m|
    ensures
      var x := xs[|xs| - 1];
      var name := x.names[k];
      && 1 <= name.size && name.at + name.size <= x.top && NoNul(name.text) && Labels(name.text, 0).Some?
      && Openable(x.m, end, name.at)
      && var want := Show(Labels(name.text, 0).value);
      && ExpandResult(x.m, end, name.at, room) == (if |want| < room && !HasSpace(want) then name.size else -1)
      && Walk(x.m, end, name.at, 0).Some?
      && SameText(Show(Walk(x.m, end, name.at, 0).value), want)
      && SkipResult(x.m, end, name.at) == name.size
      && Labels(Show(Walk(x.m, end, name.at, 0).value), 0).Some?
      && SameLabels(Labels(Show(Walk(x.m, end, name.at, 0).value), 0).value, Labels(name.text, 0).value)
  {
    var x := xs[|xs| - 1];
    RunIsSound(xs, |xs| - 1);
    assert Holds(x.m, x.names[k], x.top);
    HeldNameExpands(x.m, x.names[k], x.top, end, room);
  }

  // ----- where pointers lead

  /** The byte that closes the labels of the name at p: its root byte or the first of its pointer. */
  function Mark(m: seq<byte>, p: nat): nat
    decreases |m| - p
  {
    if p < |m| && 0 < m[p] < 64 then Mark(m, p + 1 + m[p]) else p
  }

  lemma {:induction false} MarkClosesName(m: seq<byte>, floor: nat, p: nat)
    requires floor <= p && Decode(m, floor, p).Some?
    ensures
      var k := Mark(m, p);
      && p <= k < |m|
      && if m[k] == 0 then SegEnd(m, p) == k + 1
         else
           && m[k] >= INDIR && SegEnd(m, p) == k + 2 <= |m|
           && var t := Target(m[k], m[k + 1]);
           && t < SegEnd(m, t) <= floor && 0 < m[t] < 64 && Decode(m, t, t).Some?
    decreases |m| - p
  {
    if 0 < m[p] < 64 {
      MarkClosesName(m, floor, p + 1 + m[p]);
    }
  }
}
