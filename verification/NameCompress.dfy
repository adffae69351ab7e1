/** dn_comp(): packing a presentation name into a message, sharing suffixes already there. */
module NameCompress {
  import opened Bytes
  import opened Presentation
  import opened Wire
  import opened NameFind

  /** NULL in a list of names already packed. */
  const NULL := -1

  /**
    * The bytes dn_comp() stores for the text from i on, when the listed names can be pointed to;
    * none when a label is empty or too long before a listed suffix is met.
    */
  function Emit(m: seq<byte>, list: seq<int>, s: seq<byte>, i: nat): (r: Option<seq<byte>>)
    requires i <= |s|
    ensures r.Some? ==> |r.value| >= 1
    decreases |s| - i
  {
    if i == |s| then Some([0])
    else if Find(m, list, s, i) >= 0 then Some(PointerBytes(Find(m, list, s, i)))
    else
      var scan := ScanLabel(s, i);
      if scan.bytes == [] then
        if scan.next == |s| then Some([0]) else None
      else if |scan.bytes| > MAX_LABEL then None
      else
        match Emit(m, list, s, scan.next)
        case None => None
        case Some(rest) => Some([|scan.bytes|] + scan.bytes + rest)
  }

  /** Where dn_comp() would record a label for later sharing, packing the text from i on at `at`. */
  function Saved(m: seq<byte>, list: seq<int>, s: seq<byte>, i: nat, at: nat): seq<int>
    requires i <= |s|
    decreases |s| - i
  {
    if i == |s| || Find(m, list, s, i) >= 0 then []
    else
      var scan := ScanLabel(s, i);
      if scan.bytes == [] || |scan.bytes| > MAX_LABEL then [at]
      else [at] + Saved(m, list, s, scan.next, at + 1 + |scan.bytes|)
  }

  /** The listed place at which the packed text's pointer is aimed, -1 if it ends at the root. */
  function Matched(m: seq<byte>, list: seq<int>, s: seq<byte>, i: nat): (r: int)
    requires i <= |s|
    ensures r == -1 || r in list
    decreases |s| - i
  {
    if i == |s| then -1
    else if Find(m, list, s, i) >= 0 then Find(m, list, s, i)
    else if ScanLabel(s, i).bytes == [] then -1
    else Matched(m, list, s, ScanLabel(s, i).next)
  }

  /** Does the packed text end in a pointer rather than at the root? */
  predicate EndsInPointer(m: seq<byte>, list: seq<int>, s: seq<byte>, i: nat)
    requires i <= |s|
  {
    Matched(m, list, s, i) >= 0
  }

  /** The pointer, if there is one, is aimed where 14 bits reach. */
  predicate Leads(m: seq<byte>, list: seq<int>, s: seq<byte>, i: nat)
    requires i <= |s|
  {
    Matched(m, list, s, i) < 0x4000
  }

  lemma LeadsBelow(m: seq<byte>, list: seq<int>, s: seq<byte>, i: nat)
    requires i <= |s| && forall k :: 0 <= k < |list| ==> list[k] < 0x4000
    ensures Leads(m, list, s, i)
  {
  }

  /**
    * What is stored ends in the pointer or in the root byte; a pointer leads to the matched place if
    * and only if that place is below 0x4000, and otherwise to the place as many times 0x4000 less.
    */
  lemma {:induction false} StoredEnding(m: seq<byte>, list: seq<int>, s: seq<byte>, i: nat)
    requires i <= |s| && Emit(m, list, s, i).Some?
    ensures
      var e, q := Emit(m, list, s, i).value, Matched(m, list, s, i);
      if q < 0 then e[|e| - 1] == 0
      else
        && |e| >= 2 && e[|e| - 2..] == PointerBytes(q)
        && Target(e[|e| - 2], e[|e| - 1]) == q % 0x4000
        && (Target(e[|e| - 2], e[|e| - 1]) == q <==> q < 0x4000)
    decreases |s| - i
  {
    if i < |s| {
      var q := Find(m, list, s, i);
      if q >= 0 {
        PointerLeadsBack(q);
        PointerWraps(q);
      } else if ScanLabel(s, i).bytes != [] {
        var scan := ScanLabel(s, i);
        StoredEnding(m, list, s, scan.next);
        var rest := Emit(m, list, s, scan.next).value;
        assert Emit(m, list, s, i).value == [|scan.bytes|] + scan.bytes + rest;
      }
    }
  }

  lemma PointerWraps(q: nat)
    ensures Target(PointerBytes(q)[0], PointerBytes(q)[1]) == q % 0x4000
  {
    assert q == 0x4000 * (q / 0x4000) + q % 0x4000;
    assert q / 256 == 64 * (q / 0x4000) + q % 0x4000 / 256;
  }

  /**
    * A name is stored exactly when its labels are sound and its bytes fit; the first part of this
    * does not depend on what is listed.
    */
  lemma {:induction false} EmitsSoundNames(m: seq<byte>, list: seq<int>, limit: nat, s: seq<byte>, i: nat)
    requires i <= |s| && GoodList(m, list, limit)
    ensures Emit(m, list, s, i).Some? <==> Labels(s, i).Some?
    decreases |s| - i
  {
    if i < |s| {
      var q := Find(m, list, s, i);
      if q >= 0 {
        MatchIsEquality(s, i, Decode(m, q, q).value);
      } else {
        var scan := ScanLabel(s, i);
        if 1 <= |scan.bytes| <= MAX_LABEL {
          EmitsSoundNames(m, list, limit, s, scan.next);
        }
      }
    }
  }

  lemma {:induction false} PointersTakeTwo(m: seq<byte>, list: seq<int>, s: seq<byte>, i: nat)
    requires i <= |s| && EndsInPointer(m, list, s, i) && Emit(m, list, s, i).Some?
    ensures |Emit(m, list, s, i).value| >= 2
  {
  }

  // ----- what is stored spells the name

  lemma RootDecodes(m: seq<byte>, floor: nat, p: nat)
    requires floor <= p && StoredAt(m, p, [0])
    ensures SegEnd(m, p) == p + 1 && Decode(m, floor, p) == Some([])
  {
    StoredByte(m, p, 0);
  }

  lemma LabelStored(m: seq<byte>, p: nat, l: Label, rest: seq<byte>)
    requires 1 <= |l| <= MAX_LABEL && StoredAt(m, p, [|l|] + l + rest)
    ensures p + 1 + |l| <= |m| && m[p] == |l| && m[p + 1..p + 1 + |l|] == l
    ensures StoredAt(m, p + 1 + |l|, rest)
  {
    StoredParts(m, p, [|l|] + l, rest);
    StoredParts(m, p, [|l|], l);
    StoredByte(m, p, |l|);
  }

  lemma LabelDecodes(m: seq<byte>, floor: nat, p: nat, l: Label)
    requires floor <= p && 1 <= |l| <= MAX_LABEL
    requires p + 1 + |l| <= |m| && m[p] == |l| && m[p + 1..p + 1 + |l|] == l
    requires Decode(m, floor, p + 1 + |l|).Some?
    ensures Decode(m, floor, p) == Some([l] + Decode(m, floor, p + 1 + |l|).value)
    ensures SegEnd(m, p) == SegEnd(m, p + 1 + |l|)
  {
  }

  lemma PointerDecodes(m: seq<byte>, floor: nat, p: nat, q: nat)
    requires floor <= p && StoredAt(m, p, PointerBytes(q))
    requires q < 0x4000 && GoodEntry(m, q, floor) && Decode(m, q, q).value != []
    ensures SegEnd(m, p) == p + 2 && Decode(m, floor, p) == Decode(m, q, q)
  {
    PointerLeadsBack(q);
    assert m[p..p + 2][0] == m[p] && m[p..p + 2][1] == m[p + 1];
    DecodeEnds(m, q, q);
    NoLabelsOnlyAtRoot(m, q, q);
  }

  lemma SameLabelsGood(a: seq<Label>, b: seq<Label>)
    requires SameLabels(a, b) && GoodLabels(b)
    ensures GoodLabels(a)
  {
    forall i | 0 <= i < |a| ensures GoodLabel(a[i]) {
      forall k | 0 <= k < |a[i]| ensures a[i][k] != 0 {
        assert GoodLabel(b[i]) && Lower(b[i][k]) == Lower(a[i][k]);
      }
    }
  }

  lemma SameLabelsSymmetric(a: seq<Label>, b: seq<Label>)
    requires SameLabels(a, b)
    ensures SameLabels(b, a)
  {
    forall i | 0 <= i < |a| ensures SameText(b[i], a[i]) {
      SameTextSymmetric(a[i], b[i]);
    }
  }

  lemma SameLabelsCons(l: Label, a: seq<Label>, b: seq<Label>)
    requires SameLabels(a, b)
    ensures SameLabels([l] + a, [l] + b)
  {
  }

  /** What a list must satisfy for a name packed at p or later in m' to share its names, found in m. */
  ghost predicate Sharable(m: seq<byte>, m': seq<byte>, list: seq<int>, floor: nat) {
    && GoodList(m, list, floor)
    && floor <= |m| && floor <= |m'| && m[..floor] == m'[..floor]
  }

  lemma SharedSuffixDecodes(m: seq<byte>, m': seq<byte>, list: seq<int>, floor: nat, s: seq<byte>, i: nat, p: nat)
    requires i < |s| && Sharable(m, m', list, floor) && floor <= p && 0 <= Find(m, list, s, i) < 0x4000
    requires StoredAt(m', p, PointerBytes(Find(m, list, s, i)))
    ensures SegEnd(m', p) == p + 2
    ensures Decode(m', floor, p).Some? && Labels(s, i).Some?
    ensures SameLabels(Decode(m', floor, p).value, Labels(s, i).value)
  {
    var q := Find(m, list, s, i);
    var k :| 0 <= k < |list| && list[k] == q;
    EntryFrame(m, m', q, floor);
    MatchIsEquality(s, i, Decode(m, q, q).value);
    PointerDecodes(m', floor, p, q);
    SameLabelsSymmetric(Labels(s, i).value, Decode(m, q, q).value);
  }

  /**
    * Bytes stored for a text spell that text, up to case, wherever they are put after the listed
    * names: pointers lead below the floor and back to the suffix that matched.
    */
  lemma {:induction false} EmittedDecodes(m: seq<byte>, m': seq<byte>, list: seq<int>, floor: nat,
                                          s: seq<byte>, i: nat, p: nat)
    requires i <= |s| && NoNul(s) && Sharable(m, m', list, floor) && floor <= p && Leads(m, list, s, i)
    requires Emit(m, list, s, i).Some? && StoredAt(m', p, Emit(m, list, s, i).value)
    ensures SegEnd(m', p) == p + |Emit(m, list, s, i).value|
    ensures Decode(m', floor, p).Some? && Labels(s, i).Some?
    ensures SameLabels(Decode(m', floor, p).value, Labels(s, i).value)
    decreases |s| - i
  {
    hide Sharable, StoredAt, Decode, SegEnd, Tidy, MatchAt;
    if i == |s| {
      RootDecodes(m', floor, p);
    } else if Find(m, list, s, i) >= 0 {
      SharedSuffixDecodes(m, m', list, floor, s, i, p);
    } else {
      var l := ScanLabel(s, i).bytes;
      if l == [] {
        RootDecodes(m', floor, p);
      } else {
        var next := ScanLabel(s, i).next;
        LabelStored(m', p, l, Emit(m, list, s, next).value);
        EmittedDecodes(m, m', list, floor, s, next, p + 1 + |l|);
        LabelDecodes(m', floor, p, l);
        SameLabelsCons(l, Decode(m', floor, p + 1 + |l|).value, Labels(s, next).value);
      }
    }
  }

  /** The place of a label just stored is a good entry once the name is complete. */
  lemma PlaceIsGood(m: seq<byte>, m': seq<byte>, list: seq<int>, floor: nat, s: seq<byte>, i: nat, p: nat)
    requires i < |s| && NoNul(s) && Sharable(m, m', list, floor) && floor <= p && Find(m, list, s, i) < 0
    requires Leads(m, list, s, i)
    requires Emit(m, list, s, i).Some? && StoredAt(m', p, Emit(m, list, s, i).value)
    ensures GoodEntry(m', p, p + |Emit(m, list, s, i).value|)
  {
    hide Sharable, Tidy, MatchAt;
    EmittedDecodes(m, m', list, floor, s, i, p);
    LabelsAreGood(s, i);
    SameLabelsGood(Decode(m', floor, p).value, Labels(s, i).value);
    RaiseFloor(m', floor, p, p);
    assert m'[p..p + |Emit(m, list, s, i).value|][0] == m'[p];
  }

  lemma GoodListCons(m: seq<byte>, q: int, rest: seq<int>, limit: nat)
    requires GoodEntry(m, q, limit) && GoodList(m, rest, limit)
    ensures GoodList(m, [q] + rest, limit)
  {
  }

  /** Every label recorded for sharing is a good entry once the name is complete. */
  lemma {:induction false} SavedAreGood(m: seq<byte>, m': seq<byte>, list: seq<int>, floor: nat,
                                        s: seq<byte>, i: nat, p: nat)
    requires i <= |s| && NoNul(s) && Sharable(m, m', list, floor) && floor <= p && Leads(m, list, s, i)
    requires Emit(m, list, s, i).Some? && StoredAt(m', p, Emit(m, list, s, i).value)
    ensures GoodList(m', Saved(m, list, s, i, p), p + |Emit(m, list, s, i).value|)
    ensures forall k :: 0 <= k < |Saved(m, list, s, i, p)| ==>
              p <= Saved(m, list, s, i, p)[k] < p + |Emit(m, list, s, i).value|
    decreases |s| - i
  {
    hide Sharable, StoredAt, Decode, SegEnd, Tidy, MatchAt, GoodEntry;
    if i < |s| && Find(m, list, s, i) < 0 {
      PlaceIsGood(m, m', list, floor, s, i, p);
      var limit := p + |Emit(m, list, s, i).value|;
      var l := ScanLabel(s, i).bytes;
      if l == [] {
        GoodListCons(m', p, [], limit);
      } else {
        var next := ScanLabel(s, i).next;
        LabelStored(m', p, l, Emit(m, list, s, next).value);
        SavedAreGood(m, m', list, floor, s, next, p + 1 + |l|);
        GoodListCons(m', p, Saved(m, list, s, next, p + 1 + |l|), limit);
      }
    }
  }

  // ----- the packer

  /** The pointers of a NULL-terminated list, from index k on. */
  function Listed(a: seq<int>, k: nat): (r: seq<int>)
    requires k <= |a|
    ensures |r| <= |a| - k && r == a[k..k + |r|]
    ensures k + |r| < |a| ==> a[k + |r|] == NULL
    decreases |a| - k
  {
    if k == |a| || a[k] == NULL then [] else [a[k]] + Listed(a, k + 1)
  }

  lemma {:induction false} ListedIs(a: seq<int>, k: nat, list: seq<int>)
    requires k + |list| < |a| && a[k..k + |list|] == list && a[k + |list|] == NULL
    requires NULL !in list
    ensures Listed(a, k) == list
    decreases |list|
  {
    if list != [] {
      assert a[k..k + |list|][0] == a[k] == list[0];
      assert a[k + 1..k + 1 + |list[1..]|] == list[1..];
      ListedIs(a, k + 1, list[1..]);
    }
  }

  /** A pointer list that starts with the message and ends in NULL inside its array. */
  ghost predicate Terminated(a: seq<int>) {
    |a| >= 1 && a[0] == 0 && 1 + |Listed(a, 1)| < |a|
  }

  /** The names to share with: none without a list, or when the list names no message. */
  ghost function Known(a: seq<int>): seq<int> {
    if a == [] || a[0] == NULL then [] else Listed(a, 1)
  }

  /** How many pointers can still be recorded when the list array ends at `last`. */
  function Room(list: seq<int>, last: int): nat {
    if last == NULL || last < |list| + 2 then 0 else last - |list| - 2
  }

  function Take(s: seq<int>, n: nat): seq<int> {
    if |s| <= n then s else s[..n]
  }

  /** The bytes of buf outside [from, to) are those of m. */
  ghost predicate OnlyWithin(m: seq<byte>, m': seq<byte>, from: nat, to: int) {
    |m'| == |m| && forall k :: 0 <= k < |m| && (k < from || k >= to) ==> m'[k] == m[k]
  }

  /**
    * Store the unescaped bytes of the label at i, which stops before `end`.  The text's next
    * label starts at `next`.
    */
  method PutLabel(s: seq<byte>, i: nat, buf: array<byte>, at: nat, end: int) returns (ok: bool, next: nat, n: nat)
    requires NoNul(s) && i < |s| && end <= buf.Length
    modifies buf
    ensures ok <==> ScanLabel(s, i).bytes == [] || at + |ScanLabel(s, i).bytes| <= end
    ensures ok ==> next == ScanLabel(s, i).next && n == |ScanLabel(s, i).bytes|
    ensures ok && n > 0 ==> at + n <= buf.Length && buf[at..at + n] == ScanLabel(s, i).bytes
    ensures OnlyWithin(old(buf[..]), buf[..], at, at + n)
    ensures n > 0 ==> at + n <= end
  {
    ghost var scan, m := ScanLabel(s, i), buf[..];
    next := i;
    n := 0;
    while true
      invariant i <= next <= |s| && (n > 0 ==> at + n <= end)
      invariant n <= |scan.bytes| && ScanLabel(s, next).bytes == scan.bytes[n..]
      invariant ScanLabel(s, next).next == scan.next
      invariant n == 0 ==> next == i
      invariant forall k :: 0 <= k < n ==> buf[at + k] == scan.bytes[k]
      invariant OnlyWithin(m, buf[..], at, at + n)
      decreases |s| - next
    {
      ghost var here := ScanLabel(s, next).bytes;
      var c := At(s, next);
      if c == 0 {
        break;
      }
      next := next + 1;
      if c == DOT {
        break;
      }
      if c == BACKSLASH {
        c := At(s, next);
        if c == 0 {
          break;
        }
        next := next + 1;
      }
      assert here == [c] + ScanLabel(s, next).bytes;
      assert here[0] == scan.bytes[n] && here[1..] == scan.bytes[n + 1..];
      if at + n >= end {
        return false, next, n;
      }
      buf[at + n] := c;
      n := n + 1;
    }
    ok := true;
  }

  /** What the loop of dn_comp() has to do once it stands at text position i and buffer position cp. */
  ghost predicate Packing(m: seq<byte>, list: seq<int>, s: seq<byte>, start: nat, i: nat, cp: nat,
                          done: seq<byte>, saved: seq<int>)
  {
    && i <= |s| && cp == start + |done|
    && var whole := Emit(m, list, s, 0);
       var rest := Emit(m, list, s, i);
    && (whole.Some? <==> rest.Some?)
    && (whole.Some? ==> whole.value == done + rest.value)
    && Saved(m, list, s, 0, start) == saved + Saved(m, list, s, i, cp)
    && (EndsInPointer(m, list, s, 0) <==> EndsInPointer(m, list, s, i))
  }

  lemma PackingStart(m: seq<byte>, list: seq<int>, s: seq<byte>, start: nat)
    ensures Packing(m, list, s, start, 0, start, [], [])
  {
    if Emit(m, list, s, 0).Some? {
      assert [] + Emit(m, list, s, 0).value == Emit(m, list, s, 0).value;
    }
    assert [] + Saved(m, list, s, 0, start) == Saved(m, list, s, 0, start);
  }

  /** At the end of the text, or at an empty last label, only the root byte is missing. */
  lemma PackingRoot(m: seq<byte>, list: seq<int>, s: seq<byte>, start: nat, i: nat, cp: nat,
                    done: seq<byte>, saved: seq<int>)
    requires Packing(m, list, s, start, i, cp, done, saved)
    requires i == |s| || (Find(m, list, s, i) < 0 && ScanLabel(s, i).bytes == [] && ScanLabel(s, i).next == |s|)
    ensures Emit(m, list, s, 0) == Some(done + [0])
    ensures Saved(m, list, s, 0, start) == if i == |s| then saved else saved + [cp]
    ensures !EndsInPointer(m, list, s, 0)
  {
  }

  lemma PackingPointer(m: seq<byte>, list: seq<int>, s: seq<byte>, start: nat, i: nat, cp: nat,
                       done: seq<byte>, saved: seq<int>)
    requires Packing(m, list, s, start, i, cp, done, saved) && i < |s| && Find(m, list, s, i) >= 0
    ensures Emit(m, list, s, 0) == Some(done + PointerBytes(Find(m, list, s, i)))
    ensures Saved(m, list, s, 0, start) == saved
    ensures EndsInPointer(m, list, s, 0)
  {
  }

  lemma PackingBad(m: seq<byte>, list: seq<int>, s: seq<byte>, start: nat, i: nat, cp: nat,
                   done: seq<byte>, saved: seq<int>)
    requires Packing(m, list, s, start, i, cp, done, saved) && i < |s| && Find(m, list, s, i) < 0
    requires
      var scan := ScanLabel(s, i);
      (scan.bytes == [] && scan.next < |s|) || |scan.bytes| > MAX_LABEL
    ensures Emit(m, list, s, 0).None?
  {
  }

  /** Storing a label moves on to the next, and rules out any buffer it does not fit in. */
  lemma PackingLabel(m: seq<byte>, list: seq<int>, s: seq<byte>, start: nat, i: nat, cp: nat,
                     done: seq<byte>, saved: seq<int>)
    requires Packing(m, list, s, start, i, cp, done, saved) && i < |s| && Find(m, list, s, i) < 0
    requires 1 <= |ScanLabel(s, i).bytes|
    ensures
      var scan := ScanLabel(s, i);
      && (|scan.bytes| <= MAX_LABEL ==>
            Packing(m, list, s, start, scan.next, cp + 1 + |scan.bytes|, done + ([|scan.bytes|] + scan.bytes), saved + [cp]))
      && (Emit(m, list, s, 0).Some? ==>
            |done| + 2 + |scan.bytes| + (if EndsInPointer(m, list, s, 0) then 1 else 0) <= |Emit(m, list, s, 0).value|)
  {
    var scan := ScanLabel(s, i);
    if |scan.bytes| <= MAX_LABEL {
      if Emit(m, list, s, scan.next).Some? {
        var rest := Emit(m, list, s, scan.next).value;
        Regroup(done, [|scan.bytes|] + scan.bytes, rest);
        if EndsInPointer(m, list, s, scan.next) {
          PointersTakeTwo(m, list, s, scan.next);
        }
      }
      Regroup(saved, [cp], Saved(m, list, s, scan.next, cp + 1 + |scan.bytes|));
    }
  }

  /** When a listed suffix is found but its pointer does not fit, what was recorded stays listed. */
  ghost predicate KeepsEntries(m: seq<byte>, list: seq<int>, s: seq<byte>, length: int) {
    && Emit(m, list, s, 0).Some? && EndsInPointer(m, list, s, 0)
    && |Emit(m, list, s, 0).value| - 2 <= length < |Emit(m, list, s, 0).value|
  }

  /** The list array holds the names known before and what has been recorded since, then NULL at cpp. */
  ghost predicate Recorded(a: seq<int>, list: seq<int>, saved: seq<int>, last: int, cpp: nat) {
    var taken := Take(saved, Room(list, last));
    && cpp == 1 + |list| + |taken| < |a|
    && a[0] == 0 && a[1..cpp] == list + taken && a[cpp] == NULL
    && NULL !in list && NULL !in saved
  }

  lemma RecordedKnown(a: seq<int>, list: seq<int>, saved: seq<int>, last: int, cpp: nat)
    requires Recorded(a, list, saved, last, cpp)
    ensures Terminated(a) && Known(a) == list + Take(saved, Room(list, last))
    ensures a[1..1 + |list|] == list && 1 + |list| <= cpp < |a|
  {
    var taken := Take(saved, Room(list, last));
    assert a[1..1 + |list|] == a[1..cpp][..|list|] == list;
    ListedIs(a, 1, list + taken);
  }

  lemma KnownRecorded(a: seq<int>, last: int)
    requires Terminated(a)
    ensures Recorded(a, Known(a), [], last, 1 + |Known(a)|)
  {
    assert Known(a) + [] == Known(a);
    ListedNotNull(a, 1);
  }

  lemma {:induction false} ListedNotNull(a: seq<int>, k: nat)
    requires k <= |a|
    ensures NULL !in Listed(a, k)
    decreases |a| - k
  {
    if k < |a| && a[k] != NULL {
      ListedNotNull(a, k + 1);
    }
  }

  lemma ListLength(a: seq<int>)
    requires Terminated(a)
    ensures 1 + |Known(a)| < |a| && a[1 + |Known(a)|] == NULL
    ensures forall k :: 1 <= k < 1 + |Known(a)| ==> a[k] != NULL
  {
    ListedNotNull(a, 1);
    forall k | 1 <= k < 1 + |Known(a)| ensures a[k] != NULL {
      assert a[k] == Known(a)[k - 1];
    }
  }

  lemma NothingKnown(a: seq<int>)
    requires a == [] || a[0] == NULL
    ensures Known(a) == []
  {
  }

  /** Look the text at i up among the names known before packing began. */
  method LookUp(s: seq<byte>, i: nat, buf: array<byte>, dnptrs: array<int>, lpp: nat, ghost m: seq<byte>,
                ghost list: seq<int>, ghost saved: seq<int>, ghost last: int, ghost cpp: nat,
                ghost start: nat, ghost end: int) returns (l: int)
    requires NoNul(s) && i <= |s| && GoodList(m, list, start) && start <= |m|
    requires lpp == 1 + |list| && Recorded(dnptrs[..], list, saved, last, cpp)
    requires OnlyWithin(m, buf[..], start, end)
    ensures l == Find(m, list, s, i) && -1 <= l
  {
    RecordedKnown(dnptrs[..], list, saved, last, cpp);
    PrefixKept(m, buf[..], start, end);
    FindFrame(m, buf[..], list, start, s, i);
    l := FindName(s, i, buf, dnptrs, 1, lpp, start);
  }

  /** Append a pointer to the list if its array has room for it and the NULL after it. */
  method Record(dnptrs: array<int>, cpp: nat, last: int, at: nat, ghost list: seq<int>, ghost saved: seq<int>)
    returns (cpp': nat)
    requires last == NULL || 0 <= last <= dnptrs.Length
    requires Recorded(dnptrs[..], list, saved, last, cpp)
    modifies dnptrs
    ensures Recorded(dnptrs[..], list, saved + [at], last, cpp')
  {
    ghost var a := dnptrs[..];
    cpp' := cpp;
    if last != NULL && cpp < last - 1 {
      dnptrs[cpp] := at;
      cpp' := cpp + 1;
      dnptrs[cpp'] := NULL;
      assert dnptrs[..][1..cpp'] == a[1..cpp] + [at];
    }
  }

  /** Cut the list back to what was known when packing began. */
  method Forget(dnptrs: array<int>, lpp: nat, ghost list: seq<int>, ghost saved: seq<int>, ghost last: int, ghost cpp: nat)
    requires Recorded(dnptrs[..], list, saved, last, cpp) && lpp == 1 + |list|
    modifies dnptrs
    ensures Recorded(dnptrs[..], list, [], last, lpp)
  {
    RecordedKnown(dnptrs[..], list, saved, last, cpp);
    dnptrs[lpp] := NULL;
    assert list + [] == list;
  }

  lemma FindNothing(m: seq<byte>, s: seq<byte>, i: nat)
    requires i <= |s|
    ensures Find(m, [], s, i) == -1
  {
  }

  lemma PrefixKept(m: seq<byte>, m': seq<byte>, from: nat, to: int)
    requires OnlyWithin(m, m', from, to) && from <= |m|
    ensures m'[..from] == m[..from]
  {
  }

  lemma WithinNothing(m: seq<byte>, from: nat)
    ensures OnlyWithin(m, m, from, from)
  {
  }

  lemma WithinUpTo(m: seq<byte>, m': seq<byte>, from: nat, cp: nat, end: int)
    requires OnlyWithin(m, m', from, cp) && (cp <= end || cp == from)
    ensures OnlyWithin(m, m', from, end)
  {
  }

  /** Storing a label keeps the writes where they may be, and below its end when it has one. */
  lemma WithinLabel(m: seq<byte>, b: seq<byte>, b': seq<byte>, from: nat, cp: nat, n: nat, end: int)
    requires OnlyWithin(m, b, from, cp) && OnlyWithin(b, b', cp + 1, cp + 1 + n)
    requires from <= cp && (cp <= end || cp == from) && (n > 0 ==> cp + 1 + n <= end)
    ensures OnlyWithin(m, b', from, end) && OnlyWithin(m, b', from, cp + 1 + n)
    ensures n == 0 ==> OnlyWithin(m, b', from, cp)
  {
  }

  /** Store the two bytes of a pointer after what is stored already. */
  method PutPointer(buf: array<byte>, cp: nat, l: nat, ghost start: nat, ghost done: seq<byte>, ghost m: seq<byte>)
    requires cp == start + |done| && cp + 2 <= buf.Length
    requires StoredAt(buf[..], start, done) && OnlyWithin(m, buf[..], start, cp)
    modifies buf
    ensures StoredAt(buf[..], start, done + PointerBytes(l)) && OnlyWithin(m, buf[..], start, cp + 2)
  {
    ghost var before := buf[..];
    buf[cp] := (l / 256) % 64 + INDIR;
    buf[cp + 1] := l % 256;
    StoredStays(before, buf[..], start, done, cp, cp + 2);
    assert buf[..][cp..cp + 2] == PointerBytes(l);
    StoredMore(buf[..], start, done, PointerBytes(l));
  }

  /** Store the length byte of a label whose bytes are in place. */
  method PutLength(buf: array<byte>, cp: nat, n: nat, ghost start: nat, ghost done: seq<byte>, ghost l: Label,
                   ghost m: seq<byte>)
    requires cp == start + |done| && 1 <= n == |l| <= MAX_LABEL && cp + 1 + n <= buf.Length
    requires StoredAt(buf[..], start, done) && StoredAt(buf[..], cp + 1, l)
    requires OnlyWithin(m, buf[..], start, cp + 1 + n)
    modifies buf
    ensures StoredAt(buf[..], start, done + ([n] + l)) && OnlyWithin(m, buf[..], start, cp + 1 + n)
  {
    ghost var before := buf[..];
    buf[cp] := n;
    StoredStays(before, buf[..], start, done, cp, cp + 1);
    assert buf[..][cp + 1..cp + 1 + n] == before[cp + 1..cp + 1 + n];
    assert buf[..][cp..cp + 1] == [n];
    StoredMore(buf[..], cp, [n], l);
    StoredMore(buf[..], start, done, [n] + l);
  }

  method PutRoot(buf: array<byte>, cp: nat, ghost start: nat, ghost done: seq<byte>, ghost m: seq<byte>)
    requires cp == start + |done| && cp < buf.Length
    requires StoredAt(buf[..], start, done) && OnlyWithin(m, buf[..], start, cp)
    modifies buf
    ensures StoredAt(buf[..], start, done + [0]) && OnlyWithin(m, buf[..], start, cp + 1)
  {
    ghost var before := buf[..];
    buf[cp] := 0;
    StoredStays(before, buf[..], start, done, cp, cp + 1);
    assert buf[..][cp..cp + 1] == [0];
    StoredMore(buf[..], start, done, [0]);
  }

  lemma StoredNothing(m: seq<byte>, p: nat)
    requires p <= |m|
    ensures StoredAt(m, p, [])
  {
  }

  lemma StoredMore(m: seq<byte>, p: nat, a: seq<byte>, b: seq<byte>)
    requires StoredAt(m, p, a) && StoredAt(m, p + |a|, b)
    ensures StoredAt(m, p, a + b)
  {
    assert m[p..p + |a| + |b|] == m[p..p + |a|] + m[p + |a|..p + |a| + |b|];
  }

  /** Writes past what is stored leave it alone. */
  lemma StoredStays(m: seq<byte>, m': seq<byte>, p: nat, a: seq<byte>, from: nat, to: int)
    requires StoredAt(m, p, a) && OnlyWithin(m, m', from, to) && p + |a| <= from
    ensures StoredAt(m', p, a)
  {
  }

  /** The pointers held by a list that may be missing. */
  ghost function Pointers(dnptrs: array?<int>): seq<int>
    reads dnptrs
  {
    if dnptrs == null then [] else dnptrs[..]
  }

  /**
    * What one call of dn_comp() does: m and a are the buffer and the list array before, m' and a'
    * after.  The name is stored exactly when its labels are sound and its bytes fit.
    */
  ghost predicate Packed(m: seq<byte>, a: seq<int>, s: seq<byte>, start: nat, length: int, last: int,
                         m': seq<byte>, a': seq<int>, size: int)
  {
    var list := Known(a);
    var e := Emit(m, list, s, 0);
    && size == (if e.Some? && |e.value| <= length then |e.value| else -1)
    && (size >= 0 ==> StoredAt(m', start, e.value) && OnlyWithin(m, m', start, start + size))
    && OnlyWithin(m, m', start, start + length)
    && |a'| == |a|
    && if a == [] || a[0] == NULL then a' == a
       else
         && Terminated(a')
         && Known(a') == list + if size >= 0 || KeepsEntries(m, list, s, length)
                                then Take(Saved(m, list, s, 0, start), Room(list, last)) else []
  }

  lemma PackedAtRoot(m: seq<byte>, a: seq<int>, s: seq<byte>, start: nat, length: int, last: int,
                     m': seq<byte>, a': seq<int>, i: nat, cp: nat, done: seq<byte>, saved: seq<int>, cpp: nat)
    requires start <= cp && start + length <= |m| && |a'| == |a|
    requires Packing(m, Known(a), s, start, i, cp, done, saved)
    requires i == |s| || (Find(m, Known(a), s, i) < 0 && ScanLabel(s, i).bytes == [] && ScanLabel(s, i).next == |s|)
    requires
      var saved' := if i == |s| then saved else saved + [cp];
      if a == [] || a[0] == NULL then a' == a
      else Recorded(a', Known(a), if cp < start + length then saved' else [], last, cpp)
    requires cp < start + length ==> StoredAt(m', start, done + [0]) && OnlyWithin(m, m', start, cp + 1)
    requires OnlyWithin(m, m', start, start + length)
    ensures Packed(m, a, s, start, length, last, m', a', if cp < start + length then cp + 1 - start else -1)
  {
    PackingRoot(m, Known(a), s, start, i, cp, done, saved);
    if a != [] && a[0] != NULL {
      var saved' := if i == |s| then saved else saved + [cp];
      RecordedKnown(a', Known(a), if cp < start + length then saved' else [], last, cpp);
    }
  }

  lemma PackedAtPointer(m: seq<byte>, a: seq<int>, s: seq<byte>, start: nat, length: int, last: int,
                        m': seq<byte>, a': seq<int>, i: nat, cp: nat, done: seq<byte>, saved: seq<int>, cpp: nat)
    requires start <= cp && start + length <= |m| && |a'| == |a| && a != [] && a[0] != NULL
    requires cp <= start + length || cp == start
    requires Packing(m, Known(a), s, start, i, cp, done, saved) && i < |s| && Find(m, Known(a), s, i) >= 0
    requires Recorded(a', Known(a), saved, last, cpp) && (cp == start ==> saved == [])
    requires cp + 2 <= start + length ==>
               && StoredAt(m', start, done + PointerBytes(Find(m, Known(a), s, i)))
               && OnlyWithin(m, m', start, cp + 2)
    requires OnlyWithin(m, m', start, start + length)
    ensures Packed(m, a, s, start, length, last, m', a', if cp + 2 <= start + length then cp + 2 - start else -1)
  {
    PackingPointer(m, Known(a), s, start, i, cp, done, saved);
    RecordedKnown(a', Known(a), saved, last, cpp);
  }

  /** A label that is bad, or does not fit, fails the call and forgets what it recorded. */
  lemma PackedNot(m: seq<byte>, a: seq<int>, s: seq<byte>, start: nat, length: int, last: int,
                  m': seq<byte>, a': seq<int>, i: nat, cp: nat, done: seq<byte>, saved: seq<int>, cpp: nat)
    requires start <= cp && start + length <= |m| && |a'| == |a|
    requires Packing(m, Known(a), s, start, i, cp, done, saved) && i < |s| && Find(m, Known(a), s, i) < 0
    requires
      var scan := ScanLabel(s, i);
      || (scan.bytes == [] && scan.next < |s|) || |scan.bytes| > MAX_LABEL
      || (scan.bytes != [] && cp + 1 + |scan.bytes| > start + length)
    requires if a == [] || a[0] == NULL then a' == a else Recorded(a', Known(a), [], last, cpp)
    requires OnlyWithin(m, m', start, start + length)
    ensures Packed(m, a, s, start, length, last, m', a', -1)
  {
    var scan := ScanLabel(s, i);
    if (scan.bytes == [] && scan.next < |s|) || |scan.bytes| > MAX_LABEL {
      PackingBad(m, Known(a), s, start, i, cp, done, saved);
    } else {
      PackingLabel(m, Known(a), s, start, i, cp, done, saved);
    }
    if a != [] && a[0] != NULL {
      RecordedKnown(a', Known(a), [], last, cpp);
    }
  }

  /**
    * Store the label at i and its length at cp.  It must not be empty, except at the very end of
    * the text, nor too long, and it must end by `end`.
    */
  method StoreLabel(s: seq<byte>, i: nat, buf: array<byte>, cp: nat, end: int,
                    ghost start: nat, ghost done: seq<byte>, ghost m: seq<byte>) returns (ok: bool, next: nat, n: nat)
    requires NoNul(s) && i < |s| && end <= buf.Length && cp == start + |done| && (cp <= end || cp == start)
    requires StoredAt(buf[..], start, done) && OnlyWithin(m, buf[..], start, cp)
    modifies buf
    ensures OnlyWithin(m, buf[..], start, end)
    ensures
      var l := ScanLabel(s, i).bytes;
      if ok then
        && n == |l| <= MAX_LABEL && next == ScanLabel(s, i).next
        && if l == [] then next == |s| && StoredAt(buf[..], start, done) && OnlyWithin(m, buf[..], start, cp)
           else
             && cp + 1 + n <= end && OnlyWithin(m, buf[..], start, cp + 1 + n)
             && StoredAt(buf[..], start, done + ([n] + l))
      else (l == [] && ScanLabel(s, i).next < |s|) || |l| > MAX_LABEL || (l != [] && cp + 1 + |l| > end)
  {
    hide StoredAt, ScanLabel, OnlyWithin;
    ghost var before := buf[..];
    ok, next, n := PutLabel(s, i, buf, cp + 1, end);
    WithinLabel(m, before, buf[..], start, cp, n, end);
    if !ok {
      return;
    }
    StoredStays(before, buf[..], start, done, cp + 1, cp + 1 + n);
    if n == 0 {
      ok := next == |s|;
      return;
    }
    if n > MAX_LABEL {
      ok := false;
      return;
    }
    PutLength(buf, cp, n, start, done, ScanLabel(s, i).bytes, m);
    WithinUpTo(m, buf[..], start, cp + 1 + n, end);
  }

  /** Where the pointer list ends. */
  method FindNull(dnptrs: array<int>, ghost a: seq<int>) returns (k: nat)
    requires a == dnptrs[..] && Terminated(a)
    ensures k == 1 + |Known(a)|
  {
    ListLength(a);
    k := 1;
    while dnptrs[k] != NULL
      invariant 1 <= k <= 1 + |Known(a)|
      decreases |Known(a)| - k
    {
      k := k + 1;
    }
  }

  /**
    * Pack the name s at `start`, in at most `length` bytes.  dnptrs lists the message and the
    * labels already packed; labels packed now are appended to it while its array, ended by
    * `last`, has room.
    */
  method Compress(s: seq<byte>, buf: array<byte>, start: nat, length: int, dnptrs: array?<int>, last: int)
    returns (size: int)
    requires NoNul(s) && start <= buf.Length && start + length <= buf.Length
    requires dnptrs != null ==> dnptrs.Length >= 1 && (dnptrs[0] == NULL || Terminated(dnptrs[..]))
    requires GoodList(buf[..], Known(Pointers(dnptrs)), start)
    requires last == NULL || 0 <= last <= |Pointers(dnptrs)|
    requires dnptrs == null || dnptrs as object != buf
    modifies buf, dnptrs
    ensures Packed(old(buf[..]), old(Pointers(dnptrs)), s, start, length, last, buf[..], Pointers(dnptrs), size)
  {
    hide Emit, Saved, EndsInPointer, Packing, Recorded, StoredAt, GoodList, Find, Take, ScanLabel, Packed, Known, OnlyWithin;
    ghost var m, a := buf[..], Pointers(dnptrs);
    ghost var list := Known(a);
    ghost var done: seq<byte>, saved: seq<int>, noted: seq<int> := [], [], [];
    PackingStart(m, list, s, start);
    StoredNothing(m, start);
    WithinNothing(m, start);
    var compress := dnptrs != null && dnptrs[0] != NULL;
    var cpp: nat, lpp: nat := 0, 0;
    if compress {
      KnownRecorded(a, last);
      lpp := FindNull(dnptrs, a);
      cpp := lpp;
    } else {
      NothingKnown(a);
    }
    var i: nat, cp: nat, end: int := 0, start, start + length;
    while At(s, i) != 0
      invariant i <= |s| && cp == start + |done| && (cp <= end || cp == start)
      invariant Packing(m, list, s, start, i, cp, done, saved)
      invariant OnlyWithin(m, buf[..], start, cp) && StoredAt(buf[..], start, done)
      invariant compress ==> lpp == 1 + |list| && Recorded(dnptrs[..], list, saved, last, cpp)
      invariant (cp == start ==> saved == []) && noted == saved
      invariant !compress ==> Pointers(dnptrs) == a
      decreases |s| - i
    {
      if compress {
        var l := LookUp(s, i, buf, dnptrs, lpp, m, list, saved, last, cpp, start, cp);
        if l >= 0 {
          WithinUpTo(m, buf[..], start, cp, end);
          if cp + 1 >= end {
            PackedAtPointer(m, a, s, start, length, last, buf[..], Pointers(dnptrs), i, cp, done, saved, cpp);
            return -1;
          }
          PutPointer(buf, cp, l, start, done, m);
          WithinUpTo(m, buf[..], start, cp + 2, end);
          PackedAtPointer(m, a, s, start, length, last, buf[..], Pointers(dnptrs), i, cp, done, saved, cpp);
          return cp + 2 - start;
        }
        cpp := Record(dnptrs, cpp, last, cp, list, saved);
      } else {
        FindNothing(m, s, i);
      }
      var ok, next, n := StoreLabel(s, i, buf, cp, end, start, done, m);
      noted := saved + [cp];
      if !ok {
        if compress {
          Forget(dnptrs, lpp, list, noted, last, cpp);
          cpp := lpp;
        }
        PackedNot(m, a, s, start, length, last, buf[..], Pointers(dnptrs), i, cp, done, saved, cpp);
        return -1;
      }
      if n == 0 {
        break;
      }
      PackingLabel(m, list, s, start, i, cp, done, saved);
      done, saved := done + ([n] + ScanLabel(s, i).bytes), noted;
      cp := cp + 1 + n;
      i := next;
    }
    WithinUpTo(m, buf[..], start, cp, end);
    if cp >= end {
      if compress {
        Forget(dnptrs, lpp, list, noted, last, cpp);
        cpp := lpp;
      }
      PackedAtRoot(m, a, s, start, length, last, buf[..], Pointers(dnptrs), i, cp, done, saved, cpp);
      return -1;
    }
    PutRoot(buf, cp, start, done, m);
    WithinUpTo(m, buf[..], start, cp + 1, end);
    PackedAtRoot(m, a, s, start, length, last, buf[..], Pointers(dnptrs), i, cp, done, saved, cpp);
    return cp + 1 - start;
  }
}
