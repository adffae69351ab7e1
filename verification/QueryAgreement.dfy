/** What res_mkquery() builds is what res_nameinquery() and res_queriesmatch() read. */
module QueryAgreement {
  import opened Bytes
  import opened Presentation
  import opened Wire
  import opened NameExpand
  import opened NameFind
  import opened NameCompress
  import opened MessageRuns
  import opened Query
  import opened QueryBuilder

  /** The question a query for `name` asks: its labels written plainly, and 16 bits of type and class. */
  function Asks(name: seq<byte>, kind: int, class_: int): Question
    requires Labels(name, 0).Some?
  {
    Question(Show(Labels(name, 0).value), kind % 65536, class_ % 65536)
  }

  /** The readers accept a name whose plain text fits their buffer and shows no white space. */
  predicate ReadersAccept(name: seq<byte>)
    requires Labels(name, 0).Some?
  {
    var text := Show(Labels(name, 0).value);
    |text| < 1026 && !HasSpace(text)
  }

  lemma PlainStored(m: seq<byte>, h: seq<byte>, e: seq<byte>, k: seq<byte>, c: seq<byte>)
    requires StoredAt(m, 0, h + e + (k + c)) && |k| == 2 && |c| == 2
    ensures |h| + |e| + 4 <= |m| && StoredAt(m, 0, h) && StoredAt(m, |h|, e)
    ensures m[|h| + |e|..|h| + |e| + 2] == k && m[|h| + |e| + 2..|h| + |e| + 4] == c
  {
    StoredParts(m, 0, h + e, k + c);
    StoredParts(m, 0, h, e);
    StoredParts(m, |h| + |e|, k, c);
  }

  lemma CountStored(m: seq<byte>, id: int, op: int, recurse: bool, additional: int)
    requires StoredAt(m, 0, Header(id, op, recurse, 1, 0, additional))
    ensures QuestionCount(m) == 1
  {
    var h := Header(id, op, recurse, 1, 0, additional);
    assert h[4..6] == ShortBytes(1);
    assert m[0..12] == h;
    assert m[4..6] == m[0..12][4..6];
    ShortRoundTrip(m, 4, 1);
  }

  /** A name stored without sharing reads back. */
  lemma PlainHolds(m: seq<byte>, name: seq<byte>)
    requires NoNul(name) && Plain(name).Some? && StoredAt(m, HEADER_SIZE, Plain(name).value)
    ensures Holds(m, Name(name, HEADER_SIZE, |Plain(name).value|), HEADER_SIZE + |Plain(name).value|)
  {
    assert Sharable([], m, [], 0);
    EmittedDecodes([], m, [], 0, name, 0, HEADER_SIZE);
    RaiseFloor(m, 0, HEADER_SIZE, HEADER_SIZE);
  }

  /** The name at the start of the question section expands to its plain text, or is refused. */
  lemma NameReadsBack(m: seq<byte>, name: seq<byte>, end: nat)
    requires NoNul(name) && Plain(name).Some? && StoredAt(m, HEADER_SIZE, Plain(name).value)
    requires HEADER_SIZE + |Plain(name).value| <= end <= |m|
    ensures Openable(m, end, HEADER_SIZE) && Labels(name, 0).Some? && (Expands(m, end, HEADER_SIZE) <==> ReadersAccept(name))
    ensures Expands(m, end, HEADER_SIZE) ==>
              NextQuestion(m, end, HEADER_SIZE) == HEADER_SIZE + |Plain(name).value| + QUESTION_SIZE
    ensures Walk(m, end, HEADER_SIZE, 0).Some?
    ensures SameText(UpToNul(Show(Walk(m, end, HEADER_SIZE, 0).value)), Show(Labels(name, 0).value))
  {
    var e := Plain(name).value;
    PlainHolds(m, name);
    HeldNameExpands(m, Name(name, HEADER_SIZE, |e|), HEADER_SIZE + |e|, end, MAX_TEXT);
    var text, want := Show(Walk(m, end, HEADER_SIZE, 0).value), Show(Labels(name, 0).value);
    LabelsAreGood(name, 0);
    ShowNoNul(true, Labels(name, 0).value);
    forall i | 0 <= i < |text| ensures text[i] != 0 {
      assert Lower(text[i]) == Lower(want[i]) && want[i] != 0;
    }
    UpToNulWhole(text, |text|);
    assert text[..|text|] == text;
  }

  /** What a request for a name begins with: a header that counts one question, and that question. */
  function Opening(id: int, op: int, recurse: bool, name: seq<byte>, kind: int, class_: int, additional: int): seq<byte>
    requires Plain(name).Some?
  {
    Header(id, op, recurse, 1, 0, additional) + Plain(name).value + (ShortBytes(kind) + ShortBytes(class_))
  }

  /** A query, and a notification with or without a completion record, begins with its question. */
  lemma RequestOpens(m: seq<byte>, id: int, op: int, recurse: bool, name: seq<byte>, kind: int, class_: int,
                     data: Option<seq<byte>>, room: int) returns (additional: int)
    requires op == OP_QUERY || op == OP_NOTIFY
    requires Request(id, op, recurse, name, kind, class_, data, room).Some?
    requires StoredAt(m, 0, Request(id, op, recurse, name, kind, class_, data, room).value)
    ensures Plain(name).Some? && StoredAt(m, 0, Opening(id, op, recurse, name, kind, class_, additional))
    ensures HEADER_SIZE + |Plain(name).value| + QUESTION_SIZE
            <= |Request(id, op, recurse, name, kind, class_, data, room).value|
  {
    hide StoredAt, Emit, Header, ShortBytes, RecordTail, FirstLabels;
    var msg := QueryMessage(id, op, recurse, name, kind, class_, room).value;
    if op == OP_QUERY || data.None? {
      return 0;
    }
    var h, h', e, q := Header(id, op, recurse, 1, 0, 0), Header(id, op, recurse, 1, 0, 1), Plain(name).value,
                       ShortBytes(kind) + ShortBytes(class_);
    Regroup(h, e, q);
    assert msg[HEADER_SIZE..] == e + q;
    Regroup(h', e, q);
    var tail := Emit(msg, FirstLabels(name, SLOTS), data.value, 0).value + RecordTail(TYPE_NULL, class_, 0);
    StoredParts(m, 0, h' + msg[HEADER_SIZE..], tail);
    return 1;
  }

  /** Memory that holds a request for a name up to `end`. */
  ghost predicate Carried(m: seq<byte>, end: nat, id: int, op: int, recurse: bool, name: seq<byte>, kind: int, class_: int,
                          data: Option<seq<byte>>, room: int)
  {
    && (op == OP_QUERY || op == OP_NOTIFY) && NoNul(name)
    && var r := Request(id, op, recurse, name, kind, class_, data, room);
       r.Some? && |r.value| == end && StoredAt(m, 0, r.value)
  }

  /**
    * The question read from a query or a notification is the one asked, up to case, and it ends
    * where the question section does; its name is refused exactly when its plain text is too long
    * or shows white space.
    */
  lemma QuestionReadsBack(m: seq<byte>, end: nat, id: int, op: int, recurse: bool, name: seq<byte>, kind: int, class_: int,
                          data: Option<seq<byte>>, room: int)
    requires Carried(m, end, id, op, recurse, name, kind, class_, data, room)
    ensures Labels(name, 0).Some? && Plain(name).Some? && HEADER_SIZE + QUESTION_SIZE < end <= |m| && QuestionCount(m) == 1
    ensures Openable(m, end, HEADER_SIZE)
    ensures Expands(m, end, HEADER_SIZE) <==> ReadersAccept(name)
    ensures ReadersAccept(name) ==>
              && NextQuestion(m, end, HEADER_SIZE) == HEADER_SIZE + |Plain(name).value| + QUESTION_SIZE <= end
              && SameQuestion(QuestionAt(m, end, HEADER_SIZE), Asks(name, kind, class_))
  {
    hide Show, Walk, Labels, Emit, ExpandResult, UpToNul, NextQuestion, StoredAt, ShortBytes, GetShort, Request, Header;
    var additional := RequestOpens(m, id, op, recurse, name, kind, class_, data, room);
    StoredFits(m, 0, Request(id, op, recurse, name, kind, class_, data, room).value);
    var h, e := Header(id, op, recurse, 1, 0, additional), Plain(name).value;
    PlainStored(m, h, e, ShortBytes(kind), ShortBytes(class_));
    CountStored(m, id, op, recurse, additional);
    NameReadsBack(m, name, end);
    ShortRoundTrip(m, HEADER_SIZE + |e|, kind);
    ShortRoundTrip(m, HEADER_SIZE + |e| + 2, class_);
  }

  /** The question section of a request holds the one question asked, or a refused one. */
  lemma RequestSection(m: seq<byte>, end: nat, id: int, op: int, recurse: bool, name: seq<byte>, kind: int, class_: int,
                       data: Option<seq<byte>>, room: int) returns (r: Section)
    requires Carried(m, end, id, op, recurse, name, kind, class_, data, room)
    ensures Labels(name, 0).Some? && |m| >= HEADER_SIZE && QuestionCount(m) == 1
    ensures Query.Carries(m, end, r)
    ensures r.malformed <==> !ReadersAccept(name)
    ensures r.malformed ==> r.questions == []
    ensures !r.malformed ==> |r.questions| == 1 && SameQuestion(r.questions[0], Asks(name, kind, class_))
  {
    hide ReadersAccept, Expands, NextQuestion, QuestionAt, Request, StoredAt, Asks;
    QuestionReadsBack(m, end, id, op, recurse, name, kind, class_, data, room);
    if ReadersAccept(name) {
      InMemoryFrom(m, end, NextQuestion(m, end, HEADER_SIZE), 0);
      InMemoryFrom(m, end, HEADER_SIZE, 1);
    } else {
      assert InMemory(m, end, HEADER_SIZE, 1);
    }
    r := SectionAt(m, end, HEADER_SIZE, 1);
  }

  /**
    * res_nameinquery() finds a question in a request exactly when it is the one asked up to case:
    * a name spelled with a trailing dot or needless escapes is not found as it stands.
    */
  lemma QueryAnswersLookup(m: seq<byte>, end: nat, id: int, op: int, recurse: bool, name: seq<byte>, kind: int, class_: int,
                           data: Option<seq<byte>>, room: int, q: Question)
    requires Carried(m, end, id, op, recurse, name, kind, class_, data, room)
    ensures Labels(name, 0).Some? && |m| >= HEADER_SIZE && QuestionCount(m) == 1 && Readable(m, end, q, HEADER_SIZE, 1)
    ensures Lookup(m, end, q, HEADER_SIZE, 1)
            == if !ReadersAccept(name) then -1 else if SameQuestion(Asks(name, kind, class_), q) then 1 else 0
  {
    hide ReadersAccept, Expands, NextQuestion, QuestionAt, Request, StoredAt, Asks, SameText, InMemory, SectionAt, Lookup, Readable;
    var r := RequestSection(m, end, id, op, recurse, name, kind, class_, data, room);
    LookupDecides(m, end, q, HEADER_SIZE, 1);
    if ReadersAccept(name) {
      var got, asked := r.questions[0], Asks(name, kind, class_);
      SameTextSymmetric(got.name, asked.name);
      if SameQuestion(asked, q) {
        SameTextTransitive(got.name, asked.name, q.name);
        assert SameQuestion(r.questions[0], q);
      }
      if SameQuestion(got, q) {
        SameTextTransitive(asked.name, got.name, q.name);
      }
    }
  }

  /** A request matches itself, unless the readers refuse its name. */
  lemma QueryMatchesItself(m: seq<byte>, end: nat, id: int, op: int, recurse: bool, name: seq<byte>, kind: int, class_: int,
                           data: Option<seq<byte>>, room: int)
    requires Carried(m, end, id, op, recurse, name, kind, class_, data, room)
    ensures Labels(name, 0).Some? && |m| >= HEADER_SIZE && QuestionCount(m) == 1
    ensures Comparable(m, end, m, end, HEADER_SIZE, 1)
    ensures MatchResult(m, end, m, end) == if ReadersAccept(name) then 1 else -1
  {
    hide ReadersAccept, Request, StoredAt, Asks, InMemory, SectionAt, Comparable, Compare;
    var r := RequestSection(m, end, id, op, recurse, name, kind, class_, data, room);
    MatchDecides(m, end, m, end, r, r);
    if !r.malformed {
      assert SameQuestion(r.questions[0], r.questions[0]);
    }
  }

  // ----- the completion domain of a notification

  /** A name stored without pointers keeps its labels wherever the rest of the message changes. */
  lemma {:induction false} PlainFrame(m: seq<byte>, m': seq<byte>, floor: nat, p: nat, e: nat)
    requires floor <= p && e <= |m| && e <= |m'| && forall k :: p <= k < e ==> m[k] == m'[k]
    requires Decode(m, floor, p).Some? && Mark(m, p) < e && m[Mark(m, p)] == 0
    ensures Decode(m', floor, p) == Decode(m, floor, p)
    decreases |m| - p
  {
    MarkClosesName(m, floor, p);
    if 0 < m[p] < 64 {
      var q := p + 1 + m[p];
      MarkClosesName(m, floor, q);
      PlainFrame(m, m', floor, q, e);
      assert m[p + 1..q] == m'[p + 1..q];
    }
  }

  lemma {:induction false} PlainMark(m: seq<byte>, s: seq<byte>, i: nat, p: nat)
    requires i <= |s| && Emit([], [], s, i).Some? && StoredAt(m, p, Emit([], [], s, i).value)
    ensures Mark(m, p) == p + |Emit([], [], s, i).value| - 1 < |m| && m[Mark(m, p)] == 0
    decreases |s| - i
  {
    hide StoredAt;
    var scan := ScanLabel(s, i);
    if i == |s| || scan.bytes == [] {
      StoredByte(m, p, 0);
    } else {
      LabelStored(m, p, scan.bytes, Emit([], [], s, scan.next).value);
      PlainMark(m, s, scan.next, p + 1 + |scan.bytes|);
    }
  }

  /** Every place recorded for the first name leads to labels that end at its root byte. */
  lemma {:induction false} SavedMarks(m: seq<byte>, s: seq<byte>, i: nat, p: nat)
    requires i <= |s| && Emit([], [], s, i).Some? && StoredAt(m, p, Emit([], [], s, i).value)
    ensures forall k :: 0 <= k < |Saved([], [], s, i, p)| ==>
              var q := Saved([], [], s, i, p)[k];
              p <= q && Mark(m, q) == p + |Emit([], [], s, i).value| - 1 && m[Mark(m, q)] == 0
    decreases |s| - i
  {
    hide StoredAt;
    PlainMark(m, s, i, p);
    var scan := ScanLabel(s, i);
    if i < |s| && scan.bytes != [] {
      LabelStored(m, p, scan.bytes, Emit([], [], s, scan.next).value);
      SavedMarks(m, s, scan.next, p + 1 + |scan.bytes|);
    }
  }

  ghost predicate SpellAlike(m: seq<byte>, m': seq<byte>, list: seq<int>) {
    forall k :: 0 <= k < |list| ==> 0 <= list[k] && Decode(m', list[k], list[k]) == Decode(m, list[k], list[k])
  }

  lemma {:induction false} FindAlike(m: seq<byte>, m': seq<byte>, list: seq<int>, s: seq<byte>, i: nat)
    requires i <= |s| && SpellAlike(m, m', list)
    ensures Find(m', list, s, i) == Find(m, list, s, i)
  {
    if list != [] {
      assert MatchEntry(m', list[0], s, i) == MatchEntry(m, list[0], s, i);
      FindAlike(m, m', list[1..], s, i);
    }
  }

  lemma {:induction false} EmitAlike(m: seq<byte>, m': seq<byte>, list: seq<int>, s: seq<byte>, i: nat)
    requires i <= |s| && SpellAlike(m, m', list)
    ensures Emit(m', list, s, i) == Emit(m, list, s, i) && Matched(m', list, s, i) == Matched(m, list, s, i)
    decreases |s| - i
  {
    hide SpellAlike, Find;
    FindAlike(m, m', list, s, i);
    if i < |s| && ScanLabel(s, i).bytes != [] {
      EmitAlike(m, m', list, s, ScanLabel(s, i).next);
    }
  }

  /** The labels of the question spell the same whatever the header and the rest of the message hold. */
  lemma FirstLabelsAlike(m: seq<byte>, m': seq<byte>, name: seq<byte>)
    requires NoNul(name) && Plain(name).Some?
    requires StoredAt(m, HEADER_SIZE, Plain(name).value) && StoredAt(m', HEADER_SIZE, Plain(name).value)
    ensures SpellAlike(m, m', FirstLabels(name, SLOTS))
  {
    var list, e := FirstLabels(name, SLOTS), Plain(name).value;
    FirstLabelsGood(m, name);
    SavedMarks(m, name, 0, HEADER_SIZE);
    TakesFrom(Saved([], [], name, 0, HEADER_SIZE), Room([], SLOTS));
    forall k | 0 <= k < |list|
      ensures 0 <= list[k] && Decode(m', list[k], list[k]) == Decode(m, list[k], list[k])
    {
      assert GoodEntry(m, list[k], HEADER_SIZE + |e|);
      assert forall j :: HEADER_SIZE <= j < HEADER_SIZE + |e| ==> m[j] == m[HEADER_SIZE..HEADER_SIZE + |e|][j - HEADER_SIZE];
      assert forall j :: HEADER_SIZE <= j < HEADER_SIZE + |e| ==> m'[j] == m'[HEADER_SIZE..HEADER_SIZE + |e|][j - HEADER_SIZE];
      PlainFrame(m, m', list[k], list[k], HEADER_SIZE + |e|);
    }
  }

  lemma NotifyParts(m: seq<byte>, id: int, op: int, recurse: bool, msg: seq<byte>, e: seq<byte>, r: seq<byte>)
    requires |msg| >= HEADER_SIZE && StoredAt(m, 0, Header(id, op, recurse, 1, 0, 1) + msg[HEADER_SIZE..] + (e + r))
    ensures |msg| + |e| + |r| <= |m| && m[HEADER_SIZE..|msg|] == msg[HEADER_SIZE..] && StoredAt(m, |msg|, e)
  {
    var h := Header(id, op, recurse, 1, 0, 1);
    StoredParts(m, 0, h + msg[HEADER_SIZE..], e + r);
    StoredParts(m, 0, h, msg[HEADER_SIZE..]);
    StoredParts(m, |msg|, e, r);
  }

  /**
    * The completion domain of a notification reads back from the message, although it may share
    * labels with the question, so long as those are below 0x4000: it starts where the question ends,
    * takes up all but the fixed fields of its record, and spells the same labels up to case.
    */
  lemma CompletionReadsBack(m: seq<byte>, id: int, recurse: bool, name: seq<byte>, kind: int, class_: int,
                            data: seq<byte>, space: int, room: nat)
    requires NoNul(name) && NoNul(data) && Request(id, OP_NOTIFY, recurse, name, kind, class_, Some(data), space).Some?
    requires
      var msg := QueryMessage(id, OP_NOTIFY, recurse, name, kind, class_, space).value;
      Leads(msg, FirstLabels(name, SLOTS), data, 0)
    requires
      var req := Request(id, OP_NOTIFY, recurse, name, kind, class_, Some(data), space).value;
      StoredAt(m, 0, req)
    ensures
      var end := |Request(id, OP_NOTIFY, recurse, name, kind, class_, Some(data), space).value|;
      var at := |QueryMessage(id, OP_NOTIFY, recurse, name, kind, class_, space).value|;
      && at + 1 + RR_SIZE <= end <= |m| && Labels(data, 0).Some? && Openable(m, end, at)
      && var want := Show(Labels(data, 0).value);
      && ExpandResult(m, end, at, room) == (if |want| < room && !HasSpace(want) then end - RR_SIZE - at else -1)
      && Walk(m, end, at, 0).Some? && SameText(Show(Walk(m, end, at, 0).value), want)
      && SkipResult(m, end, at) == end - RR_SIZE - at
  {
    hide Show, Walk, Labels, Emit, ExpandResult, HasSpace, StoredAt, ShortBytes, Decode, SegEnd, FirstLabels, Header, RecordTail;
    var msg := QueryMessage(id, OP_NOTIFY, recurse, name, kind, class_, space).value;
    var req := Request(id, OP_NOTIFY, recurse, name, kind, class_, Some(data), space).value;
    var list, first := FirstLabels(name, SLOTS), Plain(name).value;
    var e := Emit(msg, list, data, 0).value;
    NotifyParts(m, id, OP_NOTIFY, recurse, msg, e, RecordTail(TYPE_NULL, class_, 0));
    NameInMessage(Header(id, OP_NOTIFY, recurse, 1, 0, 0), first, ShortBytes(kind) + ShortBytes(class_), msg);
    StoredInTail(m, msg, first);
    FirstLabelsAlike(msg, m, name);
    EmitAlike(msg, m, list, data, 0);
    FirstLabelsGood(m, name);
    ListStays(m, m, list, HEADER_SIZE + |first|, |msg|);
    assert Sharable(m, m, list, |msg|);
    EmittedDecodes(m, m, list, |msg|, data, 0, |msg|);
    assert Holds(m, Name(data, |msg|, |e|), |msg| + |e|);
    HeldNameExpands(m, Name(data, |msg|, |e|), |msg| + |e|, |req|, room);
  }

  lemma StoredInTail(m: seq<byte>, msg: seq<byte>, e: seq<byte>)
    requires |msg| <= |m| && HEADER_SIZE <= |msg| && m[HEADER_SIZE..|msg|] == msg[HEADER_SIZE..] && StoredAt(msg, HEADER_SIZE, e)
    ensures StoredAt(m, HEADER_SIZE, e)
  {
    assert msg[HEADER_SIZE..][..|e|] == msg[HEADER_SIZE..HEADER_SIZE + |e|];
    assert m[HEADER_SIZE..|msg|][..|e|] == m[HEADER_SIZE..HEADER_SIZE + |e|];
  }
}
