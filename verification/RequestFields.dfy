/** The fixed fields of a request, read back as a server would (sections 4.1.1 to 4.1.3 of RFC 1035). */
module RequestFields {
  import opened Bytes
  import opened Presentation
  import opened NameCompress
  import opened Query
  import opened QueryBuilder

  /**
    * The header: the id, a query of that operation with or without recursion and without other flags,
    * and the four counts.
    */
  ghost predicate HasHeader(m: seq<byte>, id: int, op: int, recurse: bool, questions: int, answers: int, additional: int) {
    && |m| >= 12
    && GetShort(m, 0) == id % 65536
    && m[2] < 128 && m[2] / 8 == op % 16 && (m[2] % 8 == if recurse then 1 else 0) && m[3] == 0
    && GetShort(m, 4) == questions % 65536 && GetShort(m, 6) == answers % 65536
    && GetShort(m, 8) == 0 && GetShort(m, 10) == additional % 65536
  }

  /** The fixed fields of a record at p: type, class, no time to live, and the length of its data. */
  ghost predicate HasRecord(m: seq<byte>, p: nat, kind: int, class_: int, length: int) {
    && p + 10 <= |m|
    && GetShort(m, p) == kind % 65536 && GetShort(m, p + 2) == class_ % 65536
    && GetLong(m, p + 4) == 0 && GetShort(m, p + 8) == length % 65536
  }

  lemma HeaderFields(id: int, op: int, recurse: bool, questions: int, answers: int, additional: int)
    ensures HasHeader(Header(id, op, recurse, questions, answers, additional), id, op, recurse, questions, answers, additional)
  {
    var h := Header(id, op, recurse, questions, answers, additional);
    hide GetShort, ShortBytes;
    assert h[0..2] == ShortBytes(id) && h[4..6] == ShortBytes(questions) && h[6..8] == ShortBytes(answers);
    assert h[8..10] == ShortBytes(0) && h[10..12] == ShortBytes(additional);
    ShortRoundTrip(h, 0, id);
    ShortRoundTrip(h, 4, questions);
    ShortRoundTrip(h, 6, answers);
    ShortRoundTrip(h, 8, 0);
    ShortRoundTrip(h, 10, additional);
  }

  lemma RecordFields(kind: int, class_: int, length: int)
    ensures HasRecord(RecordTail(kind, class_, length), 0, kind, class_, length)
  {
    var r := RecordTail(kind, class_, length);
    hide GetShort, GetLong, ShortBytes, LongBytes;
    assert r[0..2] == ShortBytes(kind) && r[2..4] == ShortBytes(class_) && r[4..8] == LongBytes(0) && r[8..10] == ShortBytes(length);
    ShortRoundTrip(r, 0, kind);
    ShortRoundTrip(r, 2, class_);
    LongRoundTrip(r, 4, 0);
    ShortRoundTrip(r, 8, length);
  }

  lemma HeaderInFront(h: seq<byte>, rest: seq<byte>, id: int, op: int, recurse: bool, questions: int, answers: int, additional: int)
    requires HasHeader(h, id, op, recurse, questions, answers, additional)
    ensures HasHeader(h + rest, id, op, recurse, questions, answers, additional)
  {
  }

  lemma RecordWithin(a: seq<byte>, r: seq<byte>, rest: seq<byte>, kind: int, class_: int, length: int)
    requires HasRecord(r, 0, kind, class_, length)
    ensures HasRecord(a + r + rest, |a|, kind, class_, length)
  {
    var m := a + r + rest;
    assert forall k :: 0 <= k < 10 ==> m[|a| + k] == r[k];
  }

  /** An inverse query, operation 1: no question, and one answer record for the root with the data. */
  lemma InverseFields(id: int, recurse: bool, name: seq<byte>, kind: int, class_: int, data: seq<byte>, room: int)
    ensures
      var r := Request(id, 1, recurse, name, kind, class_, Some(data), room);
      && (r.Some? <==> 23 + |data| <= room)
      && (r.Some? ==>
            var m := r.value;
            && |m| == 23 + |data| && HasHeader(m, id, 1, recurse, 0, 1, 0)
            && m[12] == 0 && HasRecord(m, 13, kind, class_, |data|) && m[23..] == data)
  {
    hide Header, RecordTail, HasHeader, HasRecord;
    var h, t := Header(id, 1, recurse, 0, 1, 0), RecordTail(kind, class_, |data|);
    HeaderFields(id, 1, recurse, 0, 1, 0);
    RecordFields(kind, class_, |data|);
    HeaderInFront(h, [0] + t + data, id, 1, recurse, 0, 1, 0);
    RecordWithin(h + [0], t, data, kind, class_, |data|);
    assert h + ([0] + t + data) == h + [0] + t + data;
  }

  /**
    * A query, operation 0, or a notification, operation 4: one question, and a notification with a
    * completion domain has one additional record, of type 10 and with no data behind its name.
    */
  lemma QueryFields(id: int, op: int, recurse: bool, name: seq<byte>, kind: int, class_: int, data: Option<seq<byte>>, room: int)
    requires op == 0 || op == 4
    ensures
      var r := Request(id, op, recurse, name, kind, class_, data, room);
      r.Some? ==>
        var m, more := r.value, op == 4 && data.Some?;
        && HasHeader(m, id, op, recurse, 1, 0, if more then 1 else 0)
        && |m| <= room && (more ==> |m| >= 22 && HasRecord(m, |m| - 10, 10, class_, 0))
  {
    hide Header, RecordTail, HasHeader, HasRecord, Emit, ShortBytes, FirstLabels;
    var r := Request(id, op, recurse, name, kind, class_, data, room);
    if r.Some? {
      var more := op == 4 && data.Some?;
      var h, e := Header(id, op, recurse, 1, 0, if more then 1 else 0), Plain(name).value;
      var tail := ShortBytes(kind) + ShortBytes(class_);
      HeaderFields(id, op, recurse, 1, 0, if more then 1 else 0);
      if more {
        var msg := QueryMessage(id, op, recurse, name, kind, class_, room).value;
        var c, t := Emit(msg, FirstLabels(name, SLOTS), data.value, 0).value, RecordTail(TYPE_NULL, class_, 0);
        RecordFields(10, class_, 0);
        RecordWithin(h + msg[HEADER_SIZE..] + c, t, [], 10, class_, 0);
        assert h + msg[HEADER_SIZE..] + (c + t) == h + msg[HEADER_SIZE..] + c + t + [];
        HeaderInFront(h, msg[HEADER_SIZE..] + (c + t), id, op, recurse, 1, 0, 1);
        assert h + (msg[HEADER_SIZE..] + (c + t)) == h + msg[HEADER_SIZE..] + (c + t);
      } else {
        HeaderInFront(h, e + tail, id, op, recurse, 1, 0, 0);
        Regroup(h, e, tail);
      }
    }
  }
}
