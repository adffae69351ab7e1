/** res_mkquery(): building whole query messages. */
module QueryBuilder {
  import opened Bytes
  import opened Presentation
  import opened NameFind
  import opened NameCompress
  import opened Query

  const RR_SIZE := 10

  const OP_QUERY := 0
  const OP_IQUERY := 1
  const OP_NOTIFY := 4
  const TYPE_NULL := 10

  const NETDB_INTERNAL := -1

  /** The 12 header bytes (section 4.1.1 of RFC 1035) of a request with no authority records. */
  function Header(id: int, op: int, recurse: bool, questions: int, answers: int, additional: int): (r: seq<byte>)
    ensures |r| == HEADER_SIZE
  {
    ShortBytes(id) + [(op % 16) * 8 + (if recurse then 1 else 0), 0]
    + ShortBytes(questions) + ShortBytes(answers) + ShortBytes(0) + ShortBytes(additional)
  }

  /** The fixed part of a resource record with no time to live. */
  function RecordTail(kind: int, class_: int, length: int): (r: seq<byte>)
    ensures |r| == RR_SIZE
  {
    ShortBytes(kind) + ShortBytes(class_) + LongBytes(0) + ShortBytes(length)
  }

  /** Without names to share, what is stored for a name depends on the name alone. */
  lemma {:induction false} EmitAlone(m: seq<byte>, m': seq<byte>, s: seq<byte>, i: nat)
    requires i <= |s|
    ensures Emit(m, [], s, i) == Emit(m', [], s, i)
    decreases |s| - i
  {
    if i < |s| && ScanLabel(s, i).bytes != [] {
      EmitAlone(m, m', s, ScanLabel(s, i).next);
    }
  }

  /** The stored form of the first name of a message. */
  function Plain(name: seq<byte>): Option<seq<byte>> {
    Emit([], [], name, 0)
  }

  /** A query for one name, or nothing when the name is unsound or the message would not fit. */
  function QueryMessage(id: int, op: int, recurse: bool, name: seq<byte>, kind: int, class_: int, room: int): Option<seq<byte>> {
    match Plain(name)
    case None => None
    case Some(e) =>
      if HEADER_SIZE + |e| + QUESTION_SIZE > room then None
      else Some(Header(id, op, recurse, 1, 0, 0) + e + (ShortBytes(kind) + ShortBytes(class_)))
  }

  /** What is stored for a name only depends on the bytes before the end of the listed names. */
  lemma {:induction false} EmitFrame(m: seq<byte>, m': seq<byte>, list: seq<int>, limit: nat, s: seq<byte>, i: nat)
    requires i <= |s| && GoodList(m, list, limit)
    requires limit <= |m| && limit <= |m'| && m[..limit] == m'[..limit]
    ensures Emit(m', list, s, i) == Emit(m, list, s, i)
    decreases |s| - i
  {
    FindFrame(m, m', list, limit, s, i);
    if i < |s| && ScanLabel(s, i).bytes != [] {
      EmitFrame(m, m', list, limit, s, ScanLabel(s, i).next);
    }
  }

  /** The labels of a first name that a second one may share, in a list array of `slots` entries. */
  function FirstLabels(name: seq<byte>, slots: int): seq<int> {
    Take(Saved([], [], name, 0, HEADER_SIZE), Room([], slots))
  }

  const SLOTS := 20

  /** The whole message for each operation, or nothing when it cannot be built in `room` bytes. */
  function Request(id: int, op: int, recurse: bool, name: seq<byte>, kind: int, class_: int,
                   data: Option<seq<byte>>, room: int): Option<seq<byte>>
  {
    if op == OP_IQUERY then
      var d := if data.Some? then data.value else [];
      var msg := Header(id, op, recurse, 0, 1, 0) + ([0] + RecordTail(kind, class_, |d|) + d);
      if |msg| > room then None else Some(msg)
    else if op == OP_QUERY || op == OP_NOTIFY then
      match QueryMessage(id, op, recurse, name, kind, class_, room)
      case None => None
      case Some(msg) =>
        if op == OP_QUERY || data.None? then Some(msg)
        else
          match Emit(msg, FirstLabels(name, SLOTS), data.value, 0)
          case None => None
          case Some(e) =>
            if |msg| + |e| + RR_SIZE > room then None
            else Some(Header(id, op, recurse, 1, 0, 1) + msg[HEADER_SIZE..] + (e + RecordTail(TYPE_NULL, class_, 0)))
    else None
  }

  /** Store bytes from a sequence, as bcopy() does. */
  method Put(buf: array<byte>, at: nat, bytes: seq<byte>)
    requires at + |bytes| <= buf.Length
    modifies buf
    ensures StoredAt(buf[..], at, bytes) && OnlyWithin(old(buf[..]), buf[..], at, at + |bytes|)
  {
    var k := 0;
    while k < |bytes|
      invariant 0 <= k <= |bytes|
      invariant forall j :: 0 <= j < k ==> buf[at + j] == bytes[j]
      invariant OnlyWithin(old(buf[..]), buf[..], at, at + |bytes|)
    {
      buf[at + k] := bytes[k];
      k := k + 1;
    }
    assert buf[..][at..at + |bytes|] == bytes;
  }

  /** Store after what is already stored from `start` on. */
  method Append(buf: array<byte>, at: nat, bytes: seq<byte>, ghost start: nat, ghost done: seq<byte>, ghost m: seq<byte>)
    requires at == start + |done| && at + |bytes| <= buf.Length
    requires StoredAt(buf[..], start, done) && OnlyWithin(m, buf[..], 0, at)
    modifies buf
    ensures StoredAt(buf[..], start, done + bytes) && OnlyWithin(m, buf[..], 0, at + |bytes|)
    ensures buf[..][..at] == old(buf[..])[..at]
  {
    ghost var before := buf[..];
    Put(buf, at, bytes);
    StoredStays(before, buf[..], start, done, at, at + |bytes|);
    StoredMore(buf[..], start, done, bytes);
    PrefixKept(before, buf[..], at, at + |bytes|);
  }

  /** Change a count in the header. */
  method SetCount(buf: array<byte>, p: nat, x: int, ghost h: seq<byte>, ghost h': seq<byte>, ghost body: seq<byte>,
                  ghost m: seq<byte>)
    requires |h| == HEADER_SIZE && p + 2 <= HEADER_SIZE && h' == h[..p] + ShortBytes(x) + h[p + 2..]
    requires StoredAt(buf[..], 0, h + body) && OnlyWithin(m, buf[..], 0, |h| + |body|)
    modifies buf
    ensures StoredAt(buf[..], 0, h' + body) && OnlyWithin(m, buf[..], 0, |h| + |body|)
  {
    ghost var before := buf[..];
    StoredParts(before, 0, h, body);
    Put(buf, p, ShortBytes(x));
    assert StoredAt(buf[..], |h|, body) by {
      assert buf[..][|h|..|h| + |body|] == before[|h|..|h| + |body|];
    }
    assert StoredAt(buf[..], 0, h') by {
      assert before[0..|h|] == h;
      assert buf[..][p..p + 2] == ShortBytes(x);
      assert forall k :: 0 <= k < |h| && !(p <= k < p + 2) ==> buf[k] == h[k];
      assert buf[..][0..|h|] == h';
    }
    StoredMore(buf[..], 0, h', body);
  }

  lemma {:induction false} SavedAlone(m: seq<byte>, m': seq<byte>, s: seq<byte>, i: nat, at: nat)
    requires i <= |s|
    ensures Saved(m, [], s, i, at) == Saved(m', [], s, i, at)
    decreases |s| - i
  {
    if i < |s| && ScanLabel(s, i).bytes != [] {
      SavedAlone(m, m', s, ScanLabel(s, i).next, at + 1 + |ScanLabel(s, i).bytes|);
    }
  }

  lemma FreshList(a: seq<int>)
    requires |a| >= 2 && a[0] == 0 && a[1] == NULL
    ensures Terminated(a) && Known(a) == []
  {
  }

  /** What is known of a question once it is in place after the header h. */
  ghost predicate Asked(m: seq<byte>, m': seq<byte>, a: seq<int>, h: seq<byte>, name: seq<byte>, kind: int, class_: int) {
    var e := Plain(name);
    && e.Some?
    && StoredAt(m', 0, h + (e.value + (ShortBytes(kind) + ShortBytes(class_))))
    && OnlyWithin(m, m', 0, HEADER_SIZE + |e.value| + QUESTION_SIZE)
    && Terminated(a) && Known(a) == FirstLabels(name, SLOTS)
  }

  /** Write the question section: the name, packed first in the message, its type and class. */
  method AddQuestion(name: seq<byte>, kind: int, class_: int, buf: array<byte>, buflen: nat, dnptrs: array<int>,
                     ghost h: seq<byte>, ghost m: seq<byte>) returns (n: int)
    requires NoNul(name) && |h| == HEADER_SIZE <= buflen <= buf.Length
    requires StoredAt(buf[..], 0, h) && OnlyWithin(m, buf[..], 0, HEADER_SIZE)
    requires dnptrs.Length == SLOTS && dnptrs[0] == 0 && dnptrs[1] == NULL && dnptrs as object != buf
    modifies buf, dnptrs
    ensures
      var e := Plain(name);
      n == if e.Some? && HEADER_SIZE + |e.value| + QUESTION_SIZE <= buflen then |e.value| else -1
    ensures n >= 0 ==> Asked(m, buf[..], dnptrs[..], h, name, kind, class_)
    ensures OnlyWithin(m, buf[..], 0, buflen)
  {
    hide Emit, Saved, StoredAt, OnlyWithin, Known, KeepsEntries;
    if buflen - HEADER_SIZE - QUESTION_SIZE < 0 {
      WithinMore(m, buf[..], 0, HEADER_SIZE, buflen);
      return -1;
    }
    ghost var b := buf[..];
    FreshList(dnptrs[..]);
    EmitAlone(b, [], name, 0);
    SavedAlone(b, [], name, 0, HEADER_SIZE);
    n := Compress(name, buf, HEADER_SIZE, buflen - HEADER_SIZE - QUESTION_SIZE, dnptrs, SLOTS);
    if n < 0 {
      WithinBoth(m, b, buf[..], HEADER_SIZE, buflen - QUESTION_SIZE);
      WithinMore(m, buf[..], 0, buflen - QUESTION_SIZE, buflen);
      return;
    }
    ghost var e := Plain(name).value;
    WithinBoth(m, b, buf[..], HEADER_SIZE, HEADER_SIZE + n);
    StoredStays(b, buf[..], 0, h, HEADER_SIZE, HEADER_SIZE + n);
    StoredMore(buf[..], 0, h, e);
    ghost var k, c := ShortBytes(kind), ShortBytes(class_);
    Append(buf, HEADER_SIZE + n, ShortBytes(kind), 0, h + e, m);
    Append(buf, HEADER_SIZE + n + 2, ShortBytes(class_), 0, h + e + k, m);
    assert h + e + k + c == h + (e + (k + c));
    WithinMore(m, buf[..], 0, HEADER_SIZE + n + QUESTION_SIZE, buflen);
  }

  lemma WithinMore(m: seq<byte>, m': seq<byte>, from: nat, to: int, to': int)
    requires OnlyWithin(m, m', from, to) && to <= to'
    ensures OnlyWithin(m, m', from, to')
  {
  }

  lemma WithinBoth(m: seq<byte>, b: seq<byte>, m': seq<byte>, at: nat, to: int)
    requires OnlyWithin(m, b, 0, at) && OnlyWithin(b, m', at, to) && at <= to
    ensures OnlyWithin(m, m', 0, to)
  {
  }

  /** The labels of the first name, listed for a second, are good in any message that starts with that name. */
  lemma FirstLabelsGood(msg: seq<byte>, name: seq<byte>)
    requires NoNul(name) && Plain(name).Some? && StoredAt(msg, HEADER_SIZE, Plain(name).value)
    ensures GoodList(msg, FirstLabels(name, SLOTS), HEADER_SIZE + |Plain(name).value|)
  {
    var saved := Saved([], [], name, 0, HEADER_SIZE);
    assert Sharable([], msg, [], 0);
    SavedAreGood([], msg, [], 0, name, 0, HEADER_SIZE);
    var list := FirstLabels(name, SLOTS);
    forall k | 0 <= k < |list| ensures GoodEntry(msg, list[k], HEADER_SIZE + |Plain(name).value|) {
      assert list[k] == saved[k];
    }
  }

  lemma AskedIsQuery(m: seq<byte>, m': seq<byte>, a: seq<int>, id: int, op: int, recurse: bool, name: seq<byte>,
                     kind: int, class_: int, room: int)
    requires Asked(m, m', a, Header(id, op, recurse, 1, 0, 0), name, kind, class_)
    requires HEADER_SIZE + |Plain(name).value| + QUESTION_SIZE <= room
    ensures
      var r := QueryMessage(id, op, recurse, name, kind, class_, room);
      && r.Some? && |r.value| == HEADER_SIZE + |Plain(name).value| + QUESTION_SIZE
      && StoredAt(m', 0, r.value) && OnlyWithin(m, m', 0, |r.value|)
  {
    var h, e := Header(id, op, recurse, 1, 0, 0), Plain(name).value;
    var tail := ShortBytes(kind) + ShortBytes(class_);
    Regroup(h, e, tail);
  }

  /** Write the completion domain of a notification, which may share labels with the question. */
  method AddCompletion(data: seq<byte>, class_: int, name: seq<byte>, buf: array<byte>, at: nat, room: int,
                       dnptrs: array<int>, ghost msg: seq<byte>, ghost m: seq<byte>) returns (n: int)
    requires NoNul(data) && NoNul(name) && |msg| == at && at + room + RR_SIZE <= buf.Length
    requires Plain(name).Some? && HEADER_SIZE + |Plain(name).value| + QUESTION_SIZE == at
    requires StoredAt(msg, HEADER_SIZE, Plain(name).value)
    requires StoredAt(buf[..], 0, msg) && OnlyWithin(m, buf[..], 0, at)
    requires dnptrs.Length == SLOTS && Terminated(dnptrs[..]) && Known(dnptrs[..]) == FirstLabels(name, SLOTS)
    requires dnptrs as object != buf
    modifies buf, dnptrs
    ensures
      var e := Emit(msg, FirstLabels(name, SLOTS), data, 0);
      && n == (if e.Some? && |e.value| <= room then |e.value| else -1)
      && (n >= 0 ==>
            && StoredAt(buf[..], 0, msg + (e.value + RecordTail(TYPE_NULL, class_, 0)))
            && OnlyWithin(m, buf[..], 0, at + n + RR_SIZE))
    ensures OnlyWithin(m, buf[..], 0, if room < 0 then at else at + room + RR_SIZE)
  {
    hide Emit, Saved, StoredAt, OnlyWithin, Known, KeepsEntries, GoodList, FirstLabels;
    ghost var list, b, top := FirstLabels(name, SLOTS), buf[..], at - QUESTION_SIZE;
    StoredPrefix(b, msg);
    FirstLabelsGood(msg, name);
    assert msg[..at] == msg;
    ListStays(msg, b, list, top, at);
    ListStays(msg, msg, list, top, at);
    EmitFrame(msg, b, list, at, data, 0);
    n := Compress(data, buf, at, room, dnptrs, SLOTS);
    if n < 0 {
      WithinMore(b, buf[..], at, at + room, if room < 0 then at else at + room);
      WithinBoth(m, b, buf[..], at, if room < 0 then at else at + room);
      WithinMore(m, buf[..], 0, if room < 0 then at else at + room, if room < 0 then at else at + room + RR_SIZE);
      return;
    }
    ghost var e, r := Emit(msg, list, data, 0).value, RecordTail(TYPE_NULL, class_, 0);
    WithinBoth(m, b, buf[..], at, at + n);
    StoredStays(b, buf[..], 0, msg, at, at + n);
    StoredMore(buf[..], 0, msg, e);
    Append(buf, at + n, RecordTail(TYPE_NULL, class_, 0), 0, msg + e, m);
    Regroup(msg, e, r);
    WithinMore(m, buf[..], 0, at + n + RR_SIZE, at + room + RR_SIZE);
  }

  lemma StoredPrefix(m: seq<byte>, msg: seq<byte>)
    requires StoredAt(m, 0, msg)
    ensures |msg| <= |m| && m[..|msg|] == msg
  {
  }

  /** What res_mkquery() leaves in the buffer. */
  ghost predicate Built(m: seq<byte>, m': seq<byte>, r: Option<seq<byte>>, room: int, size: int) {
    && size == (if r.Some? then |r.value| else -1)
    && (r.Some? ==> StoredAt(m', 0, r.value) && OnlyWithin(m, m', 0, |r.value|) && |r.value| <= room)
    && OnlyWithin(m, m', 0, room)
  }

  /** The QUERY and NS_NOTIFY_OP cases, after the header has been started. */
  method AskName(id: int, op: int, recurse: bool, name: seq<byte>, kind: int, class_: int, data: Option<seq<byte>>,
                 buf: array<byte>, buflen: nat, ghost m: seq<byte>) returns (size: int)
    requires op == OP_QUERY || op == OP_NOTIFY
    requires NoNul(name) && (op == OP_NOTIFY && data.Some? ==> NoNul(data.value))
    requires HEADER_SIZE <= buflen <= buf.Length
    requires StoredAt(buf[..], 0, Header(id, op, recurse, 0, 0, 0)) && OnlyWithin(m, buf[..], 0, HEADER_SIZE)
    modifies buf
    ensures Built(m, buf[..], Request(id, op, recurse, name, kind, class_, data, buflen), buflen, size)
  {
    hide Emit, Saved, StoredAt, OnlyWithin, Known, KeepsEntries, GoodList, FirstLabels;
    var dnptrs := new int[SLOTS];
    dnptrs[0] := 0;
    dnptrs[1] := NULL;
    ghost var h, h1, h2 := Header(id, op, recurse, 0, 0, 0), Header(id, op, recurse, 1, 0, 0), Header(id, op, recurse, 1, 0, 1);
    var n := AddQuestion(name, kind, class_, buf, buflen, dnptrs, h, m);
    if n < 0 {
      return -1;
    }
    var at: nat := HEADER_SIZE + n + QUESTION_SIZE;
    ghost var body := Plain(name).value + (ShortBytes(kind) + ShortBytes(class_));
    CountsDiffer(id, op, recurse);
    SetCount(buf, 4, 1, h, h1, body, m);
    AskedIsQuery(m, buf[..], dnptrs[..], id, op, recurse, name, kind, class_, buflen);
    ghost var msg := QueryMessage(id, op, recurse, name, kind, class_, buflen).value;
    WithinMore(m, buf[..], 0, at, buflen);
    if op == OP_QUERY || data.None? {
      return at;
    }
    NameInMessage(h1, Plain(name).value, ShortBytes(kind) + ShortBytes(class_), msg);
    var n2 := AddCompletion(data.value, class_, name, buf, at, buflen - at - RR_SIZE, dnptrs, msg, m);
    if n2 < 0 {
      WithinMore(m, buf[..], 0, if buflen - at - RR_SIZE < 0 then at else buflen, buflen);
      return -1;
    }
    ghost var e := Emit(msg, FirstLabels(name, SLOTS), data.value, 0).value + RecordTail(TYPE_NULL, class_, 0);
    assert msg == h1 + msg[HEADER_SIZE..];
    Regroup(h1, msg[HEADER_SIZE..], e);
    SetCount(buf, 10, 1, h1, h2, msg[HEADER_SIZE..] + e, m);
    Regroup(h2, msg[HEADER_SIZE..], e);
    WithinMore(m, buf[..], 0, at + n2 + RR_SIZE, buflen);
    return at + n2 + RR_SIZE;
  }

  lemma CountsDiffer(id: int, op: int, recurse: bool)
    ensures
      var h, h1, h2 := Header(id, op, recurse, 0, 0, 0), Header(id, op, recurse, 1, 0, 0), Header(id, op, recurse, 1, 0, 1);
      && h1 == h[..4] + ShortBytes(1) + h[6..]
      && h2 == h1[..10] + ShortBytes(1) + h1[12..]
      && Header(id, op, recurse, 0, 1, 0) == h[..6] + ShortBytes(1) + h[8..]
  {
  }

  lemma NameInMessage(h: seq<byte>, e: seq<byte>, tail: seq<byte>, msg: seq<byte>)
    requires |h| == HEADER_SIZE && msg == h + e + tail
    ensures StoredAt(msg, HEADER_SIZE, e)
  {
  }

  /** The IQUERY case. */
  method AskInverse(id: int, recurse: bool, kind: int, class_: int, data: seq<byte>,
                    buf: array<byte>, buflen: nat, ghost m: seq<byte>) returns (size: int)
    requires HEADER_SIZE <= buflen <= buf.Length
    requires StoredAt(buf[..], 0, Header(id, OP_IQUERY, recurse, 0, 0, 0)) && OnlyWithin(m, buf[..], 0, HEADER_SIZE)
    modifies buf
    ensures Built(m, buf[..], Request(id, OP_IQUERY, recurse, [], kind, class_, Some(data), buflen), buflen, size)
  {
    hide StoredAt, OnlyWithin;
    if buflen - HEADER_SIZE < 1 + RR_SIZE + |data| {
      WithinMore(m, buf[..], 0, HEADER_SIZE, buflen);
      return -1;
    }
    ghost var h, h1 := Header(id, OP_IQUERY, recurse, 0, 0, 0), Header(id, OP_IQUERY, recurse, 0, 1, 0);
    ghost var r := RecordTail(kind, class_, |data|);
    Append(buf, HEADER_SIZE, [0], 0, h, m);
    Append(buf, HEADER_SIZE + 1, RecordTail(kind, class_, |data|), 0, h + [0], m);
    Append(buf, HEADER_SIZE + 1 + RR_SIZE, data, 0, h + [0] + r, m);
    assert h + [0] + r + data == h + ([0] + r + data);
    CountsDiffer(id, OP_IQUERY, recurse);
    SetCount(buf, 6, 1, h, h1, [0] + r + data, m);
    size := HEADER_SIZE + 1 + RR_SIZE + |data|;
    WithinMore(m, buf[..], 0, size, buflen);
  }

  /** The resolver's state as res_mkquery() uses it: set up or not, recursion wanted, last message id. */
  class Resolver {
    var initialised: bool
    var recurse: bool
    var id: int
    var herrno: int

    /**
      * Build a request in buf.  Setting the resolver up, when still needed, may fail; each request
      * that gets as far as its header takes the next 16-bit id.
      */
    method MakeQuery(op: int, name: seq<byte>, kind: int, class_: int, data: Option<seq<byte>>,
                     buf: array?<byte>, buflen: int, setUpSucceeds: bool) returns (size: int)
      requires NoNul(name) && (op == OP_NOTIFY && data.Some? ==> NoNul(data.value))
      requires buf != null ==> buflen <= buf.Length
      modifies this, buf
      ensures recurse == old(recurse)
      ensures !old(initialised) && !setUpSucceeds ==> size == -1 && id == old(id) && herrno == NETDB_INTERNAL && !initialised
      ensures old(initialised) || setUpSucceeds ==> initialised && herrno == old(herrno)
      ensures
        if !(old(initialised) || setUpSucceeds) || buf == null || buflen < HEADER_SIZE then
          size == -1 && id == old(id) && (buf != null ==> buf[..] == old(buf[..]))
        else
          && id == (old(id) + 1) % 65536
          && Built(old(buf[..]), buf[..], Request(id, op, recurse, name, kind, class_, data, buflen), buflen, size)
    {
      if !initialised && !setUpSucceeds {
        herrno := NETDB_INTERNAL;
        return -1;
      }
      initialised := true;
      if buf == null || buflen < HEADER_SIZE {
        return -1;
      }
      ghost var m := buf[..];
      id := (id + 1) % 65536;
      Put(buf, 0, Header(id, op, recurse, 0, 0, 0));
      if op == OP_QUERY || op == OP_NOTIFY {
        size := AskName(id, op, recurse, name, kind, class_, data, buf, buflen, m);
      } else if op == OP_IQUERY {
        size := AskInverse(id, recurse, kind, class_, if data.Some? then data.value else [], buf, buflen, m);
      } else {
        WithinMore(m, buf[..], 0, HEADER_SIZE, buflen);
        return -1;
      }
    }
  }
}
