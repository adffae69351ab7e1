/** dn_expand() and __dn_skipname(): reading a possibly compressed name out of a message. */
module NameExpand {
  import opened Bytes
  import opened Presentation
  import opened Wire

  /**
    * The bytes that expanding a name at p looks at are in memory: those of a walk inside the message,
    * or the first two, if both are looked at, of a name that starts past its end.
    */
  predicate Openable(m: seq<byte>, end: nat, p: nat) {
    && end <= |m| && p < |m|
    && if p < end then Stays(m, end, p, 0) else m[p] == 0 || 64 <= m[p] < INDIR || p + 1 < |m|
  }

  /**
    * The labels met from p on.  Nothing keeps the start inside the message: past its end, the root
    * byte and a pointer that leads inside are good, and a label is not.
    */
  function WalkFrom(m: seq<byte>, end: nat, p: nat): (r: Option<seq<Label>>)
    requires Openable(m, end, p)
  {
    if p < end then Walk(m, end, p, 0)
    else if m[p] == 0 then Some([])
    else if m[p] < INDIR then None
    else
      var t := Target(m[p], m[p + 1]);
      if t >= end || 2 >= end then None else Walk(m, end, t, 2)
  }

  /** A name that could be walked has its own bytes in memory. */
  lemma WalkFromEnds(m: seq<byte>, end: nat, p: nat)
    requires Openable(m, end, p) && WalkFrom(m, end, p).Some?
    ensures p < SegEnd(m, p) <= |m|
  {
    if p < end {
      WalkEnds(m, end, p, 0);
    }
  }

  /** What dn_expand() returns for a name at p, given `room` bytes for its text; defined for any bytes. */
  function ExpandResult(m: seq<byte>, end: nat, p: nat, room: nat): int
    requires Openable(m, end, p)
  {
    match WalkFrom(m, end, p)
    case None => -1
    case Some(ls) =>
      if |Show(ls)| >= room || HasSpace(UpToNul(Show(ls))) then -1 else SegEnd(m, p) - p
  }

  /**
    * The expansion of labels `whole`, if there are any, has written `shown` and goes on at cp with
    * `checked` bytes stepped over: it will succeed just when the walk from cp does, with what that adds.
    */
  ghost predicate Pending(m: seq<byte>, end: nat, whole: Option<seq<Label>>, cp: nat, checked: nat, shown: seq<byte>)
    requires cp < end <= |m|
  {
    var left := Walk(m, end, cp, checked);
    && (whole.Some? <==> left.Some?)
    && (whole.Some? ==> Show(whole.value) == shown + Tail(shown == [], left.value))
  }

  lemma PendingStart(m: seq<byte>, end: nat, cp: nat, checked: nat)
    requires cp < end <= |m|
    ensures Pending(m, end, Walk(m, end, cp, checked), cp, checked, [])
  {
  }

  lemma PendingEnd(m: seq<byte>, end: nat, whole: Option<seq<Label>>, cp: nat, checked: nat, shown: seq<byte>)
    requires cp < end <= |m| && m[cp] == 0
    requires Pending(m, end, whole, cp, checked, shown)
    ensures whole.Some? && Show(whole.value) == shown
    ensures SegEnd(m, cp) == cp + 1
  {
  }

  lemma PendingPointer(m: seq<byte>, end: nat, whole: Option<seq<Label>>, cp: nat, checked: nat, shown: seq<byte>)
    requires cp < end <= |m| && m[cp] >= INDIR && Stays(m, end, cp, checked)
    requires Pending(m, end, whole, cp, checked, shown)
    ensures cp + 1 < |m|
    ensures
      var t := Target(m[cp], m[cp + 1]);
      if t >= end || checked + 2 >= end then whole.None?
      else Pending(m, end, whole, t, checked + 2, shown) && Stays(m, end, t, checked + 2)
    ensures SegEnd(m, cp) == cp + 2
  {
  }

  lemma PendingBad(m: seq<byte>, end: nat, whole: Option<seq<Label>>, cp: nat, checked: nat, shown: seq<byte>)
    requires cp < end <= |m| && 64 <= m[cp] < INDIR
    requires Pending(m, end, whole, cp, checked, shown)
    ensures whole.None?
  {
  }

  lemma TailCons(first: bool, l: Label, rest: seq<Label>)
    ensures Tail(first, [l] + rest) == Separator(first) + EscapeLabel(l) + Tail(false, rest)
  {
    assert ([l] + rest)[1..] == rest;
  }

  /** Stepping over a label adds a separator and the escaped label to the text. */
  lemma PendingLabel(m: seq<byte>, end: nat, whole: Option<seq<Label>>, cp: nat, checked: nat, shown: seq<byte>)
    requires cp < end <= |m| && 0 < m[cp] < 64 && Stays(m, end, cp, checked)
    requires Pending(m, end, whole, cp, checked, shown)
    ensures cp + 1 < |m|
    ensures
      var q := cp + 1 + m[cp];
      if q >= end then whole.None?
      else
        var l := EscapeLabel(m[cp + 1..q]);
        && Pending(m, end, whole, q, checked + m[cp] + 1, shown + Separator(shown == []) + l)
        && Stays(m, end, q, checked + m[cp] + 1)
        && (whole.Some? ==> |Show(whole.value)| >= |shown| + |Separator(shown == [])| + |l|)
    ensures SegEnd(m, cp + 1 + m[cp]) == SegEnd(m, cp)
  {
    hide Tail, EscapeLabel, Separator;
    var q := cp + 1 + m[cp];
    if q < end && Walk(m, end, q, checked + m[cp] + 1).Some? {
      var l, rest := m[cp + 1..q], Walk(m, end, q, checked + m[cp] + 1).value;
      TailCons(shown == [], l, rest);
      var sep, e, tail := Separator(shown == []), EscapeLabel(l), Tail(false, rest);
      Regroup(shown, sep + e, tail);
      Regroup(shown, sep, e);
    }
  }

  /**
    * Append a label byte to the text in out[..dn], after a backslash if it needs one, unless the
    * `left` bytes still to come would then leave no byte free before `room`.
    */
  method CopyByte(c: byte, left: nat, out: array<byte>, dn: nat, room: nat) returns (ok: bool, dn': nat)
    requires dn + left + 1 < room <= out.Length
    modifies out
    ensures ok <==> dn + (if c == 46 || c == 92 then 2 else 1) + left < room
    ensures out[room..] == old(out[room..])
    ensures ok ==> dn' <= room && out[..dn'] == old(out[..dn]) + if c == 46 || c == 92 then [92, c] else [c]
  {
    dn' := dn;
    if c == DOT || c == BACKSLASH {
      if dn' + left + 2 >= room {
        return false, dn';
      }
      out[dn'] := BACKSLASH;
      dn' := dn' + 1;
    }
    out[dn'] := c;
    return true, dn' + 1;
  }

  lemma EscapeStep(l: Label, k: nat)
    requires k < |l|
    ensures EscapeLabel(l[k..]) == Escape(l[k]) + EscapeLabel(l[k + 1..])
  {
    assert l[k..][1..] == l[k + 1..];
  }

  /**
    * Append the n label bytes at `at` to the text in out[..dn], a backslash before each dot and
    * backslash.  Fails when the label reaches `end` or leaves no byte free before `room`.
    */
  method CopyLabel(msg: array<byte>, end: nat, at: nat, n: nat, out: array<byte>, dn: nat, room: nat,
    ghost m: seq<byte>)
    returns (ok: bool, dn': nat)
    requires 1 <= n && at <= end <= msg.Length && at < msg.Length && msg != out && m == msg[..]
    requires dn + n < room <= out.Length
    modifies out
    ensures ok <==> at + n < end && dn + |EscapeLabel(m[at..at + n])| < room
    ensures out[room..] == old(out[room..])
    ensures ok ==> dn < dn' < room && out[..dn'] == old(out[..dn]) + EscapeLabel(m[at..at + n])
  {
    ghost var inside := at + n < end;
    ghost var l := if inside then m[at..at + n] else [];
    ghost var whole := out[..dn] + EscapeLabel(l);
    var k := 0;
    dn' := dn;
    assert inside ==> l[0..] == l;
    while k < n
      invariant 0 <= k <= n && at + k <= end && (at + k < end || k == 0)
      invariant dn <= dn' && dn' + (n - k) < room && (k > 0 ==> dn < dn')
      invariant inside ==> |l| == n && whole == out[..dn'] + EscapeLabel(l[k..])
      invariant out[room..] == old(out[room..])
    {
      var c := msg[at + k];
      ghost var before := out[..dn'];
      if inside {
        EscapeStep(l, k);
        Regroup(before, Escape(c), EscapeLabel(l[k + 1..]));
      }
      ok, dn' := CopyByte(c, n - k - 1, out, dn', room);
      if !ok {
        return false, dn';
      }
      k := k + 1;
      if at + k >= end {
        return false, dn';
      }
    }
    ok := true;
  }

  /** Append a separator, unless the text is empty, and then a label as CopyLabel does. */
  method AppendLabel(msg: array<byte>, end: nat, at: nat, n: nat, out: array<byte>, dn: nat, room: nat,
    ghost m: seq<byte>)
    returns (ok: bool, dn': nat)
    requires 1 <= n && at <= end <= msg.Length && at < msg.Length && msg != out && m == msg[..]
    requires dn < room <= out.Length
    modifies out
    ensures ok ==> at + n < end
    ensures !ok ==> at + n >= end || dn + |Separator(dn == 0)| + |EscapeLabel(m[at..at + n])| >= room
    ensures out[room..] == old(out[room..])
    ensures ok ==> dn < dn' < room
    ensures ok ==> out[..dn'] == old(out[..dn]) + Separator(dn == 0) + EscapeLabel(m[at..at + n])
  {
    dn' := dn;
    if dn' != 0 {
      if dn' >= room {
        return false, dn';
      }
      out[dn'] := DOT;
      dn' := dn' + 1;
    }
    assert out[..dn'] == old(out[..dn]) + Separator(dn == 0);
    if dn' + n >= room {
      return false, dn';
    }
    ok, dn' := CopyLabel(msg, end, at, n, out, dn', room, m);
  }

  /** Does the C string in `out`, whose NUL is at `n` at the latest, show white space? */
  method ShowsSpace(out: array<byte>, n: nat) returns (spaced: bool)
    requires n < out.Length && out[n] == 0
    ensures spaced <==> HasSpace(UpToNul(out[..]))
  {
    var i := 0;
    while out[i] != 0
      invariant 0 <= i <= n && NoNul(out[..i])
      invariant forall j :: 0 <= j < i ==> !IsSpace(out[j])
      decreases n - i
    {
      if IsSpace(out[i]) {
        SpaceSeen(out[..], i);
        return true;
      }
      i := i + 1;
    }
    UpToNulWhole(out[..], i);
    return false;
  }

  /** The labels, if there are any, do not fit or their text stands in out[..dn]. */
  ghost predicate Written(whole: Option<seq<Label>>, ok: bool, text: seq<byte>, room: nat) {
    if ok then whole.Some? && text == Show(whole.value)
    else whole.None? || |Show(whole.value)| >= room
  }

  /** A round of the loop that meets a label. */
  method FollowLabel(msg: array<byte>, end: nat, cp: nat, n: nat, out: array<byte>, dn: nat, room: nat, checked: nat,
                     ghost m: seq<byte>, ghost whole: Option<seq<Label>>) returns (ok: bool, dn': nat)
    requires cp < end <= msg.Length && msg != out && m == msg[..] && 0 < n < 64 && n == m[cp]
    requires Stays(m, end, cp, checked)
    requires dn < room <= out.Length && Pending(m, end, whole, cp, checked, out[..dn])
    modifies out
    ensures out[room..] == old(out[room..])
    ensures !ok ==> Written(whole, false, [], room)
    ensures ok ==> cp + 1 + n < end && dn' < room && SegEnd(m, cp + 1 + n) == SegEnd(m, cp)
    ensures ok ==> Pending(m, end, whole, cp + 1 + n, checked + n + 1, out[..dn']) && Stays(m, end, cp + 1 + n, checked + n + 1)
  {
    hide Stays, Pending, Show, EscapeLabel, Walk, SegEnd, Separator;
    ghost var shown := out[..dn];
    PendingLabel(m, end, whole, cp, checked, shown);
    ok, dn' := AppendLabel(msg, end, cp + 1, n, out, dn, room, m);
  }

  /**
    * The main loop of dn_expand(), from cp inside the message on: write the text of the labels
    * `whole` and measure the name at `start`, unless `len` tells its size already.
    */
  method Follow(msg: array<byte>, end: nat, start: nat, at: nat, begun: nat, size: int, out: array<byte>, room: nat,
                ghost whole: Option<seq<Label>>)
    returns (ok: bool, dn: nat, len: int)
    requires at < end <= msg.Length && msg != out && Stays(msg[..], end, at, begun)
    requires if size == -1 then at == start else SegEnd(msg[..], start) == start + size > start
    requires Pending(msg[..], end, whole, at, begun, [])
    requires 1 <= room <= out.Length
    modifies out
    ensures ok ==> dn < room && len == SegEnd(msg[..], start) - start
    ensures dn <= out.Length && Written(whole, ok, out[..dn], room)
    ensures out[room..] == old(out[room..])
  {
    hide Stays, Pending, Show, Tail, EscapeLabel, Walk, SegEnd, Separator, Escape, Target;
    ghost var m := msg[..];
    dn := 0;
    len := size;
    var cp: nat, checked: nat := at, begun;
    assert out[..0] == [];
    while true
      invariant 0 <= cp < end && (len == -1 ==> start <= cp)
      invariant 0 <= dn < room && msg[..] == m
      invariant if len == -1 then SegEnd(m, cp) == SegEnd(m, start) else SegEnd(m, start) == start + len > start
      invariant Pending(m, end, whole, cp, checked, out[..dn]) && Stays(m, end, cp, checked)
      invariant out[room..] == old(out[room..])
      decreases Budget(end, checked), end - cp
    {
      var n: int := msg[cp];
      cp := cp + 1;
      if n == 0 {
        PendingEnd(m, end, whole, cp - 1, checked, out[..dn]);
        break;
      }
      if n < 64 {
        ok, dn := FollowLabel(msg, end, cp - 1, n, out, dn, room, checked, m, whole);
        if !ok {
          return false, 0, len;
        }
        checked := checked + n + 1;
        cp := cp + n;
      } else if n >= INDIR {
        if len < 0 {
          len := cp - start + 1;
        }
        PendingPointer(m, end, whole, cp - 1, checked, out[..dn]);
        cp := Target(n, msg[cp]);
        if cp >= end {
          return false, dn, len;
        }
        checked := checked + 2;
        if checked >= end {
          return false, dn, len;
        }
      } else {
        PendingBad(m, end, whole, cp - 1, checked, out[..dn]);
        return false, dn, len;
      }
    }
    ok := true;
    if len < 0 {
      len := cp - start;
    }
  }

  /**
    * The loop for a name that starts past the end of the message: a label's first byte is copied
    * before the end is noticed.
    */
  method FollowBeyond(msg: array<byte>, end: nat, start: nat, out: array<byte>, room: nat)
    returns (ok: bool, dn: nat, len: int)
    requires Openable(msg[..], end, start) && end <= start && msg != out
    requires 1 <= room <= out.Length
    modifies out
    ensures ok ==> dn < room && len == SegEnd(msg[..], start) - start
    ensures dn <= out.Length && Written(WalkFrom(msg[..], end, start), ok, out[..dn], room)
    ensures out[room..] == old(out[room..])
  {
    hide Pending, Tail, EscapeLabel, Walk, Separator;
    var n: int := msg[start];
    if n == 0 {
      ShowNothing();
      return true, 0, 1;
    }
    if n < 64 {
      if n < room {
        var copied, next := CopyByte(msg[start + 1], n - 1, out, 0, room);
      }
      return false, 0, -1;
    }
    if n < INDIR {
      return false, 0, -1;
    }
    var cp := Target(n, msg[start + 1]);
    if cp >= end || 2 >= end {
      return false, 0, 2;
    }
    PendingStart(msg[..], end, cp, 2);
    OneByteMore(msg[..], end, cp, 2);
    ok, dn, len := Follow(msg, end, start, cp, 2, 2, out, room, Walk(msg[..], end, cp, 2));
  }

  lemma ShowNothing()
    ensures Show([]) == []
  {
  }

  /**
    * Expand the name at `start` into `out`, whose first `room` bytes may be written.  Whatever
    * the bytes are and wherever the name starts, this stops, and it succeeds exactly when the walk
    * does and its text fits and shows no white space.
    */
  method Expand(msg: array<byte>, end: nat, start: nat, out: array<byte>, room: nat) returns (size: int)
    requires Openable(msg[..], end, start) && msg != out
    requires 1 <= room <= out.Length
    modifies out
    ensures size == ExpandResult(msg[..], end, start, room)
    ensures size >= 0 ==>
              var text := Show(WalkFrom(msg[..], end, start).value);
              |text| < room && out[..|text|] == text && out[|text|] == 0
    ensures size >= 0 ==>
              var ls := WalkFrom(msg[..], end, start).value;
              var n := ShownLength(ls);
              n < room && out[n] == 0 && (Unmarked(ls) ==> out[..n] == DotJoined(ls))
    ensures out[room..] == old(out[room..])
  {
    hide Show, Walk, SegEnd, Pending, Unmarked, DotJoined;
    var ok, dn, len;
    if start < end {
      PendingStart(msg[..], end, start, 0);
      ok, dn, len := Follow(msg, end, start, start, 0, -1, out, room, Walk(msg[..], end, start, 0));
    } else {
      ok, dn, len := FollowBeyond(msg, end, start, out, room);
    }
    if !ok {
      return -1;
    }
    ghost var text := out[..dn];
    out[dn] := 0;
    assert out[..dn] == text;
    SameString(text, out[..], dn);
    ghost var ls := WalkFrom(msg[..], end, start).value;
    ShowLength(ls);
    if Unmarked(ls) {
      ShowPlain(ls);
    }
    var spaced := ShowsSpace(out, dn);
    return if spaced then -1 else len;
  }

  /** A buffer that holds a text and a NUL shows the same string as the text alone. */
  lemma {:induction false} SameString(text: seq<byte>, buf: seq<byte>, n: nat)
    requires n == |text| < |buf| && buf[..n] == text && buf[n] == 0
    ensures UpToNul(buf) == UpToNul(text)
    decreases n
  {
    if n > 0 {
      assert text[0] == buf[0];
      assert buf[1..][..n - 1] == text[1..];
      SameString(text[1..], buf[1..], n - 1);
    }
  }

  lemma {:induction false} SpaceSeen(text: seq<byte>, i: nat)
    requires i < |text| && NoNul(text[..i]) && text[i] != 0 && IsSpace(text[i])
    ensures HasSpace(UpToNul(text))
  {
    var r := UpToNul(text);
    assert |r| > i;
    assert r[i] == text[i];
  }

  /** What __dn_skipname() returns: the size of the name's own bytes, if they stay below `end`. */
  function SkipResult(m: seq<byte>, end: nat, p: nat): (r: int)
    requires p <= end <= |m|
    decreases end - p
  {
    if p == end then 0
    else if m[p] == 0 then 1
    else if m[p] < 64 then
      if p + 1 + m[p] > end then -1
      else
        var r := SkipResult(m, end, p + 1 + m[p]);
        if r < 0 then r else r + 1 + m[p]
    else if m[p] >= INDIR then if p + 2 > end then -1 else 2
    else -1
  }

  method SkipName(msg: array<byte>, start: nat, end: nat) returns (size: int)
    requires start <= end <= msg.Length
    ensures size == SkipResult(msg[..], end, start)
  {
    ghost var m := msg[..];
    var cp := start;
    while cp < end
      invariant start <= cp <= end || (cp > end && SkipResult(m, end, start) == -1)
      invariant cp <= end ==>
                  var r := SkipResult(m, end, cp);
                  SkipResult(m, end, start) == if r < 0 then r else r + (cp - start)
      decreases end - cp
    {
      var n: int := msg[cp];
      cp := cp + 1;
      if n == 0 {
        break;
      }
      if n < 64 {
        cp := cp + n;
        continue;
      }
      if n >= INDIR {
        cp := cp + 1;
        break;
      }
      return -1;
    }
    if cp > end {
      return -1;
    }
    return cp - start;
  }

  /**
    * On any bytes, a name the expander accepts is skipped by exactly as much, unless it ends in a
    * pointer cut in two by the end of the message, which only the skipper refuses.
    */
  lemma {:induction false} SkipAgreesWithExpand(m: seq<byte>, end: nat, p: nat, checked: nat)
    requires p < end <= |m| && Walk(m, end, p, checked).Some?
    ensures SkipResult(m, end, p) == if SegEnd(m, p) <= end then SegEnd(m, p) - p else -1
    decreases end - p
  {
    if 0 < m[p] < 64 {
      SkipAgreesWithExpand(m, end, p + 1 + m[p], checked + m[p] + 1);
      WalkEnds(m, end, p + 1 + m[p], checked + m[p] + 1);
    }
  }

  /**
    * An honest name that ends inside the message expands, given room, unless a label shows white
    * space; the size returned is that of its own bytes and the text is that of its labels.
    */
  lemma HonestNameExpands(m: seq<byte>, end: nat, p: nat, room: nat)
    requires p < end <= |m| && Decode(m[..end], p, p).Some?
    ensures Openable(m, end, p)
    ensures
      var ls := Decode(m[..end], p, p).value;
      && Walk(m, end, p, 0) == Some(ls)
      && ExpandResult(m, end, p, room) == (if |Show(ls)| >= room || HasSpace(UpToNul(Show(ls))) then -1
                                           else SegEnd(m[..end], p) - p)
  {
    DecodeEnds(m[..end], p, p);
    GuardAcceptsHonest(m, end, p, p, 0);
    SegEndFrame(m[..end], m, p, SegEnd(m[..end], p));
  }
}
