/**
  * Names on the wire (sections 3.1 and 4.1.4 of RFC 1035): what a message spells at an offset,
  * which messages are built honestly, and what the expander's walk makes of arbitrary bytes.
  */
module Wire {
  import opened Bytes
  import opened Presentation

  const INDIR := 192

  /** The offset held by the two bytes of a compression pointer. */
  function Target(hi: byte, lo: byte): (t: nat)
    ensures t < 0x4000
  {
    (hi % 64) * 256 + lo
  }

  /** The two bytes stored for a pointer to offset l. */
  function PointerBytes(l: nat): (r: seq<byte>)
    ensures |r| == 2 && r[0] >= INDIR
  {
    [(l / 256) % 64 + INDIR, l % 256]
  }

  /** Nothing checks that an offset fits its 14 bits; a stored pointer leads back exactly when it does. */
  lemma PointerLeadsBack(l: nat)
    ensures Target(PointerBytes(l)[0], PointerBytes(l)[1]) == l <==> l < 0x4000
  {
    var r := PointerBytes(l);
    assert r[0] % 64 == (l / 256) % 64;
    if l < 0x4000 {
      assert (l / 256) % 64 == l / 256;
    }
  }

  /** One past the last byte of the name that starts at p, not following pointers; -1 if it leaves m. */
  function SegEnd(m: seq<byte>, p: nat): (e: int)
    ensures e == -1 || p < e <= |m|
    decreases |m| - p
  {
    if p >= |m| then -1
    else if m[p] == 0 then p + 1
    else if m[p] < 64 then SegEnd(m, p + 1 + m[p])
    else if m[p] >= INDIR && p + 2 <= |m| then p + 2
    else -1
  }

  /**
    * The labels spelled at p in a message whose names were packed one after another: a pointer
    * must lead to a label of a name that was complete before `floor`, the start of its own name.
    */
  function Decode(m: seq<byte>, floor: nat, p: nat): (r: Option<seq<Label>>)
    requires floor <= p
    decreases floor, |m| - p
  {
    if p >= |m| then None
    else if m[p] == 0 then Some([])
    else if m[p] < 64 then
      if p + 1 + m[p] > |m| then None
      else
        match Decode(m, floor, p + 1 + m[p])
        case None => None
        case Some(rest) => Some([m[p + 1..p + 1 + m[p]]] + rest)
    else if m[p] >= INDIR && p + 2 <= |m| then
      var t := Target(m[p], m[p + 1]);
      if t < floor && 0 < SegEnd(m, t) <= floor && 0 < m[t] < 64 then Decode(m, t, t) else None
    else None
  }

  lemma {:induction false} DecodeEnds(m: seq<byte>, floor: nat, p: nat)
    requires floor <= p && Decode(m, floor, p).Some?
    ensures p < SegEnd(m, p) <= |m|
    decreases |m| - p
  {
    if 0 < m[p] < 64 {
      DecodeEnds(m, floor, p + 1 + m[p]);
    }
  }

  /** Raising the floor keeps what a name spells. */
  lemma {:induction false} RaiseFloor(m: seq<byte>, floor: nat, floor': nat, p: nat)
    requires floor <= floor' <= p && Decode(m, floor, p).Some?
    ensures Decode(m, floor', p) == Decode(m, floor, p)
    decreases |m| - p
  {
    if 0 < m[p] < 64 {
      RaiseFloor(m, floor, floor', p + 1 + m[p]);
    }
  }

  lemma {:induction false} SegEndFrame(m: seq<byte>, m': seq<byte>, p: nat, e: nat)
    requires e <= |m| && e <= |m'| && m[..e] == m'[..e]
    requires 0 < SegEnd(m, p) <= e
    ensures SegEnd(m', p) == SegEnd(m, p)
    decreases |m| - p
  {
    assert m[..e][p] == m'[..e][p];
    if 0 < m[p] < 64 {
      SegEndFrame(m, m', p + 1 + m[p], e);
    }
  }

  lemma SliceOfPrefix(m: seq<byte>, e: nat, i: nat, j: nat)
    requires i <= j <= e <= |m|
    ensures m[..e][i..j] == m[i..j]
  {
  }

  /** A name only depends on the bytes before its end. */
  lemma {:induction false} DecodeFrame(m: seq<byte>, m': seq<byte>, floor: nat, p: nat, e: nat)
    requires floor <= p && e <= |m| && e <= |m'| && m[..e] == m'[..e]
    requires Decode(m, floor, p).Some? && SegEnd(m, p) <= e
    ensures Decode(m', floor, p) == Decode(m, floor, p)
    ensures SegEnd(m', p) == SegEnd(m, p)
    decreases floor, |m| - p
  {
    DecodeEnds(m, floor, p);
    assert m[..e][p] == m'[..e][p];
    if m[p] == 0 {
    } else if m[p] < 64 {
      var q := p + 1 + m[p];
      DecodeEnds(m, floor, q);
      DecodeFrame(m, m', floor, q, e);
      SliceOfPrefix(m, e, p + 1, q);
      SliceOfPrefix(m', e, p + 1, q);
    } else {
      assert m[..e][p + 1] == m'[..e][p + 1];
      var t := Target(m[p], m[p + 1]);
      assert m[..e][t] == m'[..e][t];
      SegEndFrame(m, m', t, e);
      DecodeFrame(m, m', t, t, e);
    }
  }

  /** Every label on the wire has 1 to 63 bytes. */
  lemma {:induction false} DecodedLengths(m: seq<byte>, floor: nat, p: nat)
    requires floor <= p && Decode(m, floor, p).Some?
    ensures forall i :: 0 <= i < |Decode(m, floor, p).value| ==> 1 <= |Decode(m, floor, p).value[i]| <= MAX_LABEL
    decreases floor, |m| - p
  {
    if m[p] == 0 {
    } else if m[p] < 64 {
      DecodedLengths(m, floor, p + 1 + m[p]);
    } else {
      var t := Target(m[p], m[p + 1]);
      DecodedLengths(m, t, t);
    }
  }

  // ----- the expander's walk over arbitrary bytes

  function Budget(end: nat, checked: nat): nat {
    if checked < end then end - checked else 0
  }

  /**
    * The labels met when names are followed from p through any bytes whatever.  A label must end
    * before `end`, a pointer must lead below `end`, and the bytes stepped over so far must stay
    * below `end` at each pointer.
    */
  function Walk(m: seq<byte>, end: nat, p: nat, checked: nat): (r: Option<seq<Label>>)
    requires p < end <= |m|
    decreases Budget(end, checked), end - p
  {
    if m[p] == 0 then Some([])
    else if m[p] < 64 then
      if p + 1 + m[p] >= end then None
      else
        match Walk(m, end, p + 1 + m[p], checked + m[p] + 1)
        case None => None
        case Some(rest) => Some([m[p + 1..p + 1 + m[p]]] + rest)
    else if m[p] >= INDIR && p + 1 < |m| then
      var t := Target(m[p], m[p + 1]);
      if t >= end || checked + 2 >= end then None else Walk(m, end, t, checked + 2)
    else None
  }

  /**
    * The walk finds its bytes in memory.  It looks at the byte at `end`, just past the message, when
    * the last byte before it begins a label or a pointer; no other byte past the message is looked at.
    */
  predicate Stays(m: seq<byte>, end: nat, p: nat, checked: nat)
    requires p < end <= |m|
    decreases Budget(end, checked), end - p
  {
    if m[p] == 0 || 64 <= m[p] < INDIR then true
    else if m[p] < 64 then
      p + 1 < |m| && (p + 1 + m[p] < end ==> Stays(m, end, p + 1 + m[p], checked + m[p] + 1))
    else
      && p + 1 < |m|
      && var t := Target(m[p], m[p + 1]);
         (t < end && checked + 2 < end ==> Stays(m, end, t, checked + 2))
  }

  /** One byte of memory past the message is always enough. */
  lemma {:induction false} OneByteMore(m: seq<byte>, end: nat, p: nat, checked: nat)
    requires p < end < |m|
    ensures Stays(m, end, p, checked)
    decreases Budget(end, checked), end - p
  {
    if 0 < m[p] < 64 {
      if p + 1 + m[p] < end {
        OneByteMore(m, end, p + 1 + m[p], checked + m[p] + 1);
      }
    } else if m[p] >= INDIR {
      var t := Target(m[p], m[p + 1]);
      if t < end && checked + 2 < end {
        OneByteMore(m, end, t, checked + 2);
      }
    }
  }

  /** A successful walk has found where the name's own bytes end. */
  lemma {:induction false} WalkEnds(m: seq<byte>, end: nat, p: nat, checked: nat)
    requires p < end <= |m| && Walk(m, end, p, checked).Some?
    ensures p < SegEnd(m, p) <= end + 1
    decreases end - p
  {
    if 0 < m[p] < 64 {
      WalkEnds(m, end, p + 1 + m[p], checked + m[p] + 1);
    }
  }

  /**
    * The loop guard never rejects an honest name: the segments visited are disjoint, so whenever
    * a pointer is met the bytes already stepped over are fewer than the message has.  No byte past
    * the message is looked at.
    */
  lemma {:induction false} GuardAcceptsHonest(m: seq<byte>, end: nat, floor: nat, p: nat, checked: nat)
    requires floor <= p < end <= |m|
    requires Decode(m[..end], floor, p).Some?
    requires checked + (SegEnd(m[..end], p) - p) + floor <= end
    ensures Walk(m, end, p, checked) == Decode(m[..end], floor, p)
    ensures Stays(m, end, p, checked)
    decreases floor, end - p
  {
    var h := m[..end];
    DecodeEnds(h, floor, p);
    assert h[p] == m[p];
    if m[p] == 0 {
    } else if m[p] < 64 {
      var q := p + 1 + m[p];
      DecodeEnds(h, floor, q);
      GuardAcceptsHonest(m, end, floor, q, checked + m[p] + 1);
      assert h[p + 1..q] == m[p + 1..q];
    } else {
      assert h[p + 1] == m[p + 1];
      var t := Target(m[p], m[p + 1]);
      GuardAcceptsHonest(m, end, t, t, checked + 2);
    }
  }
}
