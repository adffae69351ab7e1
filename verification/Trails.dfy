/** What the expander accepts, said without following it: a trail of places that keeps three rules. */
module Trails {
  import opened Bytes
  import opened Presentation
  import opened Wire
  import opened NameExpand

  /** The bytes a label or a pointer takes up. */
  function Stride(m: seq<byte>, p: nat): nat
    requires p < |m|
  {
    if m[p] < 64 then 1 + m[p] else 2
  }

  ghost predicate Inside(ps: seq<nat>, end: nat) {
    forall k :: 0 <= k < |ps| ==> ps[k] < end
  }

  /** All the bytes that the labels and pointers at these places take up. */
  ghost function Crossed(m: seq<byte>, ps: seq<nat>): nat
    requires Inside(ps, |m|)
  {
    if ps == [] then 0 else Stride(m, ps[0]) + Crossed(m, ps[1..])
  }

  /** From ps[k] the next place is the one behind a label, or the one a pointer of the message names. */
  ghost predicate Follows(m: seq<byte>, ps: seq<nat>, k: nat)
    requires k + 1 < |ps| && ps[k] < |m|
  {
    var p := ps[k];
    || (0 < m[p] < 64 && ps[k + 1] == p + 1 + m[p])
    || (m[p] >= 192 && p + 1 < |m| && ps[k + 1] == GetShort(m, p) - 0xC000)
  }

  /**
    * A trail: all its places are before `end`, each follows from the one before, the last is a root
    * byte, and at each pointer fewer than `end` bytes have been crossed, `checked` before the trail.
    */
  ghost predicate Trail(m: seq<byte>, end: nat, ps: seq<nat>, checked: nat)
    requires end <= |m|
  {
    && ps != [] && Inside(ps, end) && m[ps[|ps| - 1]] == 0
    && (forall k :: 0 <= k < |ps| - 1 ==> Follows(m, ps, k))
    && (forall k :: 0 <= k < |ps| - 1 && m[ps[k]] >= 64 ==> checked + Crossed(m, ps[..k + 1]) < end)
  }

  /** The labels on a trail. */
  ghost function Along(m: seq<byte>, ps: seq<nat>): seq<Label>
    requires Inside(ps, |m|)
  {
    if ps == [] then []
    else
      var p := ps[0];
      (if 0 < m[p] < 64 && p + 1 + m[p] <= |m| then [m[p + 1..p + 1 + m[p]]] else []) + Along(m, ps[1..])
  }

  lemma PointerIsLow14(m: seq<byte>, p: nat)
    requires p + 1 < |m| && m[p] >= 192
    ensures Target(m[p], m[p + 1]) == GetShort(m, p) - 0xC000
  {
  }

  /** A stored pointer is the 16-bit number of its two high bits and the offset. */
  lemma PointerOnWire(l: nat)
    requires l < 0x4000
    ensures PointerBytes(l) == ShortBytes(0xC000 + l)
  {
    assert (0xC000 + l) / 256 == 192 + l / 256;
  }

  lemma CrossedCons(m: seq<byte>, p: nat, ps: seq<nat>, k: nat)
    requires p < |m| && Inside(ps, |m|) && k <= |ps|
    ensures Inside([p] + ps, |m|) && Inside(([p] + ps)[..k + 1], |m|)
    ensures Crossed(m, ([p] + ps)[..k + 1]) == Stride(m, p) + Crossed(m, ps[..k])
  {
    hide Stride;
    var qs := ([p] + ps)[..k + 1];
    assert qs[0] == p && qs[1..] == ps[..k];
    assert forall j :: 0 < j < |qs| ==> qs[j] == ps[j - 1];
    assert forall j :: 0 < j < |[p] + ps| ==> ([p] + ps)[j] == ps[j - 1];
  }

  /** A trail that begins one place earlier. */
  lemma TrailBefore(m: seq<byte>, end: nat, p: nat, ps: seq<nat>, checked: nat)
    requires p < end <= |m| && Trail(m, end, ps, checked + Stride(m, p))
    requires Follows(m, [p] + ps, 0) && (m[p] >= 64 ==> checked + Stride(m, p) < end)
    ensures Trail(m, end, [p] + ps, checked)
  {
    hide Crossed, Stride;
    var qs := [p] + ps;
    forall k | 0 <= k < |qs|
      ensures qs[k] < end
    {
      assert k > 0 ==> qs[k] == ps[k - 1];
    }
    forall k | 0 <= k < |qs| - 1
      ensures Follows(m, qs, k) && (m[qs[k]] >= 64 ==> checked + Crossed(m, qs[..k + 1]) < end)
    {
      CrossedCons(m, p, ps, k);
      NothingCrossed(m, ps);
      if k > 0 {
        assert qs[k] == ps[k - 1] && qs[k + 1] == ps[k];
        assert Follows(m, ps, k - 1);
        assert ps[..k] == ps[..k - 1 + 1];
      }
    }
  }

  /** What is left of a trail behind its first place. */
  lemma TrailBehind(m: seq<byte>, end: nat, qs: seq<nat>, checked: nat)
    requires end <= |m| && Trail(m, end, qs, checked) && |qs| > 1
    ensures Trail(m, end, qs[1..], checked + Stride(m, qs[0]))
    ensures m[qs[0]] >= 64 ==> checked + Stride(m, qs[0]) < end
  {
    hide Crossed, Stride;
    var p, ps := qs[0], qs[1..];
    assert qs == [p] + ps && Inside(ps, end);
    CrossedCons(m, p, ps, 0);
    NothingCrossed(m, ps);
    forall k | 0 <= k < |ps| - 1
      ensures Follows(m, ps, k) && (m[ps[k]] >= 64 ==> checked + Stride(m, p) + Crossed(m, ps[..k + 1]) < end)
    {
      CrossedCons(m, p, ps, k + 1);
      assert Follows(m, qs, k + 1);
    }
  }

  lemma NothingCrossed(m: seq<byte>, ps: seq<nat>)
    requires Inside(ps, |m|)
    ensures Inside(ps[..0], |m|) && Crossed(m, ps[..0]) == 0
  {
  }

  lemma AlongStep(m: seq<byte>, ps: seq<nat>)
    requires Inside(ps, |m|) && ps != []
    ensures
      var p := ps[0];
      && (0 < m[p] < 64 && p + 1 + m[p] <= |m| ==> Along(m, ps) == [m[p + 1..p + 1 + m[p]]] + Along(m, ps[1..]))
      && (m[p] >= 64 ==> Along(m, ps) == Along(m, ps[1..]))
      && (m[p] == 0 && |ps| == 1 ==> Along(m, ps) == [])
  {
  }

  lemma TrailStep(m: seq<byte>, end: nat, ps: seq<nat>, checked: nat)
    requires end <= |m| && Trail(m, end, ps, checked) && |ps| > 1
    ensures Inside(ps, end) && Inside(ps[1..], end) && Follows(m, ps, 0)
    ensures Trail(m, end, ps[1..], checked + Stride(m, ps[0]))
    ensures m[ps[0]] >= 64 ==> checked + Stride(m, ps[0]) < end
  {
    hide Crossed, Stride;
    TrailBehind(m, end, ps, checked);
  }

  /** Every trail is followed to its end, and gives its labels. */
  lemma {:induction false} TrailIsWalked(m: seq<byte>, end: nat, ps: seq<nat>, checked: nat)
    requires end <= |m| && Trail(m, end, ps, checked)
    ensures Walk(m, end, ps[0], checked) == Some(Along(m, ps))
    decreases |ps|
  {
    AlongStep(m, ps);
    if |ps| > 1 {
      TrailStep(m, end, ps, checked);
      hide Trail, Along, Crossed, Inside;
      TrailIsWalked(m, end, ps[1..], checked + Stride(m, ps[0]));
      if m[ps[0]] >= 64 {
        PointerIsLow14(m, ps[0]);
      }
    }
  }

  /** What is followed to its end has kept to a trail. */
  lemma {:induction false} WalkKeepsToTrail(m: seq<byte>, end: nat, p: nat, checked: nat) returns (ps: seq<nat>)
    requires p < end <= |m| && Walk(m, end, p, checked).Some?
    ensures Trail(m, end, ps, checked) && ps[0] == p
    decreases Budget(end, checked), end - p
  {
    if m[p] == 0 {
      ps := [p];
    } else {
      var rest;
      if m[p] < 64 {
        rest := WalkKeepsToTrail(m, end, p + 1 + m[p], checked + m[p] + 1);
      } else {
        PointerIsLow14(m, p);
        rest := WalkKeepsToTrail(m, end, Target(m[p], m[p + 1]), checked + 2);
      }
      assert ([p] + rest)[1] == rest[0];
      TrailBefore(m, end, p, rest, checked);
      ps := [p] + rest;
    }
  }

  /**
    * A name inside a message of any bytes can be followed if and only if a trail leads from its start
    * to a root byte, and then its labels are those on the trail.
    */
  lemma FollowedIffTrail(m: seq<byte>, end: nat, p: nat)
    requires p < end <= |m|
    ensures Walk(m, end, p, 0).Some? <==> exists ps :: Trail(m, end, ps, 0) && ps[0] == p
    ensures forall ps :: Trail(m, end, ps, 0) && ps[0] == p ==> Walk(m, end, p, 0) == Some(Along(m, ps))
  {
    hide Along;
    if Walk(m, end, p, 0).Some? {
      var ps := WalkKeepsToTrail(m, end, p, 0);
    }
    forall ps | Trail(m, end, ps, 0) && ps[0] == p
      ensures Walk(m, end, p, 0) == Some(Along(m, ps))
    {
      TrailIsWalked(m, end, ps, 0);
    }
  }

  // ----- the size of a name

  /** A run of labels: each place but the last holds a label, and the next place is behind it. */
  ghost predicate LabelRun(m: seq<byte>, ps: seq<nat>) {
    && ps != [] && forall k :: 0 <= k < |ps| - 1 ==> ps[k] < |m| && 0 < m[ps[k]] < 64 && ps[k + 1] == ps[k] + 1 + m[ps[k]]
  }

  lemma RunBehind(m: seq<byte>, ps: seq<nat>)
    requires LabelRun(m, ps) && |ps| > 1
    ensures LabelRun(m, ps[1..])
  {
    var qs := ps[1..];
    forall k | 0 <= k < |qs| - 1
      ensures qs[k] < |m| && 0 < m[qs[k]] < 64 && qs[k + 1] == qs[k] + 1 + m[qs[k]]
    {
      assert qs[k] == ps[k + 1] && qs[k + 1] == ps[k + 1 + 1];
    }
  }

  lemma {:induction false} RunGoesOn(m: seq<byte>, ps: seq<nat>)
    requires LabelRun(m, ps)
    ensures ps[0] <= ps[|ps| - 1]
    decreases |ps|
  {
    if |ps| > 1 {
      RunBehind(m, ps);
      RunGoesOn(m, ps[1..]);
    }
  }

  /** A name's own bytes are a run of labels with the root byte or a pointer. */
  lemma {:induction false} SizeOfRun(m: seq<byte>, ps: seq<nat>)
    requires LabelRun(m, ps)
    ensures
      var x := ps[|ps| - 1];
      x < |m| ==>
        && (m[x] == 0 ==> SegEnd(m, ps[0]) == x + 1)
        && (m[x] >= 192 && x + 1 < |m| ==> SegEnd(m, ps[0]) == x + 2)
    decreases |ps|
  {
    if |ps| > 1 {
      RunBehind(m, ps);
      SizeOfRun(m, ps[1..]);
    }
  }

  /**
    * __dn_skipname() steps over any run of labels.  Where the run stops decides: behind the end, and
    * at a byte that begins neither a label nor a pointer, it fails; at the end just what was stepped
    * over is the size, and else the root byte or both bytes of the pointer must be before the end.
    */
  lemma {:induction false} SkipsRun(m: seq<byte>, end: nat, ps: seq<nat>)
    requires end <= |m| && LabelRun(m, ps) && ps[0] <= end && forall k :: 0 <= k < |ps| - 1 ==> ps[k] < end
    requires ps[|ps| - 1] < end ==> m[ps[|ps| - 1]] == 0 || m[ps[|ps| - 1]] >= 64
    ensures
      var x := ps[|ps| - 1];
      SkipResult(m, end, ps[0]) ==
      if x > end then -1
      else if x == end then end - ps[0]
      else if m[x] == 0 then x + 1 - ps[0]
      else if m[x] >= 192 && x + 2 <= end then x + 2 - ps[0]
      else -1
    decreases |ps|
  {
    if |ps| > 1 {
      var qs := ps[1..];
      RunBehind(m, ps);
      assert qs[|qs| - 1] == ps[|ps| - 1];
      assert |qs| > 1 ==> ps[1] < end;
      if qs[0] <= end {
        assert forall k :: 0 <= k < |qs| - 1 ==> qs[k] == ps[k + 1];
        RunGoesOn(m, qs);
        SkipsRun(m, end, qs);
      }
    }
  }
}
