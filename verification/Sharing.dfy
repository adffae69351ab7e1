/** What dn_comp() stores and lists, said of the labels of a name and not of the scan that finds them. */
module Sharing {
  import opened Bytes
  import opened Presentation
  import opened Wire
  import opened NameFind
  import opened NameCompress

  /** Labels as they are stored in full. */
  function InFull(ls: seq<Label>): seq<byte> {
    if ls == [] then [] else [|ls[0]| % 256] + ls[0] + InFull(ls[1..])
  }

  /** Where label k of the text begins. */
  function Start(s: seq<byte>, i: nat, k: nat): (j: nat)
    requires i <= |s|
    ensures i <= j <= |s|
    decreases k
  {
    if k == 0 then i else Start(s, ScanLabel(s, i).next, k - 1)
  }

  /** Some listed place is spelled like the rest of the text from its label k on. */
  ghost predicate Listable(m: seq<byte>, list: seq<int>, s: seq<byte>, i: nat, k: nat)
    requires i <= |s|
  {
    exists j :: 0 <= j < |list| && Spells(m, list[j], s, Start(s, i, k))
  }

  /** The first n labels in full, then a pointer to q, or without one all labels and a root byte. */
  ghost predicate Shape(e: seq<byte>, ls: seq<Label>, n: nat, q: int)
    requires n <= |ls|
  {
    if q == -1 then n == |ls| && e == InFull(ls) + [0] else q >= 0 && n < |ls| && e == InFull(ls[..n]) + PointerBytes(q)
  }

  lemma InFullCons(l: Label, ls: seq<Label>, n: nat, rest: seq<byte>)
    requires |l| < 256 && n <= |ls|
    ensures InFull(([l] + ls)[..n + 1]) + rest == [|l|] + l + (InFull(ls[..n]) + rest)
    ensures |InFull(([l] + ls)[..n + 1])| == 1 + |l| + |InFull(ls[..n])|
  {
    var all := ([l] + ls)[..n + 1];
    assert all[0] == l && all[1..] == ls[..n];
    Regroup([|l|] + l, InFull(ls[..n]), rest);
  }

  lemma ListableNext(m: seq<byte>, list: seq<int>, s: seq<byte>, i: nat, k: nat)
    requires i < |s| && k > 0
    ensures Listable(m, list, s, i, k) <==> Listable(m, list, s, ScanLabel(s, i).next, k - 1)
  {
  }

  /**
    * The longest listed suffix is shared and no other: the labels before the first one from which on
    * the text is listed are stored in full, and then comes the pointer to the first such place.
    */
  lemma {:induction false} SharesLongest(m: seq<byte>, list: seq<int>, limit: nat, s: seq<byte>, i: nat) returns (n: nat, q: int)
    requires i <= |s| && GoodList(m, list, limit) && Emit(m, list, s, i).Some?
    ensures Labels(s, i).Some? && n <= |Labels(s, i).value| && Shape(Emit(m, list, s, i).value, Labels(s, i).value, n, q)
    ensures forall k :: 0 <= k < n ==> !Listable(m, list, s, i, k)
    ensures q != -1 ==> FirstSpelled(m, list, s, Start(s, i, n), q)
    decreases |s| - i
  {
    hide Spells, PointerBytes, GoodEntry;
    EmitsSoundNames(m, list, limit, s, i);
    FindDecidesEquality(m, list, limit, s, i);
    var scan := ScanLabel(s, i);
    if i < |s| && Find(m, list, s, i) >= 0 {
      n, q := 0, Find(m, list, s, i);
      SpelledHasLabels(m, q, s, i);
      assert InFull([]) + PointerBytes(q) == PointerBytes(q);
    } else if i == |s| || scan.bytes == [] {
      n, q := 0, -1;
      assert InFull([]) + [0] == [0];
    } else {
      n, q := SharesLongest(m, list, limit, s, scan.next);
      var rest := Labels(s, scan.next).value;
      assert Labels(s, i).value == [scan.bytes] + rest;
      InFullCons(scan.bytes, rest, n, if q == -1 then [0] else PointerBytes(q));
      assert rest[..|rest|] == rest && ([scan.bytes] + rest)[..|rest| + 1] == [scan.bytes] + rest;
      n := n + 1;
      forall k | 0 <= k < n
        ensures !Listable(m, list, s, i, k)
      {
        if k > 0 {
          ListableNext(m, list, s, i, k);
        }
      }
    }
  }

  lemma SpelledHasLabels(m: seq<byte>, q: int, s: seq<byte>, i: nat)
    requires i < |s| && Spells(m, q, s, i)
    ensures Labels(s, i).value != []
  {
  }

  /** Is there an empty label at the end of the text, behind the labels from i on? */
  predicate EmptyLast(s: seq<byte>, i: nat, count: nat)
    requires i <= |s|
  {
    Start(s, i, count) < |s|
  }

  /** The places where the labels stored in full begin, and that of the root byte when an empty label ends the text. */
  ghost predicate PlacesOf(saved: seq<int>, s: seq<byte>, i: nat, ls: seq<Label>, n: nat, q: int, at: nat)
    requires i <= |s| && n <= |ls|
  {
    && |saved| == n + (if q == -1 && EmptyLast(s, i, n) then 1 else 0)
    && forall k :: 0 <= k < |saved| ==> saved[k] == at + |InFull(ls[..k])|
  }

  /** What is recorded for sharing: the place of every label stored, in order. */
  lemma {:induction false} SavedPlaces(m: seq<byte>, list: seq<int>, limit: nat, s: seq<byte>, i: nat, at: nat, n: nat, q: int)
    requires i <= |s| && GoodList(m, list, limit) && Emit(m, list, s, i).Some?
    requires Labels(s, i).Some? && n <= |Labels(s, i).value|
    requires forall k :: 0 <= k < n ==> !Listable(m, list, s, i, k)
    requires if q == -1 then n == |Labels(s, i).value| else n < |Labels(s, i).value| && FirstSpelled(m, list, s, Start(s, i, n), q)
    ensures PlacesOf(Saved(m, list, s, i, at), s, i, Labels(s, i).value, n, q, at)
    decreases |s| - i
  {
    hide Spells, GoodEntry, PlacesOf;
    FindDecidesEquality(m, list, limit, s, i);
    var scan, ls, saved := ScanLabel(s, i), Labels(s, i).value, Saved(m, list, s, i, at);
    if i < |s| && scan.bytes != [] && n > 0 {
      assert !Listable(m, list, s, i, 0);
      assert Find(m, list, s, i) == -1;
      var rest := Labels(s, scan.next).value;
      forall k | 0 <= k < n - 1
        ensures !Listable(m, list, s, scan.next, k)
      {
        ListableNext(m, list, s, i, k + 1);
      }
      SavedPlaces(m, list, limit, s, scan.next, at + 1 + |scan.bytes|, n - 1, q);
      PlacesOnward(Saved(m, list, s, scan.next, at + 1 + |scan.bytes|), s, i, rest, n - 1, q, at);
    } else if n == 0 && q == -1 {
      assert ls == [];
      NothingSpelled(m, list, s, i);
      FirstPlace(saved, s, i, ls, q, at);
    } else {
      assert n == 0;
      FirstPlace(saved, s, i, ls, q, at);
    }
  }

  lemma FirstPlace(saved: seq<int>, s: seq<byte>, i: nat, ls: seq<Label>, q: int, at: nat)
    requires i <= |s| && saved == if q == -1 && i < |s| then [at] else []
    ensures PlacesOf(saved, s, i, ls, 0, q, at)
  {
    assert |InFull(ls[..0])| == 0;
  }

  lemma PlacesOnward(saved: seq<int>, s: seq<byte>, i: nat, rest: seq<Label>, n: nat, q: int, at: nat)
    requires i < |s| && 1 <= |ScanLabel(s, i).bytes| <= MAX_LABEL && n <= |rest|
    requires PlacesOf(saved, s, ScanLabel(s, i).next, rest, n, q, at + 1 + |ScanLabel(s, i).bytes|) && (q == -1 ==> n == |rest|)
    ensures PlacesOf([at] + saved, s, i, [ScanLabel(s, i).bytes] + rest, n + 1, q, at)
  {
    hide InFull;
    var l := ScanLabel(s, i).bytes;
    var all, ls := [at] + saved, [l] + rest;
    forall k | 0 <= k < |all|
      ensures all[k] == at + |InFull(ls[..k])|
    {
      if k == 0 {
        NoneInFull(ls);
      } else {
        assert saved[k - 1] == at + 1 + |l| + |InFull(rest[..k - 1])|;
        InFullCons(l, rest, k - 1, []);
      }
    }
  }

  lemma NoneInFull(ls: seq<Label>)
    ensures InFull(ls[..0]) == []
  {
  }

  /** The rest of a text that spells no labels is spelled like no listed place. */
  lemma NothingSpelled(m: seq<byte>, list: seq<int>, s: seq<byte>, i: nat)
    requires i < |s| ==> ScanLabel(s, i).bytes == []
    requires i <= |s|
    ensures i < |s| ==> forall k :: 0 <= k < |list| ==> !Spells(m, list[k], s, i)
  {
  }

  /** Of the places recorded as many as the array has room for are listed, in front of a NULL. */
  lemma ListedPlaces(m: seq<byte>, a: seq<int>, s: seq<byte>, start: nat, length: int, last: int,
                     m': seq<byte>, a': seq<int>, size: nat) returns (r: nat)
    requires Packed(m, a, s, start, length, last, m', a', size) && a != [] && a[0] != NULL
    ensures
      var list, saved := Known(a), Saved(m, Known(a), s, 0, start);
      && r <= |saved| && Known(a') == list + saved[..r]
      && (r > 0 ==> last != NULL && 1 + |Known(a')| < last)
      && (r < |saved| ==> last == NULL || 1 + |Known(a')| >= last - 1)
  {
    hide Emit, Saved, StoredAt, Known;
    var list, saved := Known(a), Saved(m, Known(a), s, 0, start);
    r := |Take(saved, Room(list, last))|;
    assert Take(saved, Room(list, last)) == saved[..r];
  }
}
