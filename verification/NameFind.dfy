/** dn_find(): looking a presentation name up among the names already packed into a message. */
module NameFind {
  import opened Bytes
  import opened Presentation
  import opened Wire

  /**
    * Compare the text at j with one wire label, byte by byte, resolving escapes and ignoring
    * case; the result is where the text goes on.
    */
  function MatchLabel(s: seq<byte>, j: nat, l: Label): (r: Option<nat>)
    requires j <= |s|
    ensures r.Some? ==> j + |l| <= r.value <= |s|
    decreases |l|
  {
    if l == [] then Some(j)
    else if At(s, j) == DOT then None
    else
      var k := if At(s, j) == BACKSLASH then j + 1 else j;
      if k == |s| || Lower(s[k]) != Lower(l[0]) then None else MatchLabel(s, k + 1, l[1..])
  }

  /** Compare the text at i with a whole wire name. */
  predicate MatchAt(s: seq<byte>, i: nat, ls: seq<Label>)
    requires i <= |s|
    decreases |ls|
  {
    if ls == [] then i == |s|
    else
      match MatchLabel(s, i, ls[0])
      case None => false
      case Some(j) => if j == |s| then |ls| == 1 else s[j] == DOT && MatchAt(s, j + 1, ls[1..])
  }

  lemma {:induction false} MatchLabelIsEquality(s: seq<byte>, j: nat, l: Label)
    requires j <= |s|
    ensures
      var scan, r := ScanLabel(s, j), MatchLabel(s, j, l);
      && ((r.Some? && (r.value == |s| || s[r.value] == DOT)) <==> (SameText(scan.bytes, l) && !scan.dangling))
      && (SameText(scan.bytes, l) && !scan.dangling ==>
            scan.next == if r.value == |s| then r.value else r.value + 1)
    decreases |l|
  {
    if l != [] && At(s, j) != DOT {
      var k := if At(s, j) == BACKSLASH then j + 1 else j;
      if k < |s| {
        MatchLabelIsEquality(s, k + 1, l[1..]);
        var scan := ScanLabel(s, k + 1);
        assert ScanLabel(s, j).bytes == [s[k]] + scan.bytes;
        SameTextHead(s[k], scan.bytes, l);
      }
    }
  }

  lemma SameTextHead(c: byte, rest: seq<byte>, l: Label)
    requires l != []
    ensures SameText([c] + rest, l) <==> Lower(c) == Lower(l[0]) && SameText(rest, l[1..])
  {
    if SameText([c] + rest, l) {
      assert ([c] + rest)[0] == c;
      forall i | 0 <= i < |rest| ensures Lower(rest[i]) == Lower(l[1..][i]) {
        assert rest[i] == ([c] + rest)[i + 1];
      }
    }
    if Lower(c) == Lower(l[0]) && SameText(rest, l[1..]) {
      forall i | 0 <= i < |l| ensures Lower(([c] + rest)[i]) == Lower(l[i]) {
        if i > 0 {
          assert l[i] == l[1..][i - 1];
        }
      }
    }
  }

  lemma SameLabelsHead(l: Label, rest: seq<Label>, ls: seq<Label>)
    requires ls != []
    ensures SameLabels([l] + rest, ls) <==> SameText(l, ls[0]) && SameLabels(rest, ls[1..])
  {
    if SameLabels([l] + rest, ls) {
      assert ([l] + rest)[0] == l;
      forall i | 0 <= i < |rest| ensures SameText(rest[i], ls[1..][i]) {
        assert rest[i] == ([l] + rest)[i + 1];
      }
    }
    if SameText(l, ls[0]) && SameLabels(rest, ls[1..]) {
      forall i | 0 <= i < |ls| ensures SameText(([l] + rest)[i], ls[i]) {
        if i > 0 {
          assert ls[i] == ls[1..][i - 1];
        }
      }
    }
  }

  /**
    * The comparison decides name equality: it holds exactly when the text is tidy and spells the
    * same labels up to case.  Untidy texts (`a..`, `a\`), which dn_comp() accepts, match nothing.
    */
  lemma {:induction false} MatchIsEquality(s: seq<byte>, i: nat, ls: seq<Label>)
    requires i <= |s| && forall k :: 0 <= k < |ls| ==> 1 <= |ls[k]| <= MAX_LABEL
    ensures MatchAt(s, i, ls) <==> Tidy(s, i) && Labels(s, i).Some? && SameLabels(Labels(s, i).value, ls)
    decreases |ls|
  {
    if i < |s| && ls != [] {
      MatchLabelIsEquality(s, i, ls[0]);
      var scan := ScanLabel(s, i);
      if SameText(scan.bytes, ls[0]) && !scan.dangling {
        MatchIsEquality(s, scan.next, ls[1..]);
        if Labels(s, scan.next).Some? {
          SameLabelsHead(scan.bytes, Labels(s, scan.next).value, ls);
        }
      } else if Labels(s, i).Some? && scan.bytes != [] {
        SameLabelsHead(scan.bytes, Labels(s, scan.next).value, ls);
      }
    }
  }

  /** A listed offset leads to a label, or the root, of a complete name without NULs that ends by `limit`. */
  ghost predicate GoodEntry(m: seq<byte>, q: int, limit: nat) {
    && 0 <= q
    && Decode(m, q, q).Some? && m[q] < 64
    && GoodLabels(Decode(m, q, q).value)
    && SegEnd(m, q) <= limit
  }

  ghost predicate GoodList(m: seq<byte>, list: seq<int>, limit: nat) {
    forall k :: 0 <= k < |list| ==> GoodEntry(m, list[k], limit)
  }

  /** Does the name at offset q spell the text at i? */
  predicate MatchEntry(m: seq<byte>, q: int, s: seq<byte>, i: nat)
    requires i <= |s|
  {
    0 <= q && Decode(m, q, q).Some? && MatchAt(s, i, Decode(m, q, q).value)
  }

  /** The first listed offset whose name matches, or -1. */
  function Find(m: seq<byte>, list: seq<int>, s: seq<byte>, i: nat): (r: int)
    requires i <= |s|
    ensures r == -1 || (r in list && MatchEntry(m, r, s, i))
  {
    if list == [] then -1
    else if MatchEntry(m, list[0], s, i) then list[0]
    else Find(m, list[1..], s, i)
  }

  /** The name at q is spelled byte by byte like the text at i but for the case of ASCII letters, and the text is tidy. */
  ghost predicate Spells(m: seq<byte>, q: int, s: seq<byte>, i: nat)
    requires i <= |s|
  {
    && 0 <= q && Decode(m, q, q).Some?
    && Tidy(s, i) && Labels(s, i).Some?
    && AlikeLabels(Labels(s, i).value, Decode(m, q, q).value)
  }

  ghost predicate AlikeLabels(a: seq<Label>, b: seq<Label>) {
    |a| == |b| && forall k :: 0 <= k < |a| ==> AlikeText(a[k], b[k])
  }

  /** r is the first listed place spelled like the text, or -1 when none is. */
  ghost predicate FirstSpelled(m: seq<byte>, list: seq<int>, s: seq<byte>, i: nat, r: int)
    requires i <= |s|
  {
    && (r == -1 <==> forall k :: 0 <= k < |list| ==> !Spells(m, list[k], s, i))
    && (r != -1 ==> exists k :: 0 <= k < |list| && list[k] == r && Spells(m, r, s, i)
                                && forall j :: 0 <= j < k ==> !Spells(m, list[j], s, i))
  }

  lemma SameLabelsAreAlike(a: seq<Label>, b: seq<Label>)
    ensures SameLabels(a, b) <==> AlikeLabels(a, b)
  {
    hide SameText, AlikeText;
    forall k | 0 <= k < |a| && k < |b|
      ensures SameText(a[k], b[k]) <==> AlikeText(a[k], b[k])
    {
      SameTextIsAlike(a[k], b[k]);
    }
  }

  lemma MatchIsSpelling(m: seq<byte>, q: int, limit: nat, s: seq<byte>, i: nat)
    requires i <= |s| && GoodEntry(m, q, limit)
    ensures MatchEntry(m, q, s, i) <==> Spells(m, q, s, i)
  {
    hide AlikeLabels, SameLabels;
    var ls := Decode(m, q, q).value;
    DecodedLengths(m, q, q);
    MatchIsEquality(s, i, ls);
    if Labels(s, i).Some? {
      SameLabelsAreAlike(Labels(s, i).value, ls);
    }
  }

  /** dn_find() decides equality with the listed names: the first equal one, or -1 when none is. */
  lemma {:induction false} FindDecidesEquality(m: seq<byte>, list: seq<int>, limit: nat, s: seq<byte>, i: nat)
    requires i <= |s| && GoodList(m, list, limit)
    ensures FirstSpelled(m, list, s, i, Find(m, list, s, i))
    decreases |list|
  {
    if list != [] {
      MatchIsSpelling(m, list[0], limit, s, i);
      hide Spells, MatchEntry, GoodEntry;
      var rest := list[1..];
      FindDecidesEquality(m, rest, limit, s, i);
      var r := Find(m, rest, s, i);
      if !MatchEntry(m, list[0], s, i) && r != -1 {
        var k :| 0 <= k < |rest| && rest[k] == r && Spells(m, r, s, i)
                 && forall j :: 0 <= j < k ==> !Spells(m, rest[j], s, i);
        forall j | 0 <= j < k + 1 ensures !Spells(m, list[j], s, i) {
          if j > 0 {
            assert list[j] == rest[j - 1];
          }
        }
        assert list[k + 1] == r;
      }
      if !MatchEntry(m, list[0], s, i) && r == -1 {
        forall k | 0 <= k < |list| ensures !Spells(m, list[k], s, i) {
          if k > 0 {
            assert list[k] == rest[k - 1];
          }
        }
      }
    }
  }

  /** A search only depends on the bytes before the end of the listed names. */
  lemma {:induction false} FindFrame(m: seq<byte>, m': seq<byte>, list: seq<int>, limit: nat, s: seq<byte>, i: nat)
    requires i <= |s| && GoodList(m, list, limit)
    requires limit <= |m| && limit <= |m'| && m[..limit] == m'[..limit]
    ensures GoodList(m', list, limit) && Find(m', list, s, i) == Find(m, list, s, i)
    decreases |list|
  {
    if list != [] {
      EntryFrame(m, m', list[0], limit);
      FindFrame(m, m', list[1..], limit, s, i);
      forall k | 0 <= k < |list| ensures GoodEntry(m', list[k], limit) {
        if k > 0 {
          assert list[k] == list[1..][k - 1];
        }
      }
    }
  }

  lemma EntryFrame(m: seq<byte>, m': seq<byte>, q: int, limit: nat)
    requires GoodEntry(m, q, limit)
    requires limit <= |m| && limit <= |m'| && m[..limit] == m'[..limit]
    ensures GoodEntry(m', q, limit) && Decode(m', q, q) == Decode(m, q, q)
  {
    DecodeEnds(m, q, q);
    DecodeFrame(m, m', q, q, limit);
    assert m[..limit][q] == m'[..limit][q];
  }

  lemma ListStays(m: seq<byte>, m': seq<byte>, list: seq<int>, top: nat, top': nat)
    requires GoodList(m, list, top) && top <= top' && top <= |m| && top <= |m'| && m[..top] == m'[..top]
    ensures GoodList(m', list, top')
  {
    forall k | 0 <= k < |list| ensures GoodEntry(m', list[k], top') {
      EntryFrame(m, m', list[k], top);
    }
  }

  // ----- the search itself

  method CompareLabel(s: seq<byte>, dn: nat, msg: array<byte>, cp: nat, n: nat) returns (ok: bool, dn': nat)
    requires dn <= |s| && cp + n <= msg.Length && NoNul(msg[cp..cp + n])
    ensures ok <==> MatchLabel(s, dn, msg[cp..cp + n]).Some?
    ensures ok ==> dn' == MatchLabel(s, dn, msg[cp..cp + n]).value <= |s|
  {
    ghost var l := msg[cp..cp + n];
    dn' := dn;
    var k := 0;
    assert l[0..] == l;
    while k < n
      invariant 0 <= k <= n && dn' <= |s|
      invariant MatchLabel(s, dn, l) == MatchLabel(s, dn', l[k..])
    {
      assert l[k..][0] == l[k] == msg[cp + k] && l[k..][1..] == l[k + 1..];
      if At(s, dn') == DOT {
        return false, dn';
      }
      if At(s, dn') == BACKSLASH {
        dn' := dn' + 1;
      }
      if Lower(At(s, dn')) != Lower(msg[cp + k]) {
        return false, dn';
      }
      dn' := dn' + 1;
      k := k + 1;
    }
    ok := true;
  }

  /** A label always follows a pointer, so only the root spells no labels. */
  lemma NoLabelsOnlyAtRoot(m: seq<byte>, floor: nat, p: nat)
    requires floor <= p && Decode(m, floor, p).Some?
    ensures Decode(m, floor, p).value == [] <==> m[p] == 0
  {
    if m[p] >= 64 {
      var t := Target(m[p], m[p + 1]);
      assert Decode(m, t, t).value != [];
    }
  }

  /** The comparison of the name at q with the text at `start` comes down to cp and dn. */
  ghost predicate Comparing(m: seq<byte>, q: int, s: seq<byte>, start: nat, floor: nat, cp: nat, dn: nat) {
    && start <= |s| && dn <= |s| && floor <= cp < |m|
    && Decode(m, floor, cp).Some? && GoodLabels(Decode(m, floor, cp).value)
    && MatchAt(s, dn, Decode(m, floor, cp).value) == MatchEntry(m, q, s, start)
  }

  lemma ComparingStart(m: seq<byte>, q: int, s: seq<byte>, start: nat, limit: nat)
    requires start <= |s| && GoodEntry(m, q, limit)
    ensures 0 <= q && Comparing(m, q, s, start, q, q, start)
  {
  }

  lemma ComparingEnd(m: seq<byte>, q: int, s: seq<byte>, start: nat, floor: nat, cp: nat, dn: nat)
    requires Comparing(m, q, s, start, floor, cp, dn) && m[cp] == 0
    ensures MatchEntry(m, q, s, start) <==> dn == |s|
  {
  }

  lemma ComparingLabel(m: seq<byte>, q: int, s: seq<byte>, start: nat, floor: nat, cp: nat, dn: nat)
    requires Comparing(m, q, s, start, floor, cp, dn) && 0 < m[cp] < 64
    ensures
      var next := cp + 1 + m[cp];
      && next < |m| && NoNul(m[cp + 1..next])
      && match MatchLabel(s, dn, m[cp + 1..next])
         case None => !MatchEntry(m, q, s, start)
         case Some(j) =>
           if j == |s| then MatchEntry(m, q, s, start) <==> m[next] == 0
           else if s[j] == DOT then Comparing(m, q, s, start, floor, next, j + 1)
           else !MatchEntry(m, q, s, start)
  {
    var next := cp + 1 + m[cp];
    var ls := Decode(m, floor, cp).value;
    var rest := Decode(m, floor, next).value;
    assert ls[0] == m[cp + 1..next] && ls[1..] == rest;
    assert GoodLabel(ls[0]);
    forall k | 0 <= k < |rest| ensures GoodLabel(rest[k]) {
      assert rest[k] == ls[k + 1];
    }
    NoLabelsOnlyAtRoot(m, floor, next);
  }

  lemma ComparingPointer(m: seq<byte>, q: int, s: seq<byte>, start: nat, floor: nat, cp: nat, dn: nat)
    requires Comparing(m, q, s, start, floor, cp, dn) && m[cp] >= 64
    ensures m[cp] >= INDIR && cp + 1 < |m|
    ensures
      var t := Target(m[cp], m[cp + 1]);
      t < floor && Comparing(m, q, s, start, t, t, dn)
  {
  }

  /** One round of the search: does the name at q match the text at `start`? */
  method MatchName(s: seq<byte>, start: nat, msg: array<byte>, q: int, ghost limit: nat) returns (matched: bool)
    requires NoNul(s) && start <= |s| && GoodEntry(msg[..], q, limit)
    ensures matched == MatchEntry(msg[..], q, s, start)
  {
    hide Comparing, MatchEntry, GoodEntry, MatchLabel;
    ghost var m := msg[..];
    ComparingStart(m, q, s, start, limit);
    var dn: nat, cp: nat := start, q;
    ghost var floor: nat := q;
    while true
      invariant dn <= |s| && cp < |m| && msg[..] == m
      invariant Comparing(m, q, s, start, floor, cp, dn)
      decreases floor, |m| - cp
    {
      var n: int := msg[cp];
      cp := cp + 1;
      if n == 0 {
        ComparingEnd(m, q, s, start, floor, cp - 1, dn);
        break;
      }
      if n < 64 {
        ComparingLabel(m, q, s, start, floor, cp - 1, dn);
        var ok;
        ok, dn := CompareLabel(s, dn, msg, cp, n);
        if !ok {
          return false;
        }
        cp := cp + n;
        if At(s, dn) == 0 && msg[cp] == 0 {
          return true;
        }
        if At(s, dn) != DOT {
          return false;
        }
        dn := dn + 1;
      } else {
        // a packed name holds nothing but labels and pointers
        ComparingPointer(m, q, s, start, floor, cp - 1, dn);
        cp := Target(n, msg[cp]);
        floor := cp;
      }
    }
    return At(s, dn) == 0;
  }

  /** Search the listed names, dnptrs[first..last], for the text at `start`. */
  method FindName(s: seq<byte>, start: nat, msg: array<byte>, dnptrs: array<int>, first: nat, last: nat,
                  ghost limit: nat) returns (r: int)
    requires NoNul(s) && start <= |s|
    requires first <= last <= dnptrs.Length && GoodList(msg[..], dnptrs[first..last], limit)
    ensures r == Find(msg[..], dnptrs[first..last], s, start)
    ensures FirstSpelled(msg[..], dnptrs[first..last], s, start, r)
  {
    hide MatchEntry, GoodEntry, FirstSpelled;
    ghost var m, list := msg[..], dnptrs[first..last];
    FindDecidesEquality(m, list, limit, s, start);
    var k := first;
    assert list[0..] == list;
    while k < last
      invariant first <= k <= last
      invariant Find(m, list, s, start) == Find(m, list[k - first..], s, start)
    {
      var q := dnptrs[k];
      assert q == list[k - first] && list[k - first..][1..] == list[k - first + 1..];
      var matched := MatchName(s, start, msg, q, limit);
      if matched {
        return q;
      }
      k := k + 1;
    }
    return -1;
  }
}
