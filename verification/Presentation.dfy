/**
  * Domain names in presentation form: dot-separated labels in which `\X` stands for the
  * character X itself (section 5.1 of RFC 1035).
  */
module Presentation {
  import opened Bytes

  type Label = seq<byte>

  const MAX_LABEL := 63

  /** One label read from a string: its bytes, where reading stopped, and whether a lone backslash ended it. */
  datatype Scan = Scan(bytes: Label, next: nat, dangling: bool)

  function ScanLabel(s: seq<byte>, i: nat): (r: Scan)
    requires i <= |s|
    ensures i <= r.next <= |s| && (i < |s| ==> i < r.next)
    ensures |r.bytes| <= r.next - i
    decreases |s| - i
  {
    if i == |s| then Scan([], i, false)
    else if s[i] == DOT then Scan([], i + 1, false)
    else if s[i] == BACKSLASH then
      if i + 1 == |s| then Scan([], i + 1, true)
      else
        var r := ScanLabel(s, i + 2);
        Scan([s[i + 1]] + r.bytes, r.next, r.dangling)
    else
      var r := ScanLabel(s, i + 1);
      Scan([s[i]] + r.bytes, r.next, r.dangling)
  }

  /**
    * The labels spelled by s from position i on.  There are none to speak of when a label is
    * empty or too long; an empty label at the very end only marks the root.
    */
  function Labels(s: seq<byte>, i: nat): (r: Option<seq<Label>>)
    requires i <= |s|
    decreases |s| - i
  {
    if i == |s| then Some([])
    else
      var scan := ScanLabel(s, i);
      if |scan.bytes| == 0 then
        if scan.next == |s| then Some([]) else None
      else if |scan.bytes| > MAX_LABEL then None
      else
        match Labels(s, scan.next)
        case None => None
        case Some(rest) => Some([scan.bytes] + rest)
  }

  /** Every separator of s from i on closes a label, and no backslash is left without a character. */
  predicate Tidy(s: seq<byte>, i: nat)
    requires i <= |s|
    decreases |s| - i
  {
    i == |s| ||
    var scan := ScanLabel(s, i);
    scan.bytes != [] && !scan.dangling && Tidy(s, scan.next)
  }

  ghost predicate GoodLabel(l: Label) {
    1 <= |l| <= MAX_LABEL && NoNul(l)
  }

  ghost predicate GoodLabels(ls: seq<Label>) {
    forall i :: 0 <= i < |ls| ==> GoodLabel(ls[i])
  }

  ghost predicate SameLabels(a: seq<Label>, b: seq<Label>) {
    |a| == |b| && forall i :: 0 <= i < |a| ==> SameText(a[i], b[i])
  }

  function Escape(c: byte): (r: seq<byte>)
    ensures 1 <= |r| <= 2
  {
    if c == DOT || c == BACKSLASH then [BACKSLASH, c] else [c]
  }

  function EscapeLabel(l: Label): (r: seq<byte>)
    ensures |l| <= |r| <= 2 * |l|
  {
    if l == [] then [] else Escape(l[0]) + EscapeLabel(l[1..])
  }

  function Separator(first: bool): seq<byte> {
    if first then [] else [DOT]
  }

  /** The text that follows when labels ls are appended to an empty (first) or non-empty name. */
  function Tail(first: bool, ls: seq<Label>): seq<byte> {
    if ls == [] then []
    else Separator(first) + EscapeLabel(ls[0]) + Tail(false, ls[1..])
  }

  /** The presentation form of a label list, without a trailing dot. */
  function Show(ls: seq<Label>): seq<byte> {
    Tail(true, ls)
  }

  // ----- what scanning yields

  /** From i to j the text writes the label, each byte as it is or behind a backslash, which dots and backslashes need. */
  predicate Writes(s: seq<byte>, i: nat, l: Label, j: nat)
    decreases |l|
  {
    if l == [] then i == j <= |s|
    else
      || (i < |s| && s[i] == l[0] && l[0] != 46 && l[0] != 92 && Writes(s, i + 1, l[1..], j))
      || (i + 1 < |s| && s[i] == 92 && s[i + 1] == l[0] && Writes(s, i + 2, l[1..], j))
  }

  /** What ends a label: a dot, a backslash without a byte behind it, or the end of the text. */
  predicate Bounds(s: seq<byte>, j: nat) {
    j == |s| || (j < |s| && s[j] == 46) || (j + 1 == |s| && s[j] == 92)
  }

  /** However a label is written, it is scanned as that label. */
  lemma {:induction false} ScanReadsWritten(s: seq<byte>, i: nat, l: Label, j: nat)
    requires i <= |s| && Writes(s, i, l, j) && Bounds(s, j)
    ensures ScanLabel(s, i) == Scan(l, if j < |s| then j + 1 else j, j < |s| && s[j] == 92)
    decreases |l|
  {
    if l != [] {
      if s[i] == 92 {
        assert Writes(s, i + 2, l[1..], j);
        ScanReadsWritten(s, i + 2, l[1..], j);
      } else {
        ScanReadsWritten(s, i + 1, l[1..], j);
      }
    }
  }

  /** Whatever is scanned is written there. */
  lemma {:induction false} ScannedIsWritten(s: seq<byte>, i: nat) returns (j: nat)
    requires i <= |s|
    ensures Writes(s, i, ScanLabel(s, i).bytes, j) && Bounds(s, j)
    decreases |s| - i
  {
    if i == |s| || s[i] == DOT || (s[i] == BACKSLASH && i + 1 == |s|) {
      j := i;
    } else {
      j := ScannedIsWritten(s, if s[i] == BACKSLASH then i + 2 else i + 1);
      var l := ScanLabel(s, i).bytes;
      assert l[1..] == ScanLabel(s, if s[i] == BACKSLASH then i + 2 else i + 1).bytes;
    }
  }

  lemma {:induction false} ScanNoNul(s: seq<byte>, i: nat)
    requires i <= |s| && NoNul(s)
    ensures NoNul(ScanLabel(s, i).bytes)
    decreases |s| - i
  {
    if i == |s| || s[i] == DOT {
    } else if s[i] == BACKSLASH {
      if i + 1 < |s| {
        ScanNoNul(s, i + 2);
      }
    } else {
      ScanNoNul(s, i + 1);
    }
  }

  lemma {:induction false} LabelsAreGood(s: seq<byte>, i: nat)
    requires i <= |s| && NoNul(s) && Labels(s, i).Some?
    ensures GoodLabels(Labels(s, i).value)
    decreases |s| - i
  {
    if i < |s| {
      ScanNoNul(s, i);
      var scan := ScanLabel(s, i);
      if |scan.bytes| > 0 {
        LabelsAreGood(s, scan.next);
      }
    }
  }

  // ----- printing and reading back

  lemma EscapeHead(s: seq<byte>, i: nat, l: Label, after: seq<byte>)
    requires i <= |s| && s[i..] == EscapeLabel(l) + after && l != []
    ensures
      var e := Escape(l[0]);
      && i + |e| <= |s|
      && s[i + |e|..] == EscapeLabel(l[1..]) + after
      && s[i] == e[0]
      && (|e| == 2 ==> s[i + 1] == e[1])
  {
    var e, r := Escape(l[0]), EscapeLabel(l[1..]);
    assert EscapeLabel(l) == e + r;
    Regroup(e, r, after);
    DropPrefix(s, i, e, r + after);
    assert s[i + 0] == e[0] && (|e| == 2 ==> s[i + 1] == e[1]);
  }

  /** s[i..j] is label l with its dots and backslashes escaped. */
  ghost predicate EscapedAt(s: seq<byte>, i: nat, l: Label, j: nat)
    decreases |l|
  {
    if l == [] then i == j <= |s|
    else
      var e := Escape(l[0]);
      && i + |e| <= |s| && s[i] == e[0] && (|e| == 2 ==> s[i + 1] == e[1])
      && EscapedAt(s, i + |e|, l[1..], j)
  }

  lemma {:induction false} EscapedThere(s: seq<byte>, i: nat, l: Label, after: seq<byte>)
    requires i <= |s| && s[i..] == EscapeLabel(l) + after
    ensures EscapedAt(s, i, l, |s| - |after|)
    decreases |l|
  {
    if l != [] {
      EscapeHead(s, i, l, after);
      EscapedThere(s, i + |Escape(l[0])|, l[1..], after);
    }
  }

  lemma {:induction false} ScanEscaped(s: seq<byte>, i: nat, l: Label, j: nat)
    requires i <= |s| && EscapedAt(s, i, l, j) && j <= |s|
    requires j < |s| ==> s[j] == DOT
    ensures ScanLabel(s, i) == Scan(l, if j < |s| then j + 1 else j, false)
    decreases |l|
  {
    if l != [] {
      ScanEscaped(s, i + |Escape(l[0])|, l[1..], j);
    }
  }

  lemma TailNothing()
    ensures Tail(true, []) == []
  {
  }

  lemma ShowStep(ls: seq<Label>)
    requires ls != []
    ensures |ls| == 1 ==> Show(ls) == EscapeLabel(ls[0])
    ensures |ls| > 1 ==> Show(ls) == EscapeLabel(ls[0]) + ([DOT] + Show(ls[1..]))
  {
    hide EscapeLabel;
    var e, rest := EscapeLabel(ls[0]), ls[1..];
    assert Tail(true, ls) == [] + e + Tail(false, rest);
    assert [] + e == e;
    if |ls| > 1 {
      var e2, tail := EscapeLabel(rest[0]), Tail(false, rest[1..]);
      assert Tail(false, rest) == [DOT] + e2 + tail && Tail(true, rest) == [] + e2 + tail;
      assert [] + e2 == e2;
      Regroup([DOT], e2, tail);
    } else {
      assert Tail(false, rest) == [] && e + [] == e;
    }
  }

  lemma TailHead(s: seq<byte>, i: nat, ls: seq<Label>)
    requires i <= |s| && s[i..] == Tail(true, ls) && ls != []
    ensures |ls| == 1 ==> s[i..] == EscapeLabel(ls[0]) + [] && i + |EscapeLabel(ls[0])| == |s|
    ensures |ls| > 1 ==>
              var j := i + |EscapeLabel(ls[0])|;
              && s[i..] == EscapeLabel(ls[0]) + ([DOT] + Show(ls[1..]))
              && j < |s| && |s| - j == 1 + |Show(ls[1..])| && s[j] == DOT && s[j + 1..] == Tail(true, ls[1..])
  {
    hide Tail, EscapeLabel;
    ShowStep(ls);
    if |ls| > 1 {
      DropPrefix(s, i, EscapeLabel(ls[0]), [DOT] + Show(ls[1..]));
      DropPrefix(s, i + |EscapeLabel(ls[0])|, [DOT], Show(ls[1..]));
    }
  }

  /** From i on, s shows the labels ls and nothing else. */
  ghost predicate ShownAt(s: seq<byte>, i: nat, ls: seq<Label>)
    decreases |ls|
  {
    if ls == [] then i == |s|
    else
      var j := i + |EscapeLabel(ls[0])|;
      && i <= j <= |s| && EscapedAt(s, i, ls[0], j)
      && if |ls| == 1 then j == |s| else j < |s| && s[j] == DOT && ShownAt(s, j + 1, ls[1..])
  }

  lemma {:induction false} ShownThere(s: seq<byte>, i: nat, ls: seq<Label>)
    requires i <= |s| && s[i..] == Tail(true, ls)
    ensures ShownAt(s, i, ls)
    decreases |ls|
  {
    hide Tail, EscapeLabel, EscapedAt;
    if ls == [] {
      TailNothing();
    } else {
      TailHead(s, i, ls);
      EscapedThere(s, i, ls[0], if |ls| > 1 then [DOT] + Show(ls[1..]) else []);
      if |ls| > 1 {
        ShownThere(s, i + |EscapeLabel(ls[0])| + 1, ls[1..]);
      }
    }
  }

  /** Reading back what was printed gives the same labels. */
  lemma {:induction false} ShownReadsBack(s: seq<byte>, i: nat, ls: seq<Label>)
    requires i <= |s| && GoodLabels(ls) && ShownAt(s, i, ls)
    ensures Labels(s, i) == Some(ls) && Tidy(s, i)
    decreases |ls|
  {
    if ls != [] {
      var j := i + |EscapeLabel(ls[0])|;
      ScanEscaped(s, i, ls[0], j);
      if |ls| > 1 {
        ShownReadsBack(s, j + 1, ls[1..]);
      }
      assert [ls[0]] + ls[1..] == ls;
    }
  }

  /** Printing a label list and reading the text back is the identity, and the text is tidy. */
  lemma ShowReadsBack(ls: seq<Label>)
    requires GoodLabels(ls)
    ensures Labels(Show(ls), 0) == Some(ls)
    ensures Tidy(Show(ls), 0)
  {
    ShownThere(Show(ls), 0, ls);
    ShownReadsBack(Show(ls), 0, ls);
  }

  // ----- how much is escaped

  /** The dots and backslashes of a label. */
  function Marks(l: Label): nat {
    if l == [] then 0 else (if l[0] == 46 || l[0] == 92 then 1 else 0) + Marks(l[1..])
  }

  /** The bytes of the labels, one dot between each two, and one byte for each dot or backslash in a label. */
  function ShownLength(ls: seq<Label>): nat {
    if ls == [] then 0 else |ls[0]| + Marks(ls[0]) + (if |ls| > 1 then 1 else 0) + ShownLength(ls[1..])
  }

  predicate Unmarked(ls: seq<Label>) {
    forall i, k :: 0 <= i < |ls| && 0 <= k < |ls[i]| ==> ls[i][k] != 46 && ls[i][k] != 92
  }

  /** The labels as they are, with single dots between. */
  function DotJoined(ls: seq<Label>): seq<byte> {
    if ls == [] then [] else if |ls| == 1 then ls[0] else ls[0] + [46] + DotJoined(ls[1..])
  }

  lemma {:induction false} EscapedLength(l: Label)
    ensures |EscapeLabel(l)| == |l| + Marks(l)
  {
    if l != [] {
      EscapedLength(l[1..]);
    }
  }

  /** Nothing is escaped but what must be. */
  lemma {:induction false} ShowLength(ls: seq<Label>)
    ensures |Show(ls)| == ShownLength(ls)
    decreases |ls|
  {
    hide EscapeLabel, Marks, Tail;
    if ls == [] {
      TailNothing();
    } else {
      EscapedLength(ls[0]);
      ShowStep(ls);
      if |ls| > 1 {
        ShowLength(ls[1..]);
      } else {
        assert ls[1..] == [];
      }
    }
  }

  lemma {:induction false} EscapedPlain(l: Label)
    requires forall k :: 0 <= k < |l| ==> l[k] != 46 && l[k] != 92
    ensures EscapeLabel(l) == l
  {
    if l != [] {
      EscapedPlain(l[1..]);
    }
  }

  /** Labels without dots and backslashes are shown as they are. */
  lemma {:induction false} ShowPlain(ls: seq<Label>)
    requires Unmarked(ls)
    ensures Show(ls) == DotJoined(ls)
    decreases |ls|
  {
    hide EscapeLabel, Tail;
    if ls == [] {
      TailNothing();
    } else {
      EscapedPlain(ls[0]);
      ShowStep(ls);
      if |ls| > 1 {
        UnmarkedRest(ls);
        ShowPlain(ls[1..]);
        Regroup(ls[0], [46], DotJoined(ls[1..]));
      }
    }
  }

  lemma UnmarkedRest(ls: seq<Label>)
    requires Unmarked(ls) && ls != []
    ensures Unmarked(ls[1..])
  {
    forall i, k | 0 <= i < |ls[1..]| && 0 <= k < |ls[1..][i]|
      ensures ls[1..][i][k] != 46 && ls[1..][i][k] != 92
    {
      assert ls[1..][i] == ls[i + 1];
    }
  }

  // ----- case-insensitive equality carries over to the printed text

  lemma {:induction false} EscapeSame(a: Label, b: Label)
    requires SameText(a, b)
    ensures SameText(EscapeLabel(a), EscapeLabel(b))
    decreases |a|
  {
    if a != [] {
      EscapeSame(a[1..], b[1..]);
      assert SameText(Escape(a[0]), Escape(b[0]));
      SameTextConcat(Escape(a[0]), EscapeLabel(a[1..]), Escape(b[0]), EscapeLabel(b[1..]));
    }
  }

  lemma {:induction false} TailSame(first: bool, a: seq<Label>, b: seq<Label>)
    requires SameLabels(a, b)
    ensures SameText(Tail(first, a), Tail(first, b))
    decreases |a|
  {
    if a != [] {
      EscapeSame(a[0], b[0]);
      TailSame(false, a[1..], b[1..]);
      var x, y := EscapeLabel(a[0]), EscapeLabel(b[0]);
      SameTextConcat(Separator(first), x, Separator(first), y);
      SameTextConcat(Separator(first) + x, Tail(false, a[1..]), Separator(first) + y, Tail(false, b[1..]));
    }
  }

  lemma {:induction false} ShowNoNul(first: bool, ls: seq<Label>)
    requires GoodLabels(ls)
    ensures NoNul(Tail(first, ls))
    decreases |ls|
  {
    if ls != [] {
      EscapeNoNul(ls[0]);
      ShowNoNul(false, ls[1..]);
    }
  }

  lemma {:induction false} EscapeNoNul(l: Label)
    requires NoNul(l)
    ensures NoNul(EscapeLabel(l))
    decreases |l|
  {
    if l != [] {
      EscapeNoNul(l[1..]);
    }
  }

  /** Texts that spell the same labels up to case print the same up to case, and conversely. */
  lemma SameShownIffSameLabels(a: seq<Label>, b: seq<Label>)
    requires GoodLabels(a) && GoodLabels(b)
    ensures SameText(Show(a), Show(b)) <==> SameLabels(a, b)
  {
    if SameLabels(a, b) {
      TailSame(true, a, b);
    }
    if SameText(Show(a), Show(b)) {
      ShowReadsBack(a);
      ShowReadsBack(b);
      SameTextSameLabels(Show(a), Show(b), 0);
    }
  }

  lemma {:induction false} SameTextSameScan(s: seq<byte>, t: seq<byte>, i: nat)
    requires SameText(s, t) && i <= |s|
    ensures SameText(ScanLabel(s, i).bytes, ScanLabel(t, i).bytes)
    ensures ScanLabel(s, i).next == ScanLabel(t, i).next
    decreases |s| - i
  {
    if i < |s| {
      assert Lower(s[i]) == Lower(t[i]);
      assert s[i] == DOT <==> t[i] == DOT;
      assert s[i] == BACKSLASH <==> t[i] == BACKSLASH;
      if s[i] == DOT {
      } else if s[i] == BACKSLASH {
        if i + 1 < |s| {
          SameTextSameScan(s, t, i + 2);
        }
      } else {
        SameTextSameScan(s, t, i + 1);
      }
    }
  }

  lemma {:induction false} SameTextSameLabels(s: seq<byte>, t: seq<byte>, i: nat)
    requires SameText(s, t) && i <= |s|
    ensures Labels(s, i).Some? <==> Labels(t, i).Some?
    ensures Labels(s, i).Some? ==> SameLabels(Labels(s, i).value, Labels(t, i).value)
    decreases |s| - i
  {
    if i < |s| {
      SameTextSameScan(s, t, i);
      SameTextSameLabels(s, t, ScanLabel(s, i).next);
    }
  }
}
