/**
  * The search list of the resolver, as res_init() cuts it out of a `search` line: the line is
  * copied to defdname, a NUL is put behind each domain there, and dnsrch points at the domains.
  */
module SearchList {
  import opened Bytes

  const MAX_DOMAINS := 6
  const MAX_NAME := 1025

  const NEWLINE: byte := 10

  predicate Blank(c: byte) {
    c == 32 || c == 9
  }

  // What the list ought to be

  function SkipBlanks(s: seq<byte>): (r: seq<byte>)
    ensures r != [] ==> !Blank(r[0])
  {
    if s != [] && Blank(s[0]) then SkipBlanks(s[1..]) else s
  }

  function UpToNewline(s: seq<byte>): (r: seq<byte>)
    ensures r <= s
  {
    if s == [] || s[0] == NEWLINE then [] else [s[0]] + UpToNewline(s[1..])
  }

  /** As much of the line as defdname has room for. */
  function Fitting(s: seq<byte>): seq<byte> {
    if |s| < MAX_NAME then s else s[..MAX_NAME - 1]
  }

  /** The text of the search list on a line. */
  function SearchText(line: seq<byte>): seq<byte> {
    UpToNewline(Fitting(SkipBlanks(line)))
  }

  lemma {:induction false} UpToNewlineIs(s: seq<byte>, n: nat)
    requires n <= |s| && NEWLINE !in s[..n] && (n < |s| ==> s[n] == NEWLINE)
    ensures UpToNewline(s) == s[..n]
  {
    if n > 0 {
      assert s[0] == s[..n][0] && s[1..][..n - 1] == s[..n][1..];
      UpToNewlineIs(s[1..], n - 1);
      assert s[..n] == [s[0]] + s[1..][..n - 1];
    }
  }

  lemma {:induction false} BlanksSkipped(s: seq<byte>) returns (i: nat)
    ensures i <= |s| && SkipBlanks(s) == s[i..] && (forall k :: 0 <= k < i ==> s[k] == 32 || s[k] == 9)
    ensures i < |s| ==> s[i] != 32 && s[i] != 9
  {
    if s != [] && Blank(s[0]) {
      i := BlanksSkipped(s[1..]);
      assert s[1..][i..] == s[i + 1..];
      assert forall k :: 0 < k < i + 1 ==> s[k] == s[1..][k - 1];
      i := i + 1;
    } else {
      i := 0;
    }
  }

  lemma {:induction false} NewlineEnds(s: seq<byte>)
    ensures var t := UpToNewline(s); 10 !in t && (|t| < |s| ==> s[|t|] == 10)
  {
    if s != [] && s[0] != NEWLINE {
      NewlineEnds(s[1..]);
    }
  }

  /**
    * What is taken of a line: from its first byte that is neither blank nor tab up to the newline, up
    * to the end, or 1024 bytes.
    */
  lemma SearchTextIs(line: seq<byte>) returns (i: nat)
    ensures i + |SearchText(line)| <= |line| && SearchText(line) == line[i..i + |SearchText(line)|]
    ensures (forall k :: 0 <= k < i ==> line[k] == 32 || line[k] == 9) && (i < |line| ==> line[i] != 32 && line[i] != 9)
    ensures
      var n := |SearchText(line)|;
      && n <= 1024 && 10 !in SearchText(line)
      && (n == 1024 || i + n == |line| || line[i + n] == 10)
  {
    hide SkipBlanks, UpToNewline;
    i := BlanksSkipped(line);
    var rest := line[i..];
    NewlineEnds(Fitting(rest));
    var n := |SearchText(line)|;
    assert SearchText(line) == Fitting(rest)[..n] == rest[..n];
  }

  function WordLen(s: seq<byte>): (n: nat)
    ensures n <= |s|
    ensures forall i :: 0 <= i < n ==> !Blank(s[i])
    ensures n < |s| ==> Blank(s[n])
  {
    if s == [] || Blank(s[0]) then 0 else 1 + WordLen(s[1..])
  }

  /** The words of a text that blanks and tabs separate. */
  function Words(s: seq<byte>): seq<seq<byte>>
    decreases |s|
  {
    if s == [] then []
    else if Blank(s[0]) then Words(s[1..])
    else [s[..WordLen(s)]] + Words(s[WordLen(s)..])
  }

  /** The words with a blank between. */
  function Join(words: seq<seq<byte>>): seq<byte> {
    if words == [] then []
    else if |words| == 1 then words[0]
    else words[0] + ([32] + Join(words[1..]))
  }

  predicate Plain(w: seq<byte>) {
    w != [] && forall i :: 0 <= i < |w| ==> !Blank(w[i])
  }

  lemma FirstWord(w: seq<byte>, rest: seq<byte>)
    requires Plain(w) && (rest != [] ==> Blank(rest[0]))
    ensures Words(w + rest) == [w] + Words(rest)
  {
    var s := w + rest;
    var n := WordLen(s);
    assert s[0] == w[0];
    assert n == |w| by {
      assert forall i :: 0 <= i < |w| ==> s[i] == w[i];
      assert rest != [] ==> s[|w|] == rest[0];
    }
    assert s[..n] == w && s[n..] == rest;
  }

  /** Words written out with a blank between are read back: nothing is split, joined, lost or moved. */
  lemma {:induction false} WordsReadBack(words: seq<seq<byte>>)
    requires forall i :: 0 <= i < |words| ==> Plain(words[i])
    ensures Words(Join(words)) == words
  {
    if words == [] {
    } else if |words| == 1 {
      FirstWord(words[0], []);
      assert words[0] + [] == words[0] && [words[0]] + [] == words;
    } else {
      var rest := [32] + Join(words[1..]);
      FirstWord(words[0], rest);
      assert rest[1..] == Join(words[1..]);
      WordsReadBack(words[1..]);
    }
  }

  /** dnsrch lists the first six words as C strings inside defdname, and then NULL. */
  ghost predicate Lists(defdname: seq<byte>, dnsrch: seq<Option<nat>>, words: seq<seq<byte>>) {
    var m := Min(MAX_DOMAINS, |words|);
    && |dnsrch| == MAX_DOMAINS + 1
    && (forall i :: 0 <= i < m ==> dnsrch[i].Some? && PointsAt(defdname, dnsrch[i].value, words[i]))
    && dnsrch[m] == None
  }

  /** A C string that ends inside the buffer. */
  ghost predicate PointsAt(buf: seq<byte>, p: nat, word: seq<byte>) {
    p + |word| < |buf| && UpToNul(buf[p..]) == word
  }

  // Words by position

  datatype Span = Span(start: nat, end: nat)

  function WordEnd(s: seq<byte>, i: nat): (e: nat)
    requires i <= |s|
    ensures i <= e <= |s|
    ensures forall k :: i <= k < e ==> !Blank(s[k])
    ensures e < |s| ==> Blank(s[e])
    decreases |s| - i
  {
    if i == |s| || Blank(s[i]) then i else WordEnd(s, i + 1)
  }

  function SpansFrom(s: seq<byte>, i: nat): seq<Span>
    requires i <= |s|
    decreases |s| - i
  {
    if i == |s| then []
    else if Blank(s[i]) then SpansFrom(s, i + 1)
    else [Span(i, WordEnd(s, i))] + SpansFrom(s, WordEnd(s, i))
  }

  /** A word of s stands there. */
  predicate IsWord(s: seq<byte>, w: Span) {
    && w.start < w.end <= |s|
    && (forall k :: w.start <= k < w.end ==> !Blank(s[k]))
    && (w.end < |s| ==> Blank(s[w.end]))
  }

  /** The spans are where these words stand in s. */
  ghost predicate Agree(s: seq<byte>, spans: seq<Span>, words: seq<seq<byte>>) {
    && |spans| == |words|
    && forall k :: 0 <= k < |spans| ==> IsWord(s, spans[k]) && s[spans[k].start..spans[k].end] == words[k]
  }

  lemma {:induction false} WordEndIsLen(s: seq<byte>, i: nat)
    requires i <= |s|
    ensures WordEnd(s, i) == i + WordLen(s[i..])
    decreases |s| - i
  {
    if i < |s| && !Blank(s[i]) {
      assert s[i..][1..] == s[i + 1..];
      WordEndIsLen(s, i + 1);
    }
  }

  /** The positions and the words agree. */
  lemma {:induction false} SpansAreWords(s: seq<byte>, i: nat)
    requires i <= |s|
    ensures Agree(s, SpansFrom(s, i), Words(s[i..]))
    decreases |s| - i
  {
    assert Agree(s, [], []);
    assert i < |s| && !Blank(s[i]) ==> WordEnd(s, i) > i;
    hide Agree, IsWord, WordEnd, WordLen, Blank;
    var t := s[i..];
    if i == |s| {
    } else if Blank(s[i]) {
      assert t[0] == s[i] && t[1..] == s[i + 1..];
      SpansAreWords(s, i + 1);
    } else {
      WordEndIsLen(s, i);
      var e := WordEnd(s, i);
      assert t[0] == s[i] && t[e - i..] == s[e..] && t[..e - i] == s[i..e];
      SpansAreWords(s, e);
      AgreeCons(s, Span(i, e), SpansFrom(s, e), Words(s[e..]));
    }
  }

  lemma AgreeCons(s: seq<byte>, w: Span, spans: seq<Span>, words: seq<seq<byte>>)
    requires Agree(s, spans, words)
    requires w.start < w.end <= |s| && w.end == WordEnd(s, w.start)
    ensures Agree(s, [w] + spans, [s[w.start..w.end]] + words)
  {
    hide WordEnd;
  }

  // Cutting

  /** The buffer holds the text as a C string, but with NULs for the blanks before cp. */
  ghost predicate Cut(buf: seq<byte>, text: seq<byte>, cp: nat) {
    && |text| < |buf|
    && (forall k :: 0 <= k < |text| ==> buf[k] == if k < cp && Blank(text[k]) then 0 else text[k])
    && buf[|text|] == 0
  }

  /** The words found so far: `after` says whether cp is behind a blank, else it is in the last word. */
  ghost predicate Found(text: seq<byte>, cp: nat, after: bool, found: seq<Span>) {
    && cp <= |text|
    && SpansFrom(text, 0) == found + SpansFrom(text, if after then cp else WordEnd(text, cp))
    && (forall i :: 0 <= i < |found| ==> IsWord(text, found[i]))
    && (forall i :: 0 <= i < |found| - 1 ==> found[i].end < cp)
    && (found != [] ==> if after then found[|found| - 1].end < cp else found[|found| - 1].end == WordEnd(text, cp))
  }

  lemma FoundFirst(text: seq<byte>)
    requires text != [] && !Blank(text[0])
    ensures Found(text, 0, false, [Span(0, WordEnd(text, 0))])
  {
  }

  lemma FoundBlank(text: seq<byte>, cp: nat, after: bool, found: seq<Span>)
    requires Found(text, cp, after, found) && cp < |text| && Blank(text[cp])
    ensures Found(text, cp + 1, true, found)
  {
  }

  lemma FoundWord(text: seq<byte>, cp: nat, found: seq<Span>)
    requires Found(text, cp, true, found) && cp < |text| && !Blank(text[cp])
    ensures Found(text, cp + 1, false, found + [Span(cp, WordEnd(text, cp))])
  {
    assert WordEnd(text, cp) == WordEnd(text, cp + 1);
    Regroup(found, [Span(cp, WordEnd(text, cp))], SpansFrom(text, WordEnd(text, cp)));
  }

  lemma FoundMore(text: seq<byte>, cp: nat, found: seq<Span>)
    requires Found(text, cp, false, found) && cp < |text| && !Blank(text[cp])
    ensures Found(text, cp + 1, false, found)
  {
    assert WordEnd(text, cp) == WordEnd(text, cp + 1);
  }

  /** A word whose end has been cut is a C string. */
  lemma WordIsString(buf: seq<byte>, text: seq<byte>, cp: nat, w: Span)
    requires Cut(buf, text, cp) && NoNul(text) && IsWord(text, w) && (w.end < cp || w.end == |text|)
    ensures PointsAt(buf, w.start, text[w.start..w.end])
  {
    var s, n := buf[w.start..], w.end - w.start;
    assert s[..n] == text[w.start..w.end];
    UpToNulWhole(s, n);
  }

  /** The pointers stored are those of the words found. */
  ghost predicate Points(dnsrch: seq<Option<nat>>, found: seq<Span>) {
    |found| <= |dnsrch| && forall i :: 0 <= i < |found| ==> dnsrch[i] == Some(found[i].start)
  }

  lemma ListsWords(buf: seq<byte>, dnsrch: seq<Option<nat>>, text: seq<byte>, cp: nat, found: seq<Span>)
    requires Cut(buf, text, cp) && NoNul(text)
    requires |dnsrch| == MAX_DOMAINS + 1 && |found| <= MAX_DOMAINS
    requires Points(dnsrch, found) && dnsrch[|found|] == None
    requires found <= SpansFrom(text, 0) && (|found| < MAX_DOMAINS ==> found == SpansFrom(text, 0))
    requires forall i :: 0 <= i < |found| ==> found[i].end < cp || found[i].end == |text|
    ensures Lists(buf, dnsrch, Words(text))
  {
    hide Cut, PointsAt, SpansFrom, Words, IsWord;
    SpansAreWords(text, 0);
    assert text[0..] == text;
    forall i | 0 <= i < |found|
      ensures dnsrch[i].Some? && PointsAt(buf, dnsrch[i].value, Words(text)[i])
    {
      assert found[i] == SpansFrom(text, 0)[i];
      WordIsString(buf, text, cp, found[i]);
    }
    assert |found| == Min(MAX_DOMAINS, |Words(text)|);
  }

  /** Behind a blank, or at the end of the text, every word found has ended. */
  lemma AllEnded(text: seq<byte>, cp: nat, after: bool, found: seq<Span>)
    requires Found(text, cp, after, found) && (after || cp == |text|)
    ensures found <= SpansFrom(text, 0) && (cp == |text| ==> found == SpansFrom(text, 0))
    ensures forall i :: 0 <= i < |found| ==> found[i].end < cp || found[i].end == |text|
  {
    hide IsWord;
  }

  /** Cut the text in defdname up into the list dnsrch. */
  method Tokenise(defdname: array<byte>, dnsrch: array<Option<nat>>, ghost text: seq<byte>)
    requires defdname.Length == MAX_NAME && dnsrch.Length == MAX_DOMAINS + 1
    requires Cut(defdname[..], text, 0) && NoNul(text) && text != [] && !Blank(text[0])
    requires defdname[MAX_NAME - 1] == 0
    modifies defdname, dnsrch
    ensures Lists(defdname[..], dnsrch[..], Words(text))
    ensures defdname[MAX_NAME - 1] == 0
  {
    hide Found, Lists, SpansFrom, Words, WordEnd, IsWord, Agree, PointsAt;
    var cp, pp: nat := 0, 0;
    ghost var found := [Span(0, WordEnd(text, 0))];
    dnsrch[pp] := Some(cp);
    pp := pp + 1;
    FoundFirst(text);
    var n := false;
    while defdname[cp] != 0 && pp < MAX_DOMAINS
      invariant cp <= |text| && 0 < pp <= MAX_DOMAINS && |found| == pp
      invariant Cut(defdname[..], text, cp) && Found(text, cp, n, found) && Points(dnsrch[..], found)
      invariant defdname[MAX_NAME - 1] == 0 && (pp == MAX_DOMAINS ==> !n)
      decreases |text| - cp
    {
      if defdname[cp] == 32 || defdname[cp] == 9 {
        defdname[cp] := 0;
        FoundBlank(text, cp, n, found);
        n := true;
      } else if n {
        FoundWord(text, cp, found);
        found := found + [Span(cp, WordEnd(text, cp))];
        dnsrch[pp] := Some(cp);
        pp := pp + 1;
        n := false;
      } else {
        FoundMore(text, cp, found);
      }
      cp := cp + 1;
    }
    while defdname[cp] != 0 && defdname[cp] != 32 && defdname[cp] != 9
      invariant cp <= |text| && Cut(defdname[..], text, cp) && Found(text, cp, n, found)
      invariant defdname[cp] == 0 || (pp == MAX_DOMAINS && !n)
      decreases |text| - cp
      modifies {}
    {
      FoundMore(text, cp, found);
      cp := cp + 1;
    }
    ghost var end, after := cp, n;
    if cp < |text| {
      FoundBlank(text, cp, n, found);
      end, after := cp + 1, true;
    }
    defdname[cp] := 0;
    AllEnded(text, end, after, found);
    dnsrch[pp] := None;
    pp := pp + 1;
    ListsWords(defdname[..], dnsrch[..], text, end, found);
  }

  /** Copy what fits of the line from cp on into defdname, up to a newline. */
  method CopyText(line: seq<byte>, cp: nat, defdname: array<byte>)
    requires NoNul(line) && cp <= |line| && defdname.Length == MAX_NAME && defdname[MAX_NAME - 1] == 0
    modifies defdname
    ensures Cut(defdname[..], UpToNewline(Fitting(line[cp..])), 0)
    ensures defdname[MAX_NAME - 1] == 0
  {
    hide UpToNewline;
    ghost var s := Fitting(line[cp..]);
    forall k | 0 <= k < MAX_NAME - 1 {
      defdname[k] := if cp + k < |line| then line[cp + k] else 0;
    }
    assert forall k :: 0 <= k < |s| ==> defdname[k] == s[k];
    var nl := 0;
    while defdname[nl] != 0 && defdname[nl] != NEWLINE
      invariant nl <= |s| && NEWLINE !in s[..nl]
      decreases MAX_NAME - nl
      modifies {}
    {
      nl := nl + 1;
    }
    UpToNewlineIs(s, nl);
    if defdname[nl] == NEWLINE {
      defdname[nl] := 0;
    }
  }

  /**
    * The part of res_init() that reads a `search` line, given what follows the keyword; a line
    * without a domain is ignored.
    */
  method SetSearch(line: seq<byte>, defdname: array<byte>, dnsrch: array<Option<nat>>) returns (taken: bool)
    requires NoNul(line) && defdname.Length == MAX_NAME && dnsrch.Length == MAX_DOMAINS + 1
    requires defdname[MAX_NAME - 1] == 0
    modifies defdname, dnsrch
    ensures taken <==> SearchText(line) != []
    ensures taken ==> Lists(defdname[..], dnsrch[..], Words(SearchText(line)))
    ensures !taken ==> defdname[..] == old(defdname[..]) && dnsrch[..] == old(dnsrch[..])
    ensures defdname[MAX_NAME - 1] == 0
  {
    var cp := 0;
    while cp < |line| && (line[cp] == 32 || line[cp] == 9)
      invariant cp <= |line| && SkipBlanks(line[cp..]) == SkipBlanks(line)
    {
      assert line[cp..][1..] == line[cp + 1..];
      cp := cp + 1;
    }
    ghost var rest := line[cp..];
    assert rest == SkipBlanks(line);
    if cp == |line| || line[cp] == NEWLINE {
      return false;
    }
    CopyText(line, cp, defdname);
    assert Fitting(rest) != [];
    Tokenise(defdname, dnsrch, SearchText(line));
    return true;
  }
}
