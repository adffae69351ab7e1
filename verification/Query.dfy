/** res_nameinquery() and res_queriesmatch(): recognising the questions of messages. */
module Query {
  import opened Bytes
  import opened Presentation
  import opened Wire
  import opened NameExpand

  const HEADER_SIZE := 12
  const QUESTION_SIZE := 4
  const MAX_TEXT := 1026

  /** The big-endian question count of the header (section 4.1.1 of RFC 1035). */
  function QuestionCount(m: seq<byte>): int
    requires |m| >= HEADER_SIZE
  {
    GetShort(m, 4)
  }

  // ----- reading questions

  /** A question: the text its name expands to, its type and class. */
  datatype Question = Question(name: seq<byte>, kind: int, class_: int)

  /** Does the name of the question at cp expand into a text buffer of the readers? */
  predicate Expands(m: seq<byte>, end: nat, cp: nat)
    requires Openable(m, end, cp)
  {
    ExpandResult(m, end, cp, MAX_TEXT) >= 0
  }

  /** Where the question at cp ends. */
  function NextQuestion(m: seq<byte>, end: nat, cp: nat): (r: nat)
    requires Openable(m, end, cp) && Expands(m, end, cp)
    ensures cp + QUESTION_SIZE < r
  {
    WalkFromEnds(m, end, cp);
    SegEnd(m, cp) + QUESTION_SIZE
  }

  function QuestionAt(m: seq<byte>, end: nat, cp: nat): Question
    requires Openable(m, end, cp) && Expands(m, end, cp) && NextQuestion(m, end, cp) <= |m|
  {
    var p := NextQuestion(m, end, cp) - QUESTION_SIZE;
    Question(UpToNul(Show(WalkFrom(m, end, cp).value)), GetShort(m, p), GetShort(m, p + 2))
  }

  /** Equality of questions up to case. */
  predicate SameQuestion(a: Question, b: Question) {
    a.kind == b.kind && a.class_ == b.class_ && SameText(a.name, b.name)
  }

  /** Of the same type and class, and named alike but for the case of ASCII letters. */
  lemma SameQuestionIsAlike(a: Question, b: Question)
    ensures SameQuestion(a, b) <==> a.kind == b.kind && a.class_ == b.class_ && AlikeText(a.name, b.name)
  {
    SameTextIsAlike(a.name, b.name);
  }

  /** Looking for q, the reader stays in memory; nothing but its caller sees to that. */
  predicate Readable(m: seq<byte>, end: nat, q: Question, cp: nat, count: int)
    decreases count
  {
    count <= 0 ||
    (&& Openable(m, end, cp)
     && (Expands(m, end, cp) ==>
           && NextQuestion(m, end, cp) <= |m|
           && (SameQuestion(QuestionAt(m, end, cp), q) || Readable(m, end, q, NextQuestion(m, end, cp), count - 1))))
  }

  /** What res_nameinquery() returns: 1 if q is among the questions from cp on, 0 if not, -1 if one is malformed first. */
  function Lookup(m: seq<byte>, end: nat, q: Question, cp: nat, count: int): int
    requires Readable(m, end, q, cp, count)
    decreases count
  {
    if count <= 0 then 0
    else if !Expands(m, end, cp) then -1
    else if SameQuestion(QuestionAt(m, end, cp), q) then 1
    else Lookup(m, end, q, NextQuestion(m, end, cp), count - 1)
  }

  method ReadQuestion(msg: array<byte>, end: nat, cp: nat, name: array<byte>) returns (ok: bool, next: nat, kind: int, class_: int)
    requires Openable(msg[..], end, cp) && msg != name && name.Length == MAX_TEXT
    requires Expands(msg[..], end, cp) ==> NextQuestion(msg[..], end, cp) <= msg.Length
    modifies name
    ensures ok <==> Expands(msg[..], end, cp)
    ensures ok ==> next == NextQuestion(msg[..], end, cp)
    ensures ok ==> Question(UpToNul(name[..]), kind, class_) == QuestionAt(msg[..], end, cp)
  {
    var n := Expand(msg, end, cp, name, MAX_TEXT);
    if n < 0 {
      return false, cp, 0, 0;
    }
    ghost var text := Show(WalkFrom(msg[..], end, cp).value);
    SameString(text, name[..], |text|);
    var p := cp + n;
    kind := GetShort(msg[..], p);
    class_ := GetShort(msg[..], p + 2);
    return true, p + QUESTION_SIZE, kind, class_;
  }

  method NameInQuery(name: seq<byte>, kind: int, class_: int, msg: array<byte>, end: nat) returns (r: int)
    requires msg.Length >= HEADER_SIZE
    requires Readable(msg[..], end, Question(name, kind, class_), HEADER_SIZE, QuestionCount(msg[..]))
    ensures r == Lookup(msg[..], end, Question(name, kind, class_), HEADER_SIZE, QuestionCount(msg[..]))
  {
    hide Expands, NextQuestion, QuestionAt, SameText, UpToNul;
    ghost var q, m := Question(name, kind, class_), msg[..];
    var cp: nat, count := HEADER_SIZE, QuestionCount(msg[..]);
    var tname := new byte[MAX_TEXT];
    while count > 0
      invariant msg[..] == m && Readable(m, end, q, cp, count)
      invariant Lookup(m, end, q, HEADER_SIZE, QuestionCount(m)) == Lookup(m, end, q, cp, count)
      decreases count
    {
      count := count - 1;
      var ok, next, k, c := ReadQuestion(msg, end, cp, tname);
      if !ok {
        return -1;
      }
      if k == kind && c == class_ && SameText(UpToNul(tname[..]), name) {
        return 1;
      }
      cp := next;
    }
    return 0;
  }

  /** Comparing messages m1 and m2, the reader stays in memory. */
  predicate Comparable(m1: seq<byte>, end1: nat, m2: seq<byte>, end2: nat, cp: nat, count: int)
    requires |m2| >= HEADER_SIZE
    decreases count
  {
    count <= 0 ||
    (&& Openable(m1, end1, cp)
     && (Expands(m1, end1, cp) ==>
           && NextQuestion(m1, end1, cp) <= |m1|
           && Readable(m2, end2, QuestionAt(m1, end1, cp), HEADER_SIZE, QuestionCount(m2))
           && (Lookup(m2, end2, QuestionAt(m1, end1, cp), HEADER_SIZE, QuestionCount(m2)) != 0 ==>
                 Comparable(m1, end1, m2, end2, NextQuestion(m1, end1, cp), count - 1))))
  }

  /**
    * What res_queriesmatch() makes of the questions of m1 from cp on: -1 when one is malformed, 0
    * when one is not found in m2, else 1.  A malformed m2 counts as found.
    */
  function Compare(m1: seq<byte>, end1: nat, m2: seq<byte>, end2: nat, cp: nat, count: int): int
    requires |m2| >= HEADER_SIZE && Comparable(m1, end1, m2, end2, cp, count)
    decreases count
  {
    if count <= 0 then 1
    else if !Expands(m1, end1, cp) then -1
    else if Lookup(m2, end2, QuestionAt(m1, end1, cp), HEADER_SIZE, QuestionCount(m2)) == 0 then 0
    else Compare(m1, end1, m2, end2, NextQuestion(m1, end1, cp), count - 1)
  }

  function MatchResult(m1: seq<byte>, end1: nat, m2: seq<byte>, end2: nat): int
    requires |m1| >= HEADER_SIZE && |m2| >= HEADER_SIZE
    requires QuestionCount(m1) == QuestionCount(m2) ==>
               Comparable(m1, end1, m2, end2, HEADER_SIZE, QuestionCount(m1))
  {
    if QuestionCount(m1) != QuestionCount(m2) then 0
    else Compare(m1, end1, m2, end2, HEADER_SIZE, QuestionCount(m1))
  }

  method QueriesMatch(msg1: array<byte>, end1: nat, msg2: array<byte>, end2: nat) returns (r: int)
    requires msg1.Length >= HEADER_SIZE && msg2.Length >= HEADER_SIZE
    requires QuestionCount(msg1[..]) == QuestionCount(msg2[..]) ==>
               Comparable(msg1[..], end1, msg2[..], end2, HEADER_SIZE, QuestionCount(msg1[..]))
    ensures r == MatchResult(msg1[..], end1, msg2[..], end2)
  {
    hide Expands, NextQuestion, QuestionAt, UpToNul, Readable, Lookup;
    ghost var m1, m2 := msg1[..], msg2[..];
    var cp: nat, count := HEADER_SIZE, QuestionCount(msg1[..]);
    if count != QuestionCount(msg2[..]) {
      return 0;
    }
    var tname := new byte[MAX_TEXT];
    while count > 0
      invariant msg1[..] == m1 && msg2[..] == m2 && Comparable(m1, end1, m2, end2, cp, count)
      invariant MatchResult(m1, end1, m2, end2) == Compare(m1, end1, m2, end2, cp, count)
      decreases count
    {
      count := count - 1;
      var ok, next, kind, class_ := ReadQuestion(msg1, end1, cp, tname);
      if !ok {
        return -1;
      }
      var found := NameInQuery(UpToNul(tname[..]), kind, class_, msg2, end2);
      if found == 0 {
        return 0;
      }
      cp := next;
    }
    return 1;
  }

  /**
    * On messages of one question each, 1 means that the first question is sound and the second
    * equals it up to case, or that the second is malformed, which the caller cannot tell apart.
    */
  lemma OneQuestionMatch(m1: seq<byte>, end1: nat, m2: seq<byte>, end2: nat)
    requires |m1| >= HEADER_SIZE && |m2| >= HEADER_SIZE && QuestionCount(m1) == QuestionCount(m2) == 1
    requires Openable(m1, end1, HEADER_SIZE) && Openable(m2, end2, HEADER_SIZE)
    requires Expands(m1, end1, HEADER_SIZE) ==> NextQuestion(m1, end1, HEADER_SIZE) <= |m1|
    requires Expands(m2, end2, HEADER_SIZE) ==> NextQuestion(m2, end2, HEADER_SIZE) <= |m2|
    ensures Comparable(m1, end1, m2, end2, HEADER_SIZE, 1)
    ensures MatchResult(m1, end1, m2, end2)
            == if !Expands(m1, end1, HEADER_SIZE) then -1
               else if !Expands(m2, end2, HEADER_SIZE) then 1
               else if SameQuestion(QuestionAt(m2, end2, HEADER_SIZE), QuestionAt(m1, end1, HEADER_SIZE)) then 1
               else 0
  {
    if Expands(m1, end1, HEADER_SIZE) {
      var q := QuestionAt(m1, end1, HEADER_SIZE);
      assert Readable(m2, end2, q, HEADER_SIZE, 1);
      if Expands(m2, end2, HEADER_SIZE) {
        var next := NextQuestion(m2, end2, HEADER_SIZE);
        if !SameQuestion(QuestionAt(m2, end2, HEADER_SIZE), q) {
          assert Readable(m2, end2, q, next, 0) && Lookup(m2, end2, q, next, 0) == 0;
        }
      }
      assert Comparable(m1, end1, m2, end2, NextQuestion(m1, end1, HEADER_SIZE), 0);
      assert Compare(m1, end1, m2, end2, NextQuestion(m1, end1, HEADER_SIZE), 0) == 1;
    }
  }

  // ----- what the readers decide

  /** The questions from cp on, up to the first malformed one, and whether there is a malformed one. */
  datatype Section = Section(questions: seq<Question>, malformed: bool)

  /** Whatever they hold, the questions from cp on can be read without leaving memory. */
  predicate InMemory(m: seq<byte>, end: nat, cp: nat, count: int)
    decreases count
  {
    count <= 0 ||
    (&& Openable(m, end, cp)
     && (Expands(m, end, cp) ==>
           NextQuestion(m, end, cp) <= |m| && InMemory(m, end, NextQuestion(m, end, cp), count - 1)))
  }

  function SectionAt(m: seq<byte>, end: nat, cp: nat, count: int): (r: Section)
    requires InMemory(m, end, cp, count)
    ensures !r.malformed ==> |r.questions| == if count <= 0 then 0 else count
    decreases count
  {
    if count <= 0 then Section([], false)
    else if !Expands(m, end, cp) then Section([], true)
    else
      var rest := SectionAt(m, end, NextQuestion(m, end, cp), count - 1);
      Section([QuestionAt(m, end, cp)] + rest.questions, rest.malformed)
  }

  /** q is one of the questions, up to case. */
  predicate Includes(qs: seq<Question>, q: Question) {
    exists k :: 0 <= k < |qs| && SameQuestion(qs[k], q)
  }

  lemma IncludesCons(first: Question, rest: seq<Question>, q: Question)
    ensures Includes([first] + rest, q) <==> SameQuestion(first, q) || Includes(rest, q)
  {
    hide SameQuestion;
    var qs := [first] + rest;
    if SameQuestion(first, q) {
      assert SameQuestion(qs[0], q);
    }
    if k :| 0 <= k < |rest| && SameQuestion(rest[k], q) {
      assert SameQuestion(qs[k + 1], q);
    }
    if k :| 0 <= k < |qs| && SameQuestion(qs[k], q) {
      assert k == 0 || rest[k - 1] == qs[k];
    }
  }

  /** res_nameinquery() decides whether q is asked before anything malformed. */
  lemma {:induction false} LookupDecides(m: seq<byte>, end: nat, q: Question, cp: nat, count: int)
    requires InMemory(m, end, cp, count)
    ensures Readable(m, end, q, cp, count)
    ensures
      var r := SectionAt(m, end, cp, count);
      Lookup(m, end, q, cp, count) == if Includes(r.questions, q) then 1 else if r.malformed then -1 else 0
    decreases count
  {
    hide Expands, NextQuestion, QuestionAt, SameQuestion, Includes;
    NothingIncluded(q);
    if count > 0 && Expands(m, end, cp) {
      var next := NextQuestion(m, end, cp);
      LookupDecides(m, end, q, next, count - 1);
      IncludesCons(QuestionAt(m, end, cp), SectionAt(m, end, next, count - 1).questions, q);
    }
  }

  lemma NothingIncluded(q: Question)
    ensures !Includes([], q)
  {
  }

  /** Every question of the one list is in the other, up to case. */
  predicate IncludesAll(qs: seq<Question>, among: seq<Question>) {
    forall k :: 0 <= k < |qs| ==> Includes(among, qs[k])
  }

  lemma IncludesAllCons(first: Question, rest: seq<Question>, among: seq<Question>)
    ensures IncludesAll([first] + rest, among) <==> Includes(among, first) && IncludesAll(rest, among)
  {
    hide Includes;
    var qs := [first] + rest;
    if IncludesAll(qs, among) {
      assert Includes(among, qs[0]);
      forall k | 0 <= k < |rest|
        ensures Includes(among, rest[k])
      {
        assert Includes(among, qs[k + 1]);
      }
    }
  }

  /** What the comparison comes to: a malformed second message answers for every question. */
  function Verdict(r1: Section, r2: Section): int {
    if !r2.malformed && !IncludesAll(r1.questions, r2.questions) then 0
    else if r1.malformed then -1
    else 1
  }

  lemma {:induction false} CompareDecides(m1: seq<byte>, end1: nat, m2: seq<byte>, end2: nat, cp: nat, count: int)
    requires |m2| >= HEADER_SIZE && InMemory(m1, end1, cp, count)
    requires InMemory(m2, end2, HEADER_SIZE, QuestionCount(m2))
    ensures Comparable(m1, end1, m2, end2, cp, count)
    ensures Compare(m1, end1, m2, end2, cp, count) ==
            Verdict(SectionAt(m1, end1, cp, count), SectionAt(m2, end2, HEADER_SIZE, QuestionCount(m2)))
    decreases count
  {
    hide Expands, NextQuestion, QuestionAt, Includes, Readable, Lookup, QuestionCount, InMemory, SectionAt, IncludesAll;
    InMemoryStep(m1, end1, cp, count);
    var r2 := SectionAt(m2, end2, HEADER_SIZE, QuestionCount(m2));
    NoneMissing(r2.questions);
    if count > 0 && Expands(m1, end1, cp) {
      var q, next := QuestionAt(m1, end1, cp), NextQuestion(m1, end1, cp);
      LookupDecides(m2, end2, q, HEADER_SIZE, QuestionCount(m2));
      CompareDecides(m1, end1, m2, end2, next, count - 1);
      IncludesAllCons(q, SectionAt(m1, end1, next, count - 1).questions, r2.questions);
    }
  }

  lemma NoneMissing(among: seq<Question>)
    ensures IncludesAll([], among)
  {
  }

  lemma InMemoryStep(m: seq<byte>, end: nat, cp: nat, count: int)
    requires InMemory(m, end, cp, count)
    ensures count <= 0 ==> SectionAt(m, end, cp, count) == Section([], false)
    ensures count > 0 ==> Openable(m, end, cp)
    ensures count > 0 && !Expands(m, end, cp) ==> SectionAt(m, end, cp, count) == Section([], true)
    ensures count > 0 && Expands(m, end, cp) ==>
              var next := NextQuestion(m, end, cp);
              && next <= |m| && InMemory(m, end, next, count - 1)
              && var rest := SectionAt(m, end, next, count - 1);
                 SectionAt(m, end, cp, count) == Section([QuestionAt(m, end, cp)] + rest.questions, rest.malformed)
  {
    hide Expands, NextQuestion, QuestionAt;
  }

  /** A message and its question section. */
  predicate Carries(m: seq<byte>, end: nat, r: Section) {
    && |m| >= HEADER_SIZE && InMemory(m, end, HEADER_SIZE, QuestionCount(m))
    && r == SectionAt(m, end, HEADER_SIZE, QuestionCount(m))
  }

  /** res_queriesmatch(), for messages of any number of questions, malformed ones included. */
  lemma MatchDecides(m1: seq<byte>, end1: nat, m2: seq<byte>, end2: nat, r1: Section, r2: Section)
    requires Carries(m1, end1, r1) && Carries(m2, end2, r2)
    ensures QuestionCount(m1) == QuestionCount(m2) ==>
              Comparable(m1, end1, m2, end2, HEADER_SIZE, QuestionCount(m1))
    ensures MatchResult(m1, end1, m2, end2) == if QuestionCount(m1) != QuestionCount(m2) then 0 else Verdict(r1, r2)
  {
    hide InMemory, SectionAt, Verdict, Comparable, Compare;
    CompareDecides(m1, end1, m2, end2, HEADER_SIZE, QuestionCount(m1));
  }

  // ----- a one-to-one mapping?

  function LowerText(s: seq<byte>): (r: seq<byte>)
    ensures |r| == |s| && forall i :: 0 <= i < |s| ==> r[i] == Lower(s[i])
  {
    seq(|s|, i requires 0 <= i < |s| => Lower(s[i]))
  }

  function Folded(q: Question): Question {
    q.(name := LowerText(q.name))
  }

  lemma SameIffFolded(a: Question, b: Question)
    ensures SameQuestion(a, b) <==> Folded(a) == Folded(b)
  {
    if Folded(a) == Folded(b) {
      assert forall i :: 0 <= i < |a.name| ==> LowerText(a.name)[i] == LowerText(b.name)[i];
    }
    if SameQuestion(a, b) {
      assert LowerText(a.name) == LowerText(b.name);
    }
  }

  function AllFolded(qs: seq<Question>): (r: seq<Question>)
    ensures |r| == |qs| && forall i :: 0 <= i < |qs| ==> r[i] == Folded(qs[i])
  {
    seq(|qs|, i requires 0 <= i < |qs| => Folded(qs[i]))
  }

  /** How often each question is asked, up to case. */
  function Tally(qs: seq<Question>): (r: multiset<Question>)
    ensures |r| == |qs|
  {
    multiset(AllFolded(qs))
  }

  /** The lists are the same but for order and case. */
  predicate OneToOne(a: seq<Question>, b: seq<Question>) {
    Tally(a) == Tally(b)
  }

  predicate Repeats(qs: seq<Question>) {
    exists i, j :: 0 <= i < j < |qs| && SameQuestion(qs[i], qs[j])
  }

  lemma IncludesIsTallied(qs: seq<Question>, q: Question)
    ensures Includes(qs, q) <==> Folded(q) in Tally(qs)
  {
    hide SameQuestion, Folded;
    var fs := AllFolded(qs);
    forall k | 0 <= k < |qs|
      ensures SameQuestion(qs[k], q) <==> fs[k] == Folded(q)
    {
      SameIffFolded(qs[k], q);
    }
    if Folded(q) in multiset(fs) {
      var k :| 0 <= k < |fs| && fs[k] == Folded(q);
      assert SameQuestion(qs[k], q);
    }
  }

  lemma IncludesAllIsTallied(a: seq<Question>, b: seq<Question>)
    ensures IncludesAll(a, b) <==> forall f :: f in Tally(a) ==> f in Tally(b)
  {
    hide Folded, Includes;
    forall k | 0 <= k < |a|
      ensures Includes(b, a[k]) <==> AllFolded(a)[k] in Tally(b)
    {
      IncludesIsTallied(b, a[k]);
    }
    if IncludesAll(a, b) {
      forall f | f in Tally(a)
        ensures f in Tally(b)
      {
        var k :| 0 <= k < |a| && AllFolded(a)[k] == f;
        assert Includes(b, a[k]);
      }
    }
    if forall f :: f in Tally(a) ==> f in Tally(b) {
      forall k | 0 <= k < |a|
        ensures Includes(b, a[k])
      {
        assert AllFolded(a)[k] in Tally(a);
      }
    }
  }

  lemma {:induction false} TallyOnce(fs: seq<Question>, f: Question)
    requires forall i, j :: 0 <= i < j < |fs| ==> fs[i] != fs[j]
    ensures multiset(fs)[f] <= 1
  {
    if fs != [] {
      var front, last := fs[..|fs| - 1], fs[|fs| - 1];
      assert fs == front + [last];
      TallyOnce(front, f);
      assert forall i :: 0 <= i < |front| ==> front[i] == fs[i] != fs[|fs| - 1];
      assert last !in multiset(front);
    }
  }

  lemma NoRepeatIsOnce(qs: seq<Question>, f: Question)
    requires !Repeats(qs)
    ensures Tally(qs)[f] <= 1
  {
    hide SameQuestion, Folded;
    var fs := AllFolded(qs);
    forall i, j | 0 <= i < j < |fs|
      ensures fs[i] != fs[j]
    {
      SameIffFolded(qs[i], qs[j]);
      assert !SameQuestion(qs[i], qs[j]);
    }
    TallyOnce(fs, f);
  }

  /** Pigeonhole: of two tallies of one size, one within the other, each is the other. */
  lemma FullTally(a: multiset<Question>, b: multiset<Question>)
    requires |a| == |b| && forall f :: a[f] <= b[f]
    ensures a == b
  {
    assert b == a + (b - a);
  }

  /**
    * For lists of one length, finding every question of the first in the second shows a one-to-one
    * mapping exactly when no question is asked more often in the first than in the second.
    */
  lemma IncludesAllOneToOne(a: seq<Question>, b: seq<Question>)
    requires |a| == |b| && IncludesAll(a, b)
    ensures OneToOne(a, b) <==> forall k :: 0 <= k < |a| ==> Tally(a)[Folded(a[k])] <= Tally(b)[Folded(a[k])]
  {
    hide Folded, IncludesAll;
    if forall k :: 0 <= k < |a| ==> Tally(a)[Folded(a[k])] <= Tally(b)[Folded(a[k])] {
      forall f: Question
        ensures Tally(a)[f] <= Tally(b)[f]
      {
        if f in Tally(a) {
          var k :| 0 <= k < |a| && AllFolded(a)[k] == f;
          assert Tally(a)[Folded(a[k])] <= Tally(b)[Folded(a[k])];
        }
      }
      FullTally(Tally(a), Tally(b));
    }
  }

  lemma OneToOneIncludesAll(a: seq<Question>, b: seq<Question>)
    requires OneToOne(a, b)
    ensures IncludesAll(a, b)
  {
    IncludesAllIsTallied(a, b);
  }

  /** Without a repeated question in the first list, finding all is a one-to-one mapping. */
  lemma NoRepeatOneToOne(a: seq<Question>, b: seq<Question>)
    requires |a| == |b| && !Repeats(a)
    ensures IncludesAll(a, b) <==> OneToOne(a, b)
  {
    hide Repeats, OneToOne, IncludesAll, Folded;
    if IncludesAll(a, b) {
      IncludesAllIsTallied(a, b);
      forall k | 0 <= k < |a|
        ensures Tally(a)[Folded(a[k])] <= Tally(b)[Folded(a[k])]
      {
        NoRepeatIsOnce(a, Folded(a[k]));
        assert AllFolded(a)[k] in Tally(a);
      }
      IncludesAllOneToOne(a, b);
    }
    if OneToOne(a, b) {
      OneToOneIncludesAll(a, b);
    }
  }

  /**
    * With a repeated question there is always a second list of that length in which all are found
    * and which is no one-to-one mapping: exactly then does finding all not show one.
    */
  lemma RepeatsMislead(a: seq<Question>)
    ensures Repeats(a) <==> exists b :: |b| == |a| && IncludesAll(a, b) && !OneToOne(a, b)
  {
    hide OneToOne, IncludesAll;
    if Repeats(a) {
      var i, j :| 0 <= i < j < |a| && SameQuestion(a[i], a[j]);
      var b := a[j := a[j].(kind := if a[j].kind == 0 then 1 else 0)];
      Misled(a, b, i, j);
    }
    if b :| |b| == |a| && IncludesAll(a, b) && !OneToOne(a, b) {
      if !Repeats(a) {
        NoRepeatOneToOne(a, b);
        assert false;
      }
    }
  }

  /** The second of two equal questions makes way for another. */
  lemma Misled(a: seq<Question>, b: seq<Question>, i: nat, j: nat)
    requires i < j < |a| && SameQuestion(a[i], a[j])
    requires |b| == |a| && b == a[j := b[j]] && !SameQuestion(b[j], a[j])
    ensures IncludesAll(a, b) && !OneToOne(a, b)
  {
    hide Folded;
    forall k | 0 <= k < |a|
      ensures Includes(b, a[k])
    {
      if k == j {
        SameTextSymmetric(a[i].name, a[j].name);
        assert SameQuestion(b[i], a[j]);
      } else {
        assert SameQuestion(b[k], a[k]);
      }
    }
    SameIffFolded(b[j], a[j]);
    assert AllFolded(b) == AllFolded(a)[j := Folded(b[j])];
    assert Tally(b) == Tally(a) - multiset{Folded(a[j])} + multiset{Folded(b[j])};
    assert Folded(a[j]) in AllFolded(a);
  }

  /**
    * On two sound messages: 1 means as many questions and all of the first found in the second.
    * That is a one-to-one mapping if and only if none is asked more often in the first, and always
    * is one if the first repeats none.
    */
  lemma MatchIsOneToOne(m1: seq<byte>, end1: nat, m2: seq<byte>, end2: nat, r1: Section, r2: Section)
    requires Carries(m1, end1, r1) && Carries(m2, end2, r2) && !r1.malformed && !r2.malformed
    ensures QuestionCount(m1) == QuestionCount(m2) ==> Comparable(m1, end1, m2, end2, HEADER_SIZE, QuestionCount(m1))
    ensures
      var a, b, one := r1.questions, r2.questions, MatchResult(m1, end1, m2, end2) == 1;
      && (one <==> |a| == |b| && IncludesAll(a, b))
      && (OneToOne(a, b) ==> one)
      && (one ==> (OneToOne(a, b) <==> forall k :: 0 <= k < |a| ==> Tally(a)[Folded(a[k])] <= Tally(b)[Folded(a[k])]))
      && (!Repeats(a) ==> (one <==> OneToOne(a, b)))
  {
    hide InMemory, SectionAt, Comparable, Compare, IncludesAll, Folded, OneToOne, Repeats;
    var a, b := r1.questions, r2.questions;
    MatchDecides(m1, end1, m2, end2, r1, r2);
    if OneToOne(a, b) {
      OneToOneSameLength(a, b);
      OneToOneIncludesAll(a, b);
    }
    if |a| == |b| && IncludesAll(a, b) {
      IncludesAllOneToOne(a, b);
    }
    if |a| == |b| && !Repeats(a) {
      NoRepeatOneToOne(a, b);
    }
  }

  lemma OneToOneSameLength(a: seq<Question>, b: seq<Question>)
    requires OneToOne(a, b)
    ensures |a| == |b|
  {
  }

  /** The question for the root name at cp. */
  lemma RootQuestion(m: seq<byte>, end: nat, cp: nat)
    requires Openable(m, end, cp) && m[cp] == 0
    ensures Expands(m, end, cp) && NextQuestion(m, end, cp) == cp + 1 + QUESTION_SIZE
    ensures cp + 1 + QUESTION_SIZE <= |m| ==>
              QuestionAt(m, end, cp) == Question([], GetShort(m, cp + 1), GetShort(m, cp + 3))
  {
    assert Show([]) == [];
    assert !HasSpace([]);
  }

  function TwoRootQuestions(kind1: byte, kind2: byte): (m: seq<byte>) {
    [0, 0, 0, 0, 0, 2, 0, 0, 0, 0, 0, 0, 0, 0, kind1, 0, 1, 0, 0, kind2, 0, 1, 0]
  }

  lemma TwoRootQuestionsCarried(kind1: byte, kind2: byte)
    ensures
      var m := TwoRootQuestions(kind1, kind2);
      Carries(m, 22, Section([Question([], kind1 as int, 1), Question([], kind2 as int, 1)], false))
  {
    hide Expands, NextQuestion, QuestionAt, InMemory, SectionAt;
    var m := TwoRootQuestions(kind1, kind2);
    RootQuestion(m, 22, 12);
    RootQuestion(m, 22, 17);
    InMemoryFrom(m, 22, 22, 0);
    InMemoryFrom(m, 22, 17, 1);
    InMemoryFrom(m, 22, 12, 2);
    assert [QuestionAt(m, 22, 12)] + ([QuestionAt(m, 22, 17)] + []) == [QuestionAt(m, 22, 12), QuestionAt(m, 22, 17)];
  }

  lemma InMemoryFrom(m: seq<byte>, end: nat, cp: nat, count: int)
    requires count <= 0 || (Openable(m, end, cp) && Expands(m, end, cp) && NextQuestion(m, end, cp) <= |m|
                            && InMemory(m, end, NextQuestion(m, end, cp), count - 1))
    ensures InMemory(m, end, cp, count)
    ensures count <= 0 ==> SectionAt(m, end, cp, count) == Section([], false)
    ensures count > 0 ==>
              var rest := SectionAt(m, end, NextQuestion(m, end, cp), count - 1);
              SectionAt(m, end, cp, count) == Section([QuestionAt(m, end, cp)] + rest.questions, rest.malformed)
  {
    hide Expands, NextQuestion, QuestionAt;
  }

  /** One question, its name begun by a byte of no kind known. */
  function UnknownLabel(): (m: seq<byte>) {
    [0, 0, 0, 0, 0, 1, 0, 0, 0, 0, 0, 0, 64, 0, 1, 0, 1]
  }

  lemma UnknownLabelCarried()
    ensures Carries(UnknownLabel(), 17, Section([], true))
  {
    var m := UnknownLabel();
    assert m[12] == 64 && Walk(m, 17, 12, 0) == None;
    assert Openable(m, 17, 12) && !Expands(m, 17, 12);
    assert InMemory(m, 17, 12, 1) && SectionAt(m, 17, 12, 1) == Section([], true);
  }

  /**
    * A malformed second message matches any sound message of as many questions; here it stands in
    * for every question whatever.
    */
  lemma MalformedMatches(m1: seq<byte>, end1: nat, q: Question)
    requires Carries(m1, end1, Section([q], false))
    ensures
      var m2 := UnknownLabel();
      && Carries(m2, 17, Section([], true))
      && Comparable(m1, end1, m2, 17, HEADER_SIZE, 1) && Compare(m1, end1, m2, 17, HEADER_SIZE, 1) == 1
      && MatchResult(m1, end1, m2, 17) == 1 && MatchResult(m2, 17, m1, end1) == -1
  {
    hide InMemory, SectionAt, Comparable, Compare;
    var m2 := UnknownLabel();
    UnknownLabelCarried();
    MatchDecides(m1, end1, m2, 17, Section([q], false), Section([], true));
    MatchDecides(m2, 17, m1, end1, Section([], true), Section([q], false));
  }

  /** A message that asks one question twice matches one that asks it once and another once. */
  lemma RepeatMatches()
    ensures
      var m1, m2 := TwoRootQuestions(1, 1), TwoRootQuestions(1, 2);
      var a, b := [Question([], 1, 1), Question([], 1, 1)], [Question([], 1, 1), Question([], 2, 1)];
      && Carries(m1, 22, Section(a, false)) && Carries(m2, 22, Section(b, false))
      && Comparable(m1, 22, m2, 22, HEADER_SIZE, 2) && Compare(m1, 22, m2, 22, HEADER_SIZE, 2) == 1
      && MatchResult(m1, 22, m2, 22) == 1 && !OneToOne(a, b)
  {
    hide InMemory, SectionAt, Comparable, Compare, OneToOne, Folded;
    var m1, m2 := TwoRootQuestions(1, 1), TwoRootQuestions(1, 2);
    var a, b := [Question([], 1, 1), Question([], 1, 1)], [Question([], 1, 1), Question([], 2, 1)];
    TwoRootQuestionsCarried(1, 1);
    TwoRootQuestionsCarried(1, 2);
    assert b == a[1 := b[1]];
    Misled(a, b, 0, 1);
    MatchDecides(m1, 22, m2, 22, Section(a, false), Section(b, false));
  }
}
