/**
  * res_search(), res_querydomain() and res_query(): which names are asked for, in what order, and
  * which error is reported.  What becomes of the i-th exchange with a server is for an oracle to say.
  */
module ResolverSearch {
  import opened Bytes

  const HOST_NOT_FOUND := 1
  const TRY_AGAIN := 2
  const NO_RECOVERY := 3
  const NO_DATA := 4

  /** Reply codes (section 4.1.1 of RFC 1035). */
  const NOERROR := 0
  const SERVFAIL := 2
  const NXDOMAIN := 3

  const MAX_NAME := 1025

  /**
    * An exchange with the servers: no query could be built, none could be sent and answered, or n
    * bytes came back.  The reply code in the answer buffer may be anything once it was sent.
    */
  datatype Exchange = Unbuilt | Unsent(rcode: int) | Got(n: nat, rcode: int, answers: nat)

  /** An exchange, and whether errno is ECONNREFUSED after it. */
  datatype Reply = Reply(exchange: Exchange, refused: bool)

  /** What a query leaves behind: its result, h_errno, whether errno is ECONNREFUSED and the reply code SERVFAIL. */
  datatype Outcome = Outcome(ret: int, herrno: int, refused: bool, servfail: bool)

  /** The h_errno for an answer without data. */
  function CodeError(rcode: int): int {
    if rcode == NXDOMAIN then HOST_NOT_FOUND
    else if rcode == SERVFAIL then TRY_AGAIN
    else if rcode == NOERROR then NO_DATA
    else NO_RECOVERY
  }

  /** res_query(), given h_errno as it was: an answer, even of no bytes, leaves h_errno alone. */
  function ResQuery(r: Reply, herrno: int): Outcome {
    match r.exchange
    case Unbuilt => Outcome(-1, NO_RECOVERY, r.refused, false)
    case Unsent(rcode) => Outcome(-1, TRY_AGAIN, r.refused, rcode == SERVFAIL)
    case Got(n, rcode, answers) =>
      if rcode != NOERROR || answers == 0 then Outcome(-1, CodeError(rcode), r.refused, rcode == SERVFAIL)
      else Outcome(n, herrno, r.refused, false)
  }

  /** An error that a query may report; NETDB_INTERNAL, -1, is not one, as the resolver is set up. */
  predicate Proper(herrno: int) {
    HOST_NOT_FOUND <= herrno <= NO_DATA
  }

  /** h_errno before query i of a search. */
  function Before(t: seq<Step>, i: nat): int
    requires i <= |t|
  {
    if i == 0 then HOST_NOT_FOUND else t[i - 1].reply.herrno
  }

  ghost predicate WentAt(t: seq<Step>, net: nat -> Reply, i: nat)
    requires i < |t|
  {
    t[i].reply == ResQuery(net(i), Before(t, i))
  }

  /** The queries went as the oracle says. */
  ghost predicate Went(t: seq<Step>, net: nat -> Reply) {
    forall i :: 0 <= i < |t| ==> WentAt(t, net, i)
  }

  /** No query of a search leaves an h_errno outside 1 to 4. */
  lemma {:induction false} ErrorsAreProper(t: seq<Step>, net: nat -> Reply, i: nat)
    requires Went(t, net) && i <= |t|
    ensures Proper(Before(t, i))
  {
    if i > 0 {
      ErrorsAreProper(t, net, i - 1);
      assert WentAt(t, net, i - 1);
    }
  }

  /** The error that an exchange is the cause of, if it is of any. */
  predicate Causes(x: Exchange, herrno: int) {
    match herrno
    case 1 => x.Got? && x.rcode == 3
    case 2 => x.Unsent? || (x.Got? && x.rcode == 2)
    case 3 => x.Unbuilt? || (x.Got? && x.rcode !in {0, 2, 3})
    case 4 => x.Got? && x.rcode == 0 && x.answers == 0
    case _ => false
  }

  /**
    * The error that a query leaves has been caused by the last exchange that was not a sound answer,
    * or is HOST_NOT_FOUND, 1, if all were.
    */
  lemma {:induction false} ErrorHasCause(t: seq<Step>, net: nat -> Reply, i: nat)
    requires Went(t, net) && i <= |t|
    ensures
      || (Before(t, i) == 1 && forall k :: 0 <= k < i ==> SoundAnswer(net(k).exchange))
      || (exists j :: 0 <= j < i && Causes(net(j).exchange, Before(t, i))
                      && forall k :: j < k < i ==> SoundAnswer(net(k).exchange))
  {
    if i > 0 {
      ErrorHasCause(t, net, i - 1);
      assert WentAt(t, net, i - 1);
    }
  }

  predicate SoundAnswer(x: Exchange) {
    x.Got? && x.rcode == 0 && x.answers > 0
  }

  /** A query returns the bytes of a sound answer, and fails on anything else. */
  lemma QueryReturns(r: Reply, herrno: int)
    ensures ResQuery(r, herrno).ret == if SoundAnswer(r.exchange) then r.exchange.n else -1
  {
  }

  lemma WentOn(t: seq<Step>, net: nat -> Reply, ask: Ask)
    requires Went(t, net)
    ensures Went(t + [Step(ask, ResQuery(net(|t|), Before(t, |t|)))], net)
  {
    hide ResQuery;
    var u := t + [Step(ask, ResQuery(net(|t|), Before(t, |t|)))];
    forall i | 0 <= i < |u|
      ensures WentAt(u, net, i)
    {
      assert Before(u, i) == Before(t, i);
      assert i < |t| ==> WentAt(t, net, i);
    }
  }

  datatype Options = Options(ndots: nat, defNames: bool, dnsrch: bool)

  /** A query: within the domain of that index, or for the name as it is; and the text asked for. */
  datatype Ask = Ask(domain: Option<nat>, text: seq<byte>)

  datatype Step = Step(ask: Ask, reply: Outcome)

  function Clip(s: seq<byte>): seq<byte> {
    if |s| <= MAX_NAME then s else s[..MAX_NAME]
  }

  /** res_querydomain(): the text asked for, a trailing dot dropped or a domain appended. */
  function QueryText(name: seq<byte>, domain: Option<seq<byte>>): seq<byte> {
    match domain
    case None =>
      if |name| > 0 && name[|name| - 1] == DOT && |name| - 1 < 2 * MAX_NAME + 1 then name[..|name| - 1] else name
    case Some(d) => Clip(name) + [DOT] + Clip(d)
  }

  /** The texts put together fit their buffer of 2 * MAX_NAME + 2 bytes, NUL included. */
  lemma QueryTextFits(name: seq<byte>, domain: Option<seq<byte>>)
    ensures domain.Some? || QueryText(name, domain) != name ==> |QueryText(name, domain)| + 1 <= 2 * MAX_NAME + 2
    ensures domain.None? ==> QueryText(name, domain) == name || QueryText(name, domain) + [DOT] == name
  {
    if domain.None? && QueryText(name, domain) != name {
      assert name == name[..|name| - 1] + [name[|name| - 1]];
    }
  }

  /** Within a domain the text is the name, a dot and the domain, each cut at 1025 bytes. */
  lemma QualifiedText(name: seq<byte>, domain: seq<byte>)
    ensures
      var r, n, d := QueryText(name, Some(domain)), Min(|name|, 1025), Min(|domain|, 1025);
      |r| == n + 1 + d && r[..n] == name[..n] && r[n] == 46 && r[n + 1..] == domain[..d]
  {
  }

  /** As it is, a name is asked for without its last byte if that is a dot and its other bytes are fewer than 2051. */
  lemma BareText(name: seq<byte>)
    ensures
      if name != [] && name[|name| - 1] == 46 && |name| <= 2051 then QueryText(name, None) == name[..|name| - 1]
      else QueryText(name, None) == name
  {
  }

  function AsIs(name: seq<byte>): Ask {
    Ask(None, QueryText(name, None))
  }

  function Within(name: seq<byte>, domains: seq<seq<byte>>, d: nat): Ask
    requires d < |domains|
  {
    Ask(Some(d), QueryText(name, Some(domains[d])))
  }

  function Dots(s: seq<byte>): nat {
    if s == [] then 0 else (if s[|s| - 1] == DOT then 1 else 0) + Dots(s[..|s| - 1])
  }

  ghost function DotPlaces(s: seq<byte>): set<int> {
    set k | 0 <= k < |s| && s[k] == 46
  }

  /** The dots of a text are counted by their places. */
  lemma {:induction false} DotsCounted(s: seq<byte>)
    ensures Dots(s) == |DotPlaces(s)|
  {
    if s == [] {
      assert DotPlaces(s) == {};
    } else {
      var t, last := s[..|s| - 1], |s| - 1;
      DotsCounted(t);
      assert DotPlaces(s) == DotPlaces(t) + if s[last] == 46 then {last} else {};
    }
  }

  /** The number of queries for the name as it is that come before any domain. */
  function Early(name: seq<byte>, o: Options): nat {
    if Dots(name) >= o.ndots then 1 else 0
  }

  /** Are the search domains to be tried? */
  predicate Searches(name: seq<byte>, o: Options) {
    if Dots(name) == 0 then o.defNames else name[|name| - 1] != DOT && o.dnsrch
  }

  predicate NoData(r: Outcome) {
    r.herrno == NO_DATA
  }

  predicate ServerFailed(r: Outcome) {
    r.herrno == TRY_AGAIN && r.servfail
  }

  /** An outcome after which the next domain is worth trying. */
  predicate KeepsTrying(r: Outcome) {
    NoData(r) || r.herrno == HOST_NOT_FOUND || ServerFailed(r)
  }

  /** Did some domain query give NO_DATA (SERVFAIL)?  The domain queries are those from `first` to before `first + m`. */
  predicate AnyNoData(t: seq<Step>, first: nat, m: nat)
    requires first + m <= |t|
  {
    exists i :: first <= i < first + m && NoData(t[i].reply)
  }

  predicate AnyServerFailed(t: seq<Step>, first: nat, m: nat)
    requires first + m <= |t|
  {
    exists i :: first <= i < first + m && ServerFailed(t[i].reply)
  }

  /** What query i is for: the name as it is, save between `first` and `first + m`. */
  predicate Planned(name: seq<byte>, domains: seq<seq<byte>>, first: nat, m: nat, i: nat, ask: Ask)
    requires m <= |domains|
  {
    ask == if first <= i < first + m then Within(name, domains, i - first) else AsIs(name)
  }

  /** The queries so far, none answered, m of them for domains. */
  predicate SoFar(name: seq<byte>, domains: seq<seq<byte>>, o: Options, t: seq<Step>, m: nat) {
    && m <= |domains|
    && (m > 0 ==> Searches(name, o))
    && (m > 1 ==> o.dnsrch)
    && Early(name, o) + m <= |t|
    && forall i :: 0 <= i < |t| ==> Planned(name, domains, Early(name, o), m, i, t[i].ask)
  }

  /** None of the first n queries was answered, and no server refused a domain query. */
  predicate Unanswered(t: seq<Step>, first: nat, n: nat)
    requires n <= |t|
  {
    && (forall i :: 0 <= i < n ==> t[i].reply.ret <= 0)
    && (forall i :: first <= i < n ==> !t[i].reply.refused)
  }

  /** Each of these domain queries left the search open. */
  predicate Open(t: seq<Step>, first: nat, n: nat)
    requires n <= |t|
  {
    forall i :: first <= i < n ==> KeepsTrying(t[i].reply)
  }

  /** No domain is left to try after the first m. */
  predicate Exhausted(name: seq<byte>, domains: seq<seq<byte>>, o: Options, t: seq<Step>, m: nat)
    requires Early(name, o) + m <= |t|
  {
    if Searches(name, o) && domains != [] then
      m > 0 && (m == |domains| || !o.dnsrch || !KeepsTrying(t[Early(name, o) + m - 1].reply))
    else
      m == 0
  }

  /** The error of a search that got nowhere. */
  predicate Reports(t: seq<Step>, first: nat, m: nat, herrno: int)
    requires first + m <= |t| && t != []
  {
    herrno ==
    if first == 1 then t[0].reply.herrno
    else if AnyNoData(t, first, m) then NO_DATA
    else if AnyServerFailed(t, first, m) then TRY_AGAIN
    else t[|t| - 1].reply.herrno
  }

  /** The last query was answered. */
  predicate Answered(t: seq<Step>) {
    t != [] && t[|t| - 1].reply.ret > 0
  }

  /** A domain query was refused, which ends the search at once. */
  predicate Refused(t: seq<Step>, first: nat, m: nat) {
    m > 0 && |t| == first + m && t[|t| - 1].reply.refused
  }

  /**
    * The law of a search without a host alias: t lists the queries with their outcomes and m is the
    * number of domains asked for, which are a prefix of the list, in order; the name as it is comes
    * first if it has enough dots, else last.
    */
  predicate Law(name: seq<byte>, domains: seq<seq<byte>>, o: Options, t: seq<Step>, m: nat, ret: int, herrno: int) {
    var first := Early(name, o);
    && t != [] && SoFar(name, domains, o, t, m)
    && |t| <= first + m + 1
    && (|t| == first + m + 1 ==> first == 0 && Exhausted(name, domains, o, t, m))
    && Unanswered(t, first, |t| - 1)
    && (m > 1 ==> Open(t, first, first + m - 1))
    && var last := t[|t| - 1].reply;
       if Answered(t) then ret == last.ret && herrno == last.herrno
       else if Refused(t, first, m) then ret == -1 && herrno == TRY_AGAIN
       else |t| == m + 1 && Exhausted(name, domains, o, t, m) && ret == -1 && Reports(t, first, m, herrno)
  }

  lemma DotsSnoc(s: seq<byte>, k: nat)
    requires k < |s|
    ensures Dots(s[..k + 1]) == Dots(s[..k]) + if s[k] == DOT then 1 else 0
  {
    assert s[..k + 1][..k] == s[..k];
  }

  lemma NextDomain(name: seq<byte>, domains: seq<seq<byte>>, o: Options, t: seq<Step>, m: nat, r: Outcome)
    requires SoFar(name, domains, o, t, m) && |t| == Early(name, o) + m
    requires m < |domains| && Searches(name, o) && (m > 0 ==> o.dnsrch)
    ensures SoFar(name, domains, o, t + [Step(Within(name, domains, m), r)], m + 1)
  {
    var u := t + [Step(Within(name, domains, m), r)];
    forall i | 0 <= i < |u|
      ensures Planned(name, domains, Early(name, o), m + 1, i, u[i].ask)
    {
      if i < |t| {
        assert Planned(name, domains, Early(name, o), m, i, t[i].ask);
      }
    }
  }

  lemma Longer(t: seq<Step>, first: nat, m: nat, s: Step)
    requires |t| == first + m
    ensures AnyNoData(t + [s], first, m + 1) == (AnyNoData(t, first, m) || NoData(s.reply))
    ensures AnyServerFailed(t + [s], first, m + 1) == (AnyServerFailed(t, first, m) || ServerFailed(s.reply))
    ensures AnyNoData(t + [s], first, m) == AnyNoData(t, first, m)
    ensures AnyServerFailed(t + [s], first, m) == AnyServerFailed(t, first, m)
  {
    var u := t + [s];
    assert u[|t|] == s && forall i :: 0 <= i < |t| ==> u[i] == t[i];
    if i :| first <= i < |t| && NoData(t[i].reply) {
      assert NoData(u[i].reply);
    }
    if i :| first <= i < |t| && ServerFailed(t[i].reply) {
      assert ServerFailed(u[i].reply);
    }
    if i :| first <= i < first + m && NoData(u[i].reply) {
      assert NoData(t[i].reply);
    }
    if i :| first <= i < first + m && ServerFailed(u[i].reply) {
      assert ServerFailed(t[i].reply);
    }
    if NoData(s.reply) {
      assert NoData(u[|t|].reply);
    }
    if ServerFailed(s.reply) {
      assert ServerFailed(u[|t|].reply);
    }
  }

  lemma Nothing(t: seq<Step>, first: nat)
    requires first <= |t|
    ensures !AnyNoData(t, first, 0) && !AnyServerFailed(t, first, 0)
  {
  }

  lemma Worth(r: Outcome)
    ensures NoData(r) == (r.herrno == NO_DATA)
    ensures ServerFailed(r) == (r.herrno == TRY_AGAIN && r.servfail)
    ensures KeepsTrying(r) == (NoData(r) || r.herrno == HOST_NOT_FOUND || ServerFailed(r))
  {
  }

  /** A search under way: m domains tried, all in vain. */
  predicate Trying(name: seq<byte>, domains: seq<seq<byte>>, o: Options, t: seq<Step>, m: nat) {
    var first := Early(name, o);
    && SoFar(name, domains, o, t, m)
    && |t| == first + m
    && Unanswered(t, first, |t|)
    && (m > 1 ==> Open(t, first, first + m - 1))
  }

  lemma NoQueryYet(name: seq<byte>, domains: seq<seq<byte>>, o: Options)
    requires Early(name, o) == 0
    ensures Trying(name, domains, o, [], 0)
  {
  }

  /** The name as it is, tried first. */
  lemma FirstQuery(name: seq<byte>, domains: seq<seq<byte>>, o: Options, r: Outcome)
    requires Early(name, o) == 1
    ensures r.ret > 0 ==> Law(name, domains, o, [Step(AsIs(name), r)], 0, r.ret, r.herrno)
    ensures r.ret <= 0 ==> Trying(name, domains, o, [Step(AsIs(name), r)], 0)
  {
  }

  /** One more domain. */
  lemma DomainQuery(name: seq<byte>, domains: seq<seq<byte>>, o: Options, t: seq<Step>, m: nat, r: Outcome)
    requires Trying(name, domains, o, t, m) && m < |domains| && Searches(name, o)
    requires m > 0 ==> o.dnsrch && KeepsTrying(t[|t| - 1].reply)
    ensures var u := t + [Step(Within(name, domains, m), r)];
            && (r.ret > 0 ==> Law(name, domains, o, u, m + 1, r.ret, r.herrno))
            && (r.ret <= 0 && r.refused ==> Law(name, domains, o, u, m + 1, -1, TRY_AGAIN))
            && (r.ret <= 0 && !r.refused ==> Trying(name, domains, o, u, m + 1))
  {
    hide QueryText, KeepsTrying, Planned, Searches;
    NextDomain(name, domains, o, t, m, r);
  }

  /** The name as it is, tried last. */
  lemma LastQuery(name: seq<byte>, domains: seq<seq<byte>>, o: Options, t: seq<Step>, m: nat, r: Outcome, herrno: int)
    requires Trying(name, domains, o, t, m) && Exhausted(name, domains, o, t, m) && Early(name, o) == 0
    ensures var u := t + [Step(AsIs(name), r)];
            && (r.ret > 0 ==> Law(name, domains, o, u, m, r.ret, r.herrno))
            && (r.ret <= 0 && Reports(u, 0, m, herrno) ==> Law(name, domains, o, u, m, -1, herrno))
  {
    hide QueryText, KeepsTrying, Reports;
    var u := t + [Step(AsIs(name), r)];
    forall i | 0 <= i < |u|
      ensures Planned(name, domains, 0, m, i, u[i].ask)
    {
      if i < |t| {
        assert Planned(name, domains, 0, m, i, t[i].ask);
      }
    }
  }

  /** No domain left, and the name as it is has been tried. */
  lemma NoQueryLeft(name: seq<byte>, domains: seq<seq<byte>>, o: Options, t: seq<Step>, m: nat, herrno: int)
    requires Trying(name, domains, o, t, m) && Exhausted(name, domains, o, t, m) && Early(name, o) == 1
    requires Reports(t, 1, m, herrno)
    ensures Law(name, domains, o, t, m, -1, herrno)
  {
    hide QueryText, KeepsTrying, Reports;
  }

  /**
    * Look a name up by the search rules.  `alias` is the host alias of the name, which only
    * counts when the name has no dots.
    */
  method Search(name: seq<byte>, domains: seq<seq<byte>>, o: Options, alias: Option<seq<byte>>, net: nat -> Reply)
    returns (ret: int, herrno: int, t: seq<Step>, m: nat)
    ensures Went(t, net) && Proper(herrno)
    ensures Dots(name) == 0 && alias.Some? ==>
              var r := ResQuery(net(0), HOST_NOT_FOUND);
              t == [Step(Ask(None, alias.value), r)] && ret == r.ret && herrno == r.herrno
    ensures !(Dots(name) == 0 && alias.Some?) ==> Law(name, domains, o, t, m, ret, herrno)
  {
    hide QueryText, KeepsTrying, AnyNoData, AnyServerFailed, NoData, ServerFailed, Law, Trying, ResQuery, Went;
    herrno := HOST_NOT_FOUND;
    t, m := [], 0;
    NothingWent(net);
    var dots, cp := 0, 0;
    while cp < |name|
      invariant cp <= |name| && dots == Dots(name[..cp])
    {
      DotsSnoc(name, cp);
      dots := dots + if name[cp] == DOT then 1 else 0;
      cp := cp + 1;
    }
    assert name[..cp] == name;
    var trailingDot := cp > 0 && name[cp - 1] == DOT;
    if dots == 0 && alias.Some? {
      var r := ResQuery(net(0), herrno);
      WentOn(t, net, Ask(None, alias.value));
      t := t + [Step(Ask(None, alias.value), r)];
      ErrorsAreProper(t, net, 1);
      return r.ret, r.herrno, t, m;
    }
    var saved, triedAsIs := -1, false;
    if dots >= o.ndots {
      var r := ResQuery(net(0), herrno);
      FirstQuery(name, domains, o, r);
      WentOn(t, net, AsIs(name));
      t := t + [Step(AsIs(name), r)];
      assert t == [Step(AsIs(name), r)];
      ErrorsAreProper(t, net, 1);
      ret, herrno := r.ret, r.herrno;
      if ret > 0 {
        return;
      }
      saved := herrno;
      triedAsIs := true;
    } else {
      NoQueryYet(name, domains, o);
    }
    ghost var first := Early(name, o);
    var gotNoData, gotServfail := false, false;
    Nothing(t, first);
    assert Searches(name, o) == ((dots == 0 && o.defNames) || (dots > 0 && !trailingDot && o.dnsrch));
    if (dots == 0 && o.defNames) || (dots > 0 && !trailingDot && o.dnsrch) {
      var done := false;
      while m < |domains| && !done
        invariant m <= |domains| && |t| == first + m && Trying(name, domains, o, t, m)
        invariant Went(t, net) && herrno == Before(t, |t|)
        invariant first == 1 ==> t[0].reply.herrno == saved
        invariant done == (m > 0 && (!o.dnsrch || !KeepsTrying(t[|t| - 1].reply)))
        invariant gotNoData == AnyNoData(t, first, m) && gotServfail == AnyServerFailed(t, first, m)
      {
        var r, step := ResQuery(net(|t|), herrno), Within(name, domains, m);
        DomainQuery(name, domains, o, t, m, r);
        Longer(t, first, m, Step(step, r));
        WentOn(t, net, step);
        t, m := t + [Step(step, r)], m + 1;
        ErrorsAreProper(t, net, |t|);
        ret, herrno := r.ret, r.herrno;
        if ret > 0 {
          return;
        }
        if r.refused {
          return -1, TRY_AGAIN, t, m;
        }
        Worth(r);
        if herrno == NO_DATA {
          gotNoData := true;
        } else if herrno == HOST_NOT_FOUND {
        } else if herrno == TRY_AGAIN && r.servfail {
          gotServfail := true;
        } else {
          done := true;
        }
        if !o.dnsrch {
          done := true;
        }
      }
    }
    assert Exhausted(name, domains, o, t, m);
    ghost var before := t;
    if !triedAsIs {
      var r := ResQuery(net(|t|), herrno);
      Longer(t, first, m, Step(AsIs(name), r));
      WentOn(t, net, AsIs(name));
      t := t + [Step(AsIs(name), r)];
      ErrorsAreProper(t, net, |t|);
      ret, herrno := r.ret, r.herrno;
      if ret > 0 {
        LastQuery(name, domains, o, before, m, r, herrno);
        return;
      }
    }
    ErrorsAreProper(t, net, |t|);
    if saved != -1 {
      herrno := saved;
    } else if gotNoData {
      herrno := NO_DATA;
    } else if gotServfail {
      herrno := TRY_AGAIN;
    }
    ret := -1;
    assert Reports(t, first, m, herrno);
    if first == 0 {
      LastQuery(name, domains, o, before, m, t[|t| - 1].reply, herrno);
    } else {
      ErrorsAreProper(t, net, 1);
      NoQueryLeft(name, domains, o, t, m, herrno);
    }
  }

  lemma NothingWent(net: nat -> Reply)
    ensures Went([], net)
  {
  }

  /** A search that fails other than by a refusal asks for the name as it is exactly once. */
  lemma BareNameOnce(name: seq<byte>, domains: seq<seq<byte>>, o: Options, t: seq<Step>, m: nat, ret: int, herrno: int)
    requires Law(name, domains, o, t, m, ret, herrno) && !Answered(t) && !Refused(t, Early(name, o), m)
    ensures ret == -1
    ensures exists i :: 0 <= i < |t| && t[i].ask.domain.None?
    ensures forall i, j :: 0 <= i < |t| && 0 <= j < |t| && t[i].ask.domain.None? && t[j].ask.domain.None? ==> i == j
    ensures forall i :: 0 <= i < |t| && t[i].ask.domain.None? ==> t[i].ask == AsIs(name)
  {
    hide QueryText;
    var first := Early(name, o);
    forall i | 0 <= i < |t|
      ensures t[i].ask.domain.None? <==> !(first <= i < first + m)
      ensures t[i].ask.domain.None? ==> t[i].ask == AsIs(name)
    {
      assert Planned(name, domains, first, m, i, t[i].ask);
    }
    assert t[if first == 1 then 0 else m].ask.domain.None?;
  }

  /** Every search goes through the domains from the first on, in order, and never asks for one twice. */
  lemma DomainsInOrder(name: seq<byte>, domains: seq<seq<byte>>, o: Options, t: seq<Step>, m: nat, ret: int, herrno: int)
    requires Law(name, domains, o, t, m, ret, herrno)
    ensures forall i, j :: 0 <= i < j < |t| && t[i].ask.domain.Some? && t[j].ask.domain.Some? ==>
                             t[i].ask.domain.value < t[j].ask.domain.value
    ensures forall d: nat :: d < m <==> exists i :: 0 <= i < |t| && t[i].ask.domain == Some(d)
  {
    hide QueryText;
    var first := Early(name, o);
    forall i | 0 <= i < |t|
      ensures t[i].ask.domain == if first <= i < first + m then Some(i - first) else None
    {
      assert Planned(name, domains, first, m, i, t[i].ask);
    }
    forall d: nat | d < m
      ensures exists i :: 0 <= i < |t| && t[i].ask.domain == Some(d)
    {
      assert t[first + d].ask.domain == Some(d);
    }
  }

  /**
    * What a search that fails other than by a refusal reports, by the exchanges it made: the error
    * of the name as it is if that came first; else NO_DATA if some domain's exchange left it, else
    * TRY_AGAIN if some server failed on a domain, else the error of the last exchange.
    */
  lemma FailureReports(name: seq<byte>, domains: seq<seq<byte>>, o: Options, t: seq<Step>, m: nat, ret: int, herrno: int,
                       net: nat -> Reply)
    requires Law(name, domains, o, t, m, ret, herrno) && Went(t, net)
    requires !Answered(t) && !Refused(t, Early(name, o), m)
    ensures t != [] && Early(name, o) + m <= |t|
    ensures Early(name, o) == 1 ==> herrno == ResQuery(net(0), HOST_NOT_FOUND).herrno == t[0].reply.herrno
    ensures Early(name, o) == 0 ==>
              && (herrno == 4 <== exists i :: 0 <= i < m && t[i].reply.herrno == 4)
              && (herrno == 2 <== (forall i :: 0 <= i < m ==> t[i].reply.herrno != 4)
                                  && exists i :: 0 <= i < m && t[i].reply.herrno == 2 && t[i].reply.servfail)
              && ((forall i :: 0 <= i < m ==> t[i].reply.herrno != 4 && !(t[i].reply.herrno == 2 && t[i].reply.servfail))
                  ==> herrno == t[|t| - 1].reply.herrno)
  {
    hide QueryText, ResQuery;
    assert WentAt(t, net, 0);
    assert forall i :: 0 <= i < m ==> (NoData(t[i].reply) <==> t[i].reply.herrno == 4);
    assert forall i :: 0 <= i < m ==> (ServerFailed(t[i].reply) <==> t[i].reply.herrno == 2 && t[i].reply.servfail);
  }

  /** Are domains to be tried for a name, said of its bytes? */
  predicate WantsDomains(name: seq<byte>, o: Options) {
    if forall k :: 0 <= k < |name| ==> name[k] != 46 then o.defNames else name[|name| - 1] != 46 && o.dnsrch
  }

  lemma {:induction false} NoDots(s: seq<byte>)
    ensures Dots(s) == 0 <==> forall k :: 0 <= k < |s| ==> s[k] != 46
  {
    if s != [] {
      NoDots(s[..|s| - 1]);
      assert forall k :: 0 <= k < |s| - 1 ==> s[k] == s[..|s| - 1][k];
    }
  }

  /**
    * When the name as it is comes first, whether domains are tried, and when they cease to be: after
    * the last, after the first without RES_DNSRCH, and at an error that is neither 4 nor 1, nor 2
    * from a server that failed.
    */
  lemma SearchOrder(name: seq<byte>, domains: seq<seq<byte>>, o: Options, t: seq<Step>, m: nat, ret: int, herrno: int)
    requires Law(name, domains, o, t, m, ret, herrno) && !Answered(t) && !Refused(t, Early(name, o), m)
    ensures
      var dots := |DotPlaces(name)|;
      && (dots >= o.ndots ==> t[0].ask == AsIs(name))
      && (dots < o.ndots && m > 0 ==> t[0].ask == Within(name, domains, 0) && t[|t| - 1].ask == AsIs(name))
    ensures m > 0 <==> WantsDomains(name, o) && domains != []
    ensures
      var first := |t| - m - (if |DotPlaces(name)| >= o.ndots then 0 else 1);
      && 0 <= first && first + m <= |t|
      && (forall i :: first <= i < first + m - 1 ==> MayGoOn(t[i].reply))
      && (0 < m < |domains| ==> !o.dnsrch || !MayGoOn(t[first + m - 1].reply))
  {
    hide QueryText;
    DotsCounted(name);
    NoDots(name);
    var first := Early(name, o);
    assert Planned(name, domains, first, m, 0, t[0].ask);
    assert Planned(name, domains, first, m, |t| - 1, t[|t| - 1].ask);
    assert forall i :: 0 <= i < |t| ==> (KeepsTrying(t[i].reply) <==> MayGoOn(t[i].reply));
  }

  predicate MayGoOn(r: Outcome) {
    r.herrno == 4 || r.herrno == 1 || (r.herrno == 2 && r.servfail)
  }
}
