/**
  * res_send(): sending a query to each name server in turn, over datagrams or virtual circuits.
  * The network is an oracle that settles every system call of an attempt; query and response
  * hooks are unset.
  */
module ResolverSend {
  import opened Bytes
  import opened SendTrace

  /** How one pass from the top of a server's turn ends. */
  datatype Verdict = NextServer | SameServer | Finished(result: int)

  /** The local variables of one call. */
  datatype Locals = Locals(circuit: bool, connreset: bool, badns: set<nat>, somewhere: bool, err: int, lastTry: bool)

  // ----- what the methods below make of the passes

  lemma MarkedMore(ps: seq<Pass>, p: Pass)
    requires ps != [] && p.ns == ps[|ps| - 1].ns && (ps[|ps| - 1].marked ==> p.marked)
    ensures forall n: nat :: MarkedIn(Amended(ps, p), n) <==> MarkedIn(ps, n) || (p.marked && n == p.ns)
  {
    var qs := Amended(ps, p);
    assert qs[|ps| - 1] == p && forall k :: 0 <= k < |ps| - 1 ==> qs[k] == ps[k];
  }

  lemma MarkedEntry(ps: seq<Pass>, p: Pass)
    requires !p.marked
    ensures forall n: nat :: MarkedIn(ps + [p], n) <==> MarkedIn(ps, n)
  {
    assert forall k :: 0 <= k < |ps| ==> (ps + [p])[k] == ps[k];
  }

  /** What a pass over a circuit does with the answers of the network. */
  predicate CircuitDid(p: Pass, a: Answer, connreset: bool, v: Verdict) {
    if !p.sent then if p.marked then v == NextServer && !a.connects else v == Finished(-1) && a.fd < 0
    else if !a.sends then p.marked && v == NextServer
    else
      && !p.marked
      && match a.stream
         case NoLength => v == if a.errno == ECONNRESET && !connreset then SameServer else NextServer
         case NoBody => v == NextServer
         case Whole(size) => v == Finished(size)
  }

  lemma CircuitLaw(cfg: Config, p: Pass, a: Answer, connreset: bool, v: Verdict)
    requires CircuitDid(p, a, connreset, v) && p.circuit && !p.bad
    ensures if v.Finished? then Ends(cfg, p, a, v.result) else GoesOn(cfg, p, a)
    ensures v == SameServer <==> Resets(p, a) && !connreset
    ensures !Switches(cfg, p, a) && !Hears(p, a) && Ran(p)
  {
  }

  /** What a pass by datagram does. */
  predicate DatagramDid(cfg: Config, p: Pass, a: Answer, v: Verdict) {
    if !p.sent then if p.marked then v == NextServer && !a.connects else v == Finished(-1) && a.fd < 0
    else if !a.sends then p.marked && v == NextServer
    else
      match a.datagram
      case SelectFails => !p.marked && v == NextServer
      case TimesOut => !p.marked && v == NextServer
      case Received(size, rejected, truncated) =>
        && p.marked == (size > 0 && rejected)
        && v == if size <= 0 || (rejected && !cfg.keepRejected) then NextServer
                else if truncated && !cfg.ignoreTC then SameServer else Finished(size)
  }

  lemma DatagramLaw(cfg: Config, p: Pass, a: Answer, v: Verdict)
    requires DatagramDid(cfg, p, a, v) && !p.circuit && !p.bad
    ensures if v.Finished? then Ends(cfg, p, a, v.result) else GoesOn(cfg, p, a)
    ensures v == SameServer <==> Switches(cfg, p, a)
    ensures !Resets(p, a) && !Ran(p)
  {
  }

  lemma SkippedPass(cfg: Config, p: Pass, a: Answer)
    requires p.bad && !p.sent && !p.marked
    ensures GoesOn(cfg, p, a) && !Switches(cfg, p, a) && !Resets(p, a) && !Hears(p, a) && !Ran(p)
  {
  }

  /** What a pass makes of the locals, and how it ends. */
  ghost predicate Moved(cfg: Config, a: Answer, p: Pass, loc: Locals, loc': Locals, v: Verdict) {
    && (if v.Finished? then Ends(cfg, p, a, v.result) else GoesOn(cfg, p, a))
    && (v == SameServer <==> Switches(cfg, p, a) || (Resets(p, a) && !loc.connreset))
    && (loc'.circuit <==> loc.circuit || Switches(cfg, p, a))
    && (loc'.connreset <==> loc.connreset || Resets(p, a))
    && (loc'.somewhere <==> loc.somewhere || Hears(p, a))
    && (loc'.lastTry <==> loc.lastTry || Ran(p))
    && (!v.Finished? ==> loc'.err == if Ran(p) then a.errno else loc.err)
    && (v == Finished(-1) ==> loc'.err == a.errno)
  }

  /** The locals are what the passes have made of them. */
  ghost predicate Told(cfg: Config, net: nat -> Answer, circuit: bool, ps: seq<Pass>, loc: Locals) {
    && (loc.circuit <==> circuit || AnySwitch(cfg, ps, net))
    && (loc.connreset <==> AnyReset(ps, net))
    && (loc.somewhere <==> AnyHeard(ps, net))
    && (loc.lastTry <==> AnyRan(ps))
    && loc.err == LastErrno(ps, net)
  }

  /** The passes of a call, while it goes on or when it has ended. */
  ghost predicate Story(cfg: Config, net: nat -> Answer, circuit: bool, ps: seq<Pass>, loc: Locals, v: Verdict) {
    && AllPlaced(cfg, net, ps, circuit) && (loc.lastTry <==> AnyRan(ps))
    && if v.Finished? then ps != [] && AllGoOn(cfg, net, ps, |ps| - 1) && Ends(cfg, ps[|ps| - 1], net(|ps| - 1), v.result)
                             && (v.result == -1 ==> loc.err == net(|ps| - 1).errno)
       else AllGoOn(cfg, net, ps, |ps|) && Told(cfg, net, circuit, ps, loc)
  }

  lemma PassTaken(cfg: Config, net: nat -> Answer, circuit: bool, ps: seq<Pass>, p: Pass, from: nat, loc: Locals, loc': Locals, v: Verdict)
    requires Story(cfg, net, circuit, ps, loc, SameServer) && Going(cfg, net, ps, from, p.ns)
    requires p.circuit == loc.circuit && (p.bad <==> MarkedIn(ps, p.ns))
    requires Moved(cfg, net(|ps|), p, loc, loc', v) && p.ns < cfg.servers
    ensures Story(cfg, net, circuit, ps + [p], loc', v)
    ensures if v == SameServer then Going(cfg, net, ps + [p], from, p.ns)
            else TurnAt(cfg, net, ps + [p], from, Turn(0, p.ns, |ps|))
  {
    hide AllPlaced, AllGoOn, AnySwitch, AnyHeard, AnyReset, AnyRan, MarkedIn, Switches, Resets, Hears, Ran, LastErrno, GoesOn, Ends;
    AnyMore(cfg, net, ps, p);
    PlacedMore(cfg, net, ps, circuit, p);
    GoOnMore(cfg, net, ps, p);
    assert (ps + [p])[..|ps|] == ps;
    GoingOn(cfg, net, ps, from, p);
  }

  function Left(loc: Locals): nat {
    (if loc.connreset then 0 else 1) + if loc.circuit then 0 else 1
  }

  /** All servers have failed: the error reported. */
  function GiveUpError(loc: Locals): int {
    if loc.circuit then loc.err else if loc.somewhere then ETIMEDOUT else ECONNREFUSED
  }

  /** The bound on the passes of a call: one for each server and try, and two extra. */
  function Most(cfg: Config): nat {
    (if cfg.retry < 0 then 0 else cfg.retry) * cfg.servers + 2
  }

  function Latest(rounds: nat, ns: nat): int {
    if ns > 0 then rounds else rounds - 1
  }

  /** The turns so far are those of `rounds` whole rounds and `ns` turns more; nothing ran over a circuit before the pass `start`. */
  ghost predicate Rounds(cfg: Config, ps: seq<Pass>, turns: seq<Turn>, rounds: nat, ns: nat, start: nat) {
    && ns <= cfg.servers && start <= |ps|
    && (turns == [] <==> (rounds == 0 || cfg.servers == 0) && ns == 0)
    && (turns != [] ==> var last := turns[|turns| - 1];
                        if ns > 0 then last.round == rounds && last.ns == ns - 1
                        else last.round == rounds - 1 && last.ns == cfg.servers - 1)
    && (forall j :: 0 <= j < |turns| ==>
          && turns[j].round <= Latest(rounds, ns)
          && (turns[j].round < Latest(rounds, ns) ==> turns[j].end < start))
    && (forall k :: 0 <= k < start ==> !Ran(ps[k]))
  }

  function Product(a: nat, b: nat): nat {
    a * b
  }

  lemma ProductOfNone(b: nat)
    ensures Product(0, b) == 0
  {
  }

  lemma ProductRises(a: nat, b: nat, n: nat)
    requires a <= b
    ensures Product(a, n) <= Product(b, n)
  {
  }

  lemma Within(rounds: nat, base: nat, turns: nat, cfg: Config)
    requires rounds < cfg.retry && base == Product(rounds, cfg.servers) && turns <= cfg.servers
    ensures base + turns + 2 <= Most(cfg)
  {
    assert Product(rounds + 1, cfg.servers) == base + cfg.servers;
    ProductRises(rounds + 1, cfg.retry, cfg.servers);
  }

  lemma AllWithin(rounds: nat, base: nat, cfg: Config)
    requires base == Product(rounds, cfg.servers) && if cfg.retry <= 0 then rounds == 0 else rounds <= cfg.retry
    ensures base + 2 <= Most(cfg)
  {
    if cfg.retry > 0 {
      ProductRises(rounds, cfg.retry, cfg.servers);
    }
  }

  lemma ProductStep(a: nat, b: nat)
    ensures Product(a + 1, b) == Product(a, b) + b
  {
  }

  lemma StartStory(cfg: Config, net: nat -> Answer, loc: Locals)
    requires !loc.connreset && !loc.somewhere && !loc.lastTry && loc.err == ETIMEDOUT
    ensures Story(cfg, net, loc.circuit, [], loc, SameServer) && InTurns(cfg, net, [], []) && Rounds(cfg, [], [], 0, 0, 0)
  {
  }

  lemma RoundBegins(cfg: Config, net: nat -> Answer, circuit: bool, ps: seq<Pass>, turns: seq<Turn>, rounds: nat, start: nat, loc: Locals)
    requires InTurns(cfg, net, ps, turns) && Rounds(cfg, ps, turns, rounds, 0, start)
    requires Story(cfg, net, circuit, ps, loc, SameServer) && !loc.lastTry
    ensures Rounds(cfg, ps, turns, rounds, 0, |ps|)
  {
    hide AllPlaced, AllGoOn, Told;
  }

  lemma AnyRound(cfg: Config, net: nat -> Answer, ps: seq<Pass>, from: nat, ns: nat, end: nat, round: nat)
    requires TurnAt(cfg, net, ps, from, Turn(0, ns, end))
    ensures TurnAt(cfg, net, ps, from, Turn(round, ns, end))
  {
    hide Again;
  }

  lemma TurnTaken(cfg: Config, net: nat -> Answer, ps: seq<Pass>, turns: seq<Turn>, qs: seq<Pass>,
                  turn: Turn, rounds: nat, ns: nat, start: nat)
    requires InTurns(cfg, net, ps, turns) && |ps| < |qs| && ps <= qs && turn == Turn(rounds, ns, |qs| - 1)
    requires TurnAt(cfg, net, qs, |ps|, turn) && ns < cfg.servers
    requires Rounds(cfg, ps, turns, rounds, ns, start) && (ns == 0 ==> start == |ps|)
    ensures InTurns(cfg, net, qs, turns + [turn]) && Rounds(cfg, qs, turns + [turn], rounds, ns + 1, start)
  {
    hide TurnAt, Ran;
    TurnAdded(cfg, net, ps, turns, qs, turn);
    forall j | 0 <= j < |turns|
      ensures turns[j].end < |ps|
    {
      assert TurnAt(cfg, net, ps, Begin(turns, j), turns[j]);
      TurnHasServer(cfg, net, ps, Begin(turns, j), turns[j]);
    }
  }

  lemma StoryEnds(cfg: Config, net: nat -> Answer, circuit: bool, ps: seq<Pass>, loc: Locals, v: Verdict)
    requires Story(cfg, net, circuit, ps, loc, v) && v.Finished?
    ensures AllPlaced(cfg, net, ps, circuit) && ps != [] && AllGoOn(cfg, net, ps, |ps| - 1)
    ensures Ends(cfg, ps[|ps| - 1], net(|ps| - 1), v.result) && (v.result == -1 ==> loc.err == net(|ps| - 1).errno)
  {
    hide AllPlaced, AllGoOn, Ends;
  }

  lemma StoryGoesOn(cfg: Config, net: nat -> Answer, circuit: bool, ps: seq<Pass>, loc: Locals, v: Verdict)
    requires Story(cfg, net, circuit, ps, loc, v) && !v.Finished?
    ensures Story(cfg, net, circuit, ps, loc, SameServer)
  {
    hide AllPlaced, AllGoOn, Told;
  }

  lemma CircuitsWereLast(cfg: Config, ps: seq<Pass>, turns: seq<Turn>, rounds: nat, ns: nat, start: nat)
    requires Rounds(cfg, ps, turns, rounds, ns, start)
    ensures CircuitsLast(ps, turns)
  {
    hide Ran;
  }

  lemma RoundEnds(cfg: Config, ps: seq<Pass>, turns: seq<Turn>, rounds: nat, start: nat)
    requires Rounds(cfg, ps, turns, rounds, cfg.servers, start)
    ensures Rounds(cfg, ps, turns, rounds + 1, 0, start)
  {
    hide Ran;
  }

  lemma GaveUp(cfg: Config, net: nat -> Answer, circuit: bool, ps: seq<Pass>, turns: seq<Turn>, loc: Locals, rounds: nat, start: nat)
    requires InTurns(cfg, net, ps, turns) && Rounds(cfg, ps, turns, rounds, 0, start)
    requires Story(cfg, net, circuit, ps, loc, SameServer)
    requires if cfg.retry <= 0 then rounds == 0 else rounds <= cfg.retry
    requires loc.lastTry || rounds >= cfg.retry
    ensures AllPlaced(cfg, net, ps, circuit) && AllGoOn(cfg, net, ps, |ps|) && Completed(cfg, ps, turns) && CircuitsLast(ps, turns)
    ensures GiveUpError(loc) == FinalError(ps, net, circuit)
  {
    CircuitsWereLast(cfg, ps, turns, rounds, 0, start);
    hide AllPlaced, AllGoOn, AnyRan, AnyHeard, AnySwitch, AnyReset, LastErrno, TurnAt, NextTurn, CircuitsLast;
    assert AnyRan(ps) ==> ps != [] by {
      NothingRan();
    }
    if ps != [] {
      ErrorOfLast(cfg, net, circuit, ps, turns);
    }
  }

  lemma NothingRan()
    ensures !AnyRan([])
  {
  }

  /** When all turns are complete, the last pass tells the mode the call is in. */
  lemma ErrorOfLast(cfg: Config, net: nat -> Answer, circuit: bool, ps: seq<Pass>, turns: seq<Turn>)
    requires InTurns(cfg, net, ps, turns) && AllPlaced(cfg, net, ps, circuit) && ps != []
    ensures ps[|ps| - 1].circuit <==> circuit || AnySwitch(cfg, ps, net)
  {
    LastNotAgain(cfg, net, ps, turns);
    hide AnySwitch, AnyReset, Again, InTurns, MarkedIn;
    assert Placed(cfg, net, ps, circuit, |ps| - 1);
    LastMode(cfg, net, ps);
  }

  lemma LastMode(cfg: Config, net: nat -> Answer, ps: seq<Pass>)
    requires ps != [] && !Again(cfg, net, ps, |ps| - 1)
    ensures AnySwitch(cfg, ps, net) <==> AnySwitch(cfg, ps[..|ps| - 1], net)
  {
    hide Switches;
    assert ps == ps[..|ps| - 1] + [ps[|ps| - 1]];
    AnyMore(cfg, net, ps[..|ps| - 1], ps[|ps| - 1]);
  }

  class Resolver {
    /** The socket kept between calls, whether it is a circuit, and whether a datagram socket is connected. */
    var s: int
    var vc: bool
    var connected: bool
    /** All that has happened over all calls, and in the latest one. */
    ghost var trace: seq<Event>
    ghost var run: seq<Event>

    /** The socket is as the trace says; a circuit leads to server k, a connected datagram socket to the first. */
    ghost predicate LinkedTo(k: nat)
      reads this`s, this`vc, this`connected, this`trace
    {
      && (s < 0 ==> !vc && !connected)
      && !(vc && connected)
      && LinkOf(trace) == if s < 0 then Shut else Open(s, vc, if vc then Some(k) else if connected then Some(0) else None)
    }

    ghost predicate Valid()
      reads this`s, this`vc, this`connected, this`trace
    {
      LinkedTo(0)
    }

    /** The locals of the call agree with what has happened in it. */
    ghost predicate Tracks(loc: Locals, before: seq<Event>)
      reads this`trace, this`run
    {
      && trace == before + run
      && BadServers(run) == loc.badns && BadStaysBad(run)
      && (HeardAny(run) <==> loc.somewhere)
      && forall n: nat :: MarkedIn(Passes(), n) <==> n in loc.badns
    }

    /** The passes of the latest call. */
    ghost function Passes(): (ps: seq<Pass>)
      reads this`run
      ensures |ps| == Entries(run)
    {
      PassesOf(run)
    }

    ghost function Here(): Pass
      requires Passes() != []
      reads this`run
    {
      Passes()[|Passes()| - 1]
    }

    /** Only what the pass under way has sent and marked has been added to the passes. */
    ghost predicate Onward(ps: seq<Pass>)
      reads this`run
    {
      ps != [] && Passes() != [] &&
      Passes() == Amended(ps, ps[|ps| - 1].(sent := Here().sent, marked := Here().marked))
    }

    constructor ()
      ensures Valid() && trace == [] && s < 0
    {
      s := -1;
      vc, connected := false, false;
      trace, run := [], [];
    }

    ghost method Log(e: Event)
      modifies this`trace, this`run
      ensures trace == old(trace) + [e] && run == old(run) + [e]
      ensures LinkOf(trace) == After(LinkOf(old(trace)), e)
      ensures Entries(run) == Entries(old(run)) + if e.Entry? then 1 else 0
      ensures BadServers(run) == BadServers(old(run)) + if e.MarkedBad? then {e.ns} else {}
      ensures BadStaysBad(run) <==> BadStaysBad(old(run)) && (e.Sent? ==> e.ns !in BadServers(old(run)))
      ensures HeardAny(run) <==> HeardAny(old(run)) || e == GotSomewhere
      ensures Passes() == Noted(old(Passes()), e)
      ensures !e.Entry? && !e.Sent? && !e.MarkedBad? ==> Passes() == old(Passes())
      ensures forall before :: old(trace) == before + old(run) ==> trace == before + run
    {
      Snoc(trace, e);
      Snoc(run, e);
      trace := trace + [e];
      run := run + [e];
    }

    /** The socket, if there is one, is the one the trace leaves open. */
    ghost predicate Held()
      reads this
    {
      if s < 0 then !vc && !connected && LinkOf(trace) == Shut else LinkOf(trace).Open? && LinkOf(trace).fd == s
    }

    /** _res_close() */
    method Close(ghost loc: Locals, ghost before: seq<Event>)
      requires Held() && Tracks(loc, before)
      modifies this
      ensures Valid() && Tracks(loc, before) && s < 0 && Passes() == old(Passes())
      ensures trace == old(trace) + if old(s) >= 0 then [Closed(old(s))] else []
    {
      hide LinkOf, Entries, BadServers, BadStaysBad, HeardAny;
      if s >= 0 {
        Log(Closed(s));
        s := -1;
        connected := false;
        vc := false;
      }
    }

    /** Give the server up for the rest of the call. */
    method MarkBad(ns: nat, loc: Locals, ghost before: seq<Event>) returns (loc': Locals)
      requires Held() && Tracks(loc, before) && Passes() != [] && Here().ns == ns
      modifies this
      ensures loc' == loc.(badns := loc.badns + {ns})
      ensures Valid() && Tracks(loc', before) && s < 0
      ensures Passes() == Amended(old(Passes()), old(Here()).(marked := true))
    {
      hide LinkOf, Entries, BadServers, BadStaysBad, HeardAny, PassesOf, MarkedIn;
      MarkedMore(Passes(), Here().(marked := true));
      Log(MarkedBad(ns));
      loc' := loc.(badns := loc.badns + {ns});
      Close(loc', before);
    }

    /** Note what becomes of the socket. */
    ghost method LogLink(e: Event, loc: Locals, before: seq<Event>)
      requires (e.Opened? || e.Joined? || e.Parted?) && Tracks(loc, before)
      modifies this`trace, this`run
      ensures Tracks(loc, before) && Passes() == old(Passes()) && LinkOf(trace) == After(LinkOf(old(trace)), e)
    {
      hide LinkOf, Entries, BadServers, BadStaysBad, HeardAny, PassesOf, MarkedIn, After;
      Log(e);
    }

    /** Note that a query is sent to the server of the pass. */
    ghost method LogSent(ns: nat, circuit: bool, loc: Locals, before: seq<Event>)
      requires Tracks(loc, before) && Passes() != [] && !Here().marked && ns !in loc.badns
      requires After(LinkOf(trace), Sent(ns, s, circuit)) == LinkOf(trace)
      modifies this`trace, this`run
      ensures Tracks(loc, before) && LinkOf(trace) == LinkOf(old(trace))
      ensures Passes() == Amended(old(Passes()), old(Here()).(sent := true))
    {
      hide LinkOf, Entries, BadServers, BadStaysBad, HeardAny, PassesOf, MarkedIn, After;
      MarkedMore(Passes(), Here().(sent := true));
      Log(Sent(ns, s, circuit));
    }

    /** Query over a virtual circuit; the answer's size, or what to do instead. */
    method Circuit(ns: nat, a: Answer, loc: Locals, ghost before: seq<Event>)
      returns (v: Verdict, loc': Locals)
      requires Valid() && Tracks(loc, before) && loc.circuit && ns !in loc.badns && (s >= 0 ==> ns == 0)
      requires Passes() != [] && Here() == Pass(ns, true, false, false, false)
      modifies this
      ensures LinkedTo(ns) && (s >= 0 ==> vc)
      ensures Tracks(loc', before) && Onward(old(Passes()))
      ensures CircuitDid(Here(), a, loc.connreset, v)
      ensures s < 0 <==> !v.Finished? || v.result == -1
      ensures loc'.circuit && loc'.lastTry && loc'.somewhere == loc.somewhere
      ensures loc'.connreset <==> loc.connreset || v == SameServer
      ensures !v.Finished? || v.result == -1 ==> loc'.err == a.errno
    {
      hide LinkOf, Entries, BadServers, BadStaysBad, HeardAny, PassesOf, MarkedIn, Noted, Tracks;
      loc' := loc.(lastTry := true);
      TracksAlike(loc, loc', before);
      var stop;
      stop, loc' := JoinCircuit(ns, a, loc', before);
      if stop.Some? {
        return stop.value, loc';
      }
      LogSent(ns, true, loc', before);
      if !a.sends {
        TracksAlike(loc', loc'.(err := a.errno), before);
        loc' := loc'.(err := a.errno);
        loc' := MarkBad(ns, loc', before);
        return NextServer, loc';
      }
      match a.stream
      case NoLength =>
        TracksAlike(loc', loc'.(err := a.errno), before);
        loc' := loc'.(err := a.errno);
        Close(loc', before);
        if a.errno == ECONNRESET && !loc'.connreset {
          TracksAlike(loc', loc'.(connreset := true), before);
          loc' := loc'.(connreset := true);
          return SameServer, loc';
        }
        return NextServer, loc';
      case NoBody =>
        TracksAlike(loc', loc'.(err := a.errno), before);
        loc' := loc'.(err := a.errno);
        Close(loc', before);
        return NextServer, loc';
      case Whole(size) =>
        return Finished(size), loc';
    }

    /** See that there is a circuit to the server. */
    method JoinCircuit(ns: nat, a: Answer, loc: Locals, ghost before: seq<Event>) returns (v: Option<Verdict>, loc': Locals)
      requires Valid() && Tracks(loc, before) && (s >= 0 ==> ns == 0) && Passes() != [] && Here().ns == ns
      modifies this
      ensures LinkedTo(ns) && Tracks(loc', before)
      ensures v.None? ==> s >= 0 && vc && loc' == loc && Passes() == old(Passes())
      ensures v.Some? ==> s < 0 && loc'.err == a.errno && loc' == loc.(badns := loc'.badns, err := a.errno)
      ensures v.Some? ==>
                || (v.value == Finished(-1) && a.fd < 0 && Passes() == old(Passes()))
                || (v.value == NextServer && !a.connects && Passes() == Amended(old(Passes()), old(Here()).(marked := true)))
    {
      hide LinkOf, Entries, BadServers, BadStaysBad, HeardAny, PassesOf, MarkedIn, Noted, Tracks;
      loc' := loc;
      if s < 0 || !vc {
        if s >= 0 {
          Close(loc', before);
        }
        s := a.fd;
        if s < 0 {
          TracksAlike(loc', loc'.(err := a.errno), before);
          loc' := loc'.(err := a.errno);
          return Some(Finished(-1)), loc';
        }
        LogLink(Opened(s, true), loc', before);
        if !a.connects {
          TracksAlike(loc', loc'.(err := a.errno), before);
          loc' := loc'.(err := a.errno);
          loc' := MarkBad(ns, loc', before);
          return Some(NextServer), loc';
        }
        LogLink(Joined(s, ns), loc', before);
        vc := true;
      }
      return None, loc';
    }

    /** See that there is a datagram socket. */
    method OpenDatagram(a: Answer, loc: Locals, ghost before: seq<Event>) returns (ok: bool, loc': Locals)
      requires Valid() && Tracks(loc, before)
      modifies this
      ensures Valid() && Tracks(loc', before) && Passes() == old(Passes())
      ensures if ok then s >= 0 && !vc && loc' == loc else s < 0 && a.fd < 0 && loc' == loc.(err := a.errno)
    {
      hide LinkOf, Entries, BadServers, BadStaysBad, HeardAny;
      loc' := loc;
      if s < 0 || vc {
        if vc {
          Close(loc', before);
        }
        s := a.fd;
        if s < 0 {
          loc' := loc'.(err := a.errno);
          return false, loc';
        }
        LogLink(Opened(s, false), loc', before);
        connected := false;
      }
      ok := true;
    }

    /** Connect the datagram socket when only one server can answer, else see that it is not connected. */
    method JoinOrPart(cfg: Config, first: bool, ns: nat, a: Answer, loc: Locals, ghost before: seq<Event>)
      returns (ok: bool, loc': Locals)
      requires Valid() && Tracks(loc, before) && s >= 0 && !vc && ns < cfg.servers
      requires Passes() != [] && Here().ns == ns
      modifies this
      ensures Valid() && Tracks(loc', before)
      ensures if ok then loc' == loc && s >= 0 && !vc && (connected ==> ns == 0) && Passes() == old(Passes())
              else !a.connects && loc' == loc.(badns := loc.badns + {ns}) && s < 0 &&
                   Passes() == Amended(old(Passes()), old(Here()).(marked := true))
    {
      hide LinkOf, Entries, BadServers, BadStaysBad, HeardAny, PassesOf, MarkedIn;
      loc' := loc;
      if cfg.servers == 1 || (first && ns == 0) {
        if !connected {
          if !a.connects {
            loc' := MarkBad(ns, loc', before);
            return false, loc';
          }
          LogLink(Joined(s, ns), loc', before);
          connected := true;
        }
      } else if connected {
        // connecting to no address undoes the connection
        LogLink(Parted(s), loc', before);
        connected := false;
      }
      ok := true;
    }

    /** The socket part of a datagram query: open if need be, connect or disconnect, send. */
    method SendDatagram(cfg: Config, first: bool, ns: nat, a: Answer, loc: Locals, ghost before: seq<Event>)
      returns (v: Option<Verdict>, loc': Locals)
      requires Valid() && Tracks(loc, before) && !loc.circuit && ns !in loc.badns && ns < cfg.servers
      requires Passes() != [] && Here() == Pass(ns, false, false, false, false)
      modifies this
      ensures Valid() && Tracks(loc', before) && Onward(old(Passes()))
      ensures loc' == loc.(badns := loc'.badns, err := loc'.err)
      ensures v.Some? ==> s < 0 && (Here().sent ==> !a.sends) && DatagramDid(cfg, Here(), a, v.value)
      ensures loc'.err == if v == Some(Finished(-1)) then a.errno else loc.err
      ensures v.None? ==> s >= 0 && !vc && a.sends && loc' == loc && Here() == Pass(ns, false, false, true, false)
    {
      hide LinkOf, Entries, BadServers, BadStaysBad, HeardAny, PassesOf, MarkedIn, Noted;
      var ok;
      ok, loc' := OpenDatagram(a, loc, before);
      if !ok {
        return Some(Finished(-1)), loc';
      }
      ok, loc' := JoinOrPart(cfg, first, ns, a, loc', before);
      if !ok {
        return Some(NextServer), loc';
      }
      LogSent(ns, false, loc', before);
      if !a.sends {
        loc' := MarkBad(ns, loc', before);
        return Some(NextServer), loc';
      }
      return None, loc';
    }

    ghost method Hear(loc: Locals, before: seq<Event>)
      requires Valid() && Tracks(loc, before)
      modifies this`trace, this`run
      ensures Valid() && Tracks(loc.(somewhere := true), before) && Passes() == old(Passes())
    {
      hide LinkOf, Entries, BadServers, BadStaysBad, HeardAny, PassesOf;
      Log(GotSomewhere);
    }

    /** Query by datagram; the answer's size, or what to do instead. */
    method Datagram(cfg: Config, first: bool, ns: nat, a: Answer, loc: Locals, ghost before: seq<Event>)
      returns (v: Verdict, loc': Locals)
      requires Valid() && Tracks(loc, before) && !loc.circuit && ns !in loc.badns && ns < cfg.servers
      requires Passes() != [] && Here() == Pass(ns, false, false, false, false)
      modifies this
      ensures Valid() && Tracks(loc', before) && Onward(old(Passes()))
      ensures DatagramDid(cfg, Here(), a, v)
      ensures s >= 0 ==> !vc && v.Finished? && v.result > 0
      ensures loc'.circuit <==> v == SameServer
      ensures loc'.somewhere <==> loc.somewhere || Hears(Here(), a)
      ensures loc'.connreset == loc.connreset && loc'.lastTry == loc.lastTry
      ensures loc'.err == if v == Finished(-1) then a.errno else loc.err
    {
      hide LinkOf, Entries, BadServers, BadStaysBad, HeardAny, PassesOf, MarkedIn, Tracks, Noted;
      var stop;
      stop, loc' := SendDatagram(cfg, first, ns, a, loc, before);
      if stop.Some? {
        return stop.value, loc';
      }
      ghost var marked;
      v, loc', marked := Await(cfg, ns, a, loc', before);
    }

    /** Wait for the reply to a datagram, and take it or not. */
    method Await(cfg: Config, ns: nat, a: Answer, loc: Locals, ghost before: seq<Event>)
      returns (v: Verdict, loc': Locals, ghost marked: bool)
      requires Valid() && Tracks(loc, before) && !loc.circuit && s >= 0 && !vc && a.sends
      requires Passes() != [] && Here() == Pass(ns, false, false, true, false)
      modifies this
      ensures Valid() && Tracks(loc', before)
      ensures Passes() == if marked then Amended(old(Passes()), old(Here()).(marked := true)) else old(Passes())
      ensures DatagramDid(cfg, Pass(ns, false, false, true, marked), a, v)
      ensures s >= 0 ==> !vc && v.Finished? && v.result > 0
      ensures loc'.circuit <==> v == SameServer
      ensures loc'.somewhere <==> loc.somewhere || Hears(Pass(ns, false, false, true, marked), a)
      ensures loc'.connreset == loc.connreset && loc'.lastTry == loc.lastTry && loc'.err == loc.err
    {
      hide LinkOf, Entries, BadServers, BadStaysBad, HeardAny, PassesOf, MarkedIn, Tracks, Noted;
      loc' := loc;
      marked := false;
      if a.ignored {
        Hear(loc', before);
        loc' := loc'.(somewhere := true);
      }
      if a.datagram == SelectFails {
        Close(loc', before);
        return NextServer, loc', marked;
      }
      if a.datagram == TimesOut {
        Hear(loc', before);
        loc' := loc'.(somewhere := true);
        Close(loc', before);
        return NextServer, loc', marked;
      }
      if a.datagram.size <= 0 {
        Close(loc', before);
        return NextServer, loc', marked;
      }
      Hear(loc', before);
      loc' := loc'.(somewhere := true);
      if a.datagram.rejected {
        loc' := MarkBad(ns, loc', before);
        marked := true;
        if !cfg.keepRejected {
          return NextServer, loc', marked;
        }
      }
      if !cfg.ignoreTC && a.datagram.truncated {
        Close(loc', before);
        TracksAlike(loc', loc'.(circuit := true), before);
        loc' := loc'.(circuit := true);
        return SameServer, loc', marked;
      }
      return Finished(a.datagram.size), loc', marked;
    }

    /** Which servers are bad and whether any was heard of is all of the locals that the trace knows. */
    lemma TracksAlike(loc: Locals, loc': Locals, before: seq<Event>)
      requires Tracks(loc, before) && loc'.badns == loc.badns && loc'.somewhere == loc.somewhere
      ensures Tracks(loc', before)
    {
    }

    /** One pass from the top of a server's turn. */
    method Attempt(cfg: Config, first: bool, ns: nat, a: Answer, loc: Locals, ghost before: seq<Event>)
      returns (v: Verdict, loc': Locals)
      requires Valid() && Tracks(loc, before) && ns < cfg.servers && (s >= 0 ==> ns == 0)
      modifies this
      ensures Valid() && Tracks(loc', before) && Passes() != [] && Passes() == old(Passes()) + [Here()]
      ensures Here().ns == ns && Here().circuit == loc.circuit && (Here().bad <==> MarkedIn(old(Passes()), ns))
      ensures Moved(cfg, a, Here(), loc, loc', v) && (!v.Finished? ==> s < 0)
      ensures Left(loc') < Left(loc) + if v == SameServer then 0 else 1
      ensures (loc.circuit ==> loc'.circuit) && (loc.lastTry || (loc.circuit && ns !in loc.badns) ==> loc'.lastTry)
      ensures v.Finished? && s >= 0 ==> v.result >= 0 && cfg.stayOpen && (vc ==> cfg.useVC && ns == 0)
    {
      hide LinkOf, Entries, BadServers, BadStaysBad, HeardAny, PassesOf, MarkedIn;
      ghost var p := Pass(ns, loc.circuit, MarkedIn(Passes(), ns), false, false);
      MarkedEntry(Passes(), p);
      Log(Entry(ns, loc.circuit));
      assert Passes() == old(Passes()) + [p] && Here() == p;
      hide Switches, Resets, Hears, Ran, GoesOn, Ends, Noted, CircuitDid, DatagramDid;
      if ns in loc.badns {
        Close(loc, before);
        SkippedPass(cfg, p, a);
        return NextServer, loc;
      }
      if loc.circuit {
        v, loc' := Circuit(ns, a, loc, before);
        CircuitLaw(cfg, Here(), a, loc.connreset, v);
      } else {
        v, loc' := Datagram(cfg, first, ns, a, loc, before);
        DatagramLaw(cfg, Here(), a, v);
      }
      if v.Finished? && v.result != -1 {
        if (loc'.circuit && (!cfg.useVC || ns != 0)) || !cfg.stayOpen {
          Close(loc', before);
        }
      }
    }

    /**
      * Take the turn of one server: attempts, from the top each time the server is to be asked
      * again, which happens once for a connection reset and once for a truncated answer.
      */
    method Turn(cfg: Config, try: int, ns: nat, net: nat -> Answer, k: nat, loc: Locals, ghost circuit: bool, ghost before: seq<Event>)
      returns (v: Verdict, try': int, k': nat, loc': Locals)
      requires Valid() && Tracks(loc, before) && ns < cfg.servers && (s >= 0 ==> ns == 0)
      requires loc.lastTry ==> try == cfg.retry
      requires k == |Passes()| && Story(cfg, net, circuit, Passes(), loc, SameServer)
      modifies this
      ensures Valid() && Tracks(loc', before) && k' == |Passes()| > k && old(Passes()) <= Passes()
      ensures TurnAt(cfg, net, Passes(), k, SendTrace.Turn(0, ns, k' - 1))
      ensures v != SameServer && Story(cfg, net, circuit, Passes(), loc', v) && (v == NextServer ==> s < 0)
      ensures v.Finished? && s >= 0 ==> v.result >= 0 && cfg.stayOpen && (vc ==> cfg.useVC)
      ensures k' + Left(loc') <= k + Left(loc) + 1
      ensures (loc.circuit ==> loc'.circuit) && (loc.lastTry || (loc.circuit && ns !in loc.badns) ==> loc'.lastTry)
      ensures try' == if loc'.lastTry then cfg.retry else try
    {
      hide LinkOf, Entries, BadServers, BadStaysBad, HeardAny, PassesOf, MarkedIn, Tracks, LinkedTo, Moved, Left;
      hide Going, TurnAt, Story, Told;
      try', k', loc' := try, k, loc;
      v := SameServer;
      NoneYet(cfg, net, Passes(), ns);
      while v == SameServer
        invariant Valid() && Tracks(loc', before) && k' == |Passes()| && old(Passes()) <= Passes()
        invariant Story(cfg, net, circuit, Passes(), loc', v)
        invariant v != SameServer ==> k' > k
        invariant if v == SameServer then Going(cfg, net, Passes(), k, ns) else TurnAt(cfg, net, Passes(), k, SendTrace.Turn(0, ns, k' - 1))
        invariant if v == NextServer then s < 0 else v == SameServer && s >= 0 ==> ns == 0
        invariant v.Finished? && s >= 0 ==> v.result >= 0 && cfg.stayOpen && (vc ==> cfg.useVC)
        invariant k' + Left(loc') <= k + Left(loc) + if v == SameServer then 0 else 1
        invariant v == SameServer && k' == k ==> loc' == loc
        invariant k' > k && (loc.lastTry || (loc.circuit && ns !in loc.badns)) ==> loc'.lastTry
        invariant (loc.circuit ==> loc'.circuit) && try' == if loc'.lastTry then cfg.retry else try
        decreases Left(loc'), v == SameServer
      {
        ghost var ps := Passes();
        ghost var was := loc';
        v, loc' := Attempt(cfg, try' == 0, ns, net(k'), loc', before);
        PassTaken(cfg, net, circuit, ps, Here(), k, was, loc', v);
        k' := k' + 1;
        if loc'.lastTry {
          try' := cfg.retry;
        }
      }
    }

    /**
      * Send a query of `length` bytes.  Besides the result and the error left behind, `turns` tells
      * how the passes made up the turns of the servers, and `gaveUp` whether all were in vain.
      */
    method Send(cfg: Config, length: int, net: nat -> Answer)
      returns (ret: int, err: int, ghost gaveUp: bool, ghost turns: seq<SendTrace.Turn>)
      requires Valid()
      modifies this
      ensures Valid() && trace == old(trace) + run
      ensures |Passes()| <= Most(cfg)
      ensures cfg.useVC || length > PACKET_SIZE ==> |Passes()| <= cfg.servers + 1
      ensures BadStaysBad(run)
      ensures s >= 0 ==> cfg.stayOpen && ret >= 0 && (vc ==> cfg.useVC)
      ensures AllPlaced(cfg, net, Passes(), cfg.useVC || length > PACKET_SIZE)
      ensures InTurns(cfg, net, Passes(), turns) && CircuitsLast(Passes(), turns)
      ensures !gaveUp ==>
                && Passes() != [] && AllGoOn(cfg, net, Passes(), |Passes()| - 1)
                && Ends(cfg, Here(), net(|Passes()| - 1), ret) && (ret == -1 ==> err == net(|Passes()| - 1).errno)
      ensures gaveUp ==>
                && AllGoOn(cfg, net, Passes(), |Passes()|) && Completed(cfg, Passes(), turns)
                && ret == -1 && s < 0 && err == FinalError(Passes(), net, cfg.useVC || length > PACKET_SIZE)
    {
      hide LinkOf, Entries, BadServers, BadStaysBad, HeardAny, PassesOf, MarkedIn, Tracks, Story, Told;
      hide TurnAt, InTurns, CircuitsLast, AllPlaced, AllGoOn, Ends, Rounds, LinkedTo, Held;
      ghost var before := trace;
      run := [];
      var loc := Locals(cfg.useVC || length > PACKET_SIZE, false, {}, false, ETIMEDOUT, false);
      ghost var began := loc.circuit;
      turns := [];
      StartTracks(loc, before);
      StartStory(cfg, net, loc);
      assert Left(loc) == if began then 1 else 2;
      hide Left, GiveUpError, Most, Product;
      ProductOfNone(cfg.servers);
      var try: int, k: nat := 0, 0;
      ghost var rounds: nat, base: nat, start: nat := 0, 0, 0;
      while try < cfg.retry
        invariant Valid() && Tracks(loc, before) && (rounds > 0 && cfg.servers > 0 ==> s < 0)
        invariant k == |Passes()| && Story(cfg, net, began, Passes(), loc, SameServer)
        invariant InTurns(cfg, net, Passes(), turns) && Rounds(cfg, Passes(), turns, rounds, 0, start)
        invariant (if cfg.retry <= 0 then rounds == 0 else rounds <= cfg.retry) && base == Product(rounds, cfg.servers)
        invariant if loc.lastTry then try > cfg.retry else try == rounds
        invariant k + Left(loc) <= base + 2
        invariant began ==> loc.circuit && k + Left(loc) <= (if rounds == 0 then 0 else cfg.servers) + 1
        invariant began && (rounds == 0 || cfg.servers == 0) ==> loc.badns == {}
        invariant began && rounds > 0 && cfg.servers > 0 ==> loc.lastTry
        decreases cfg.retry - try
      {
        var ns: nat := 0;
        RoundBegins(cfg, net, began, Passes(), turns, rounds, start, loc);
        start := |Passes()|;
        while ns < cfg.servers
          invariant ns <= cfg.servers && Valid() && Tracks(loc, before) && (ns > 0 || (rounds > 0 && cfg.servers > 0) ==> s < 0)
          invariant k == |Passes()| && Story(cfg, net, began, Passes(), loc, SameServer)
          invariant InTurns(cfg, net, Passes(), turns) && Rounds(cfg, Passes(), turns, rounds, ns, start)
          invariant rounds < cfg.retry && try == if loc.lastTry then cfg.retry else rounds
          invariant k + Left(loc) <= base + ns + 2
          invariant began ==> loc.circuit && k + Left(loc) <= ns + 1
          invariant ns == 0 ==> start == |Passes()|
          invariant began && ns == 0 ==> loc.badns == {}
          invariant began && ns > 0 ==> loc.lastTry
        {
          var v;
          ghost var ps := Passes();
          v, try, k, loc := Turn(cfg, try, ns, net, k, loc, began, before);
          ghost var turn := SendTrace.Turn(rounds, ns, k - 1);
          AnyRound(cfg, net, Passes(), |ps|, ns, k - 1, rounds);
          TurnTaken(cfg, net, ps, turns, Passes(), turn, rounds, ns, start);
          turns := turns + [turn];
          if v.Finished? {
            TracksMeans(loc, before);
            StoryEnds(cfg, net, began, Passes(), loc, v);
            CircuitsWereLast(cfg, Passes(), turns, rounds, ns + 1, start);
            Within(rounds, base, ns + 1, cfg);
            return v.result, loc.err, false, turns;
          }
          StoryGoesOn(cfg, net, began, Passes(), loc, v);
          ns := ns + 1;
        }
        try := try + 1;
        RoundEnds(cfg, Passes(), turns, rounds, start);
        ProductStep(rounds, cfg.servers);
        rounds, base := rounds + 1, base + cfg.servers;
      }
      ValidHeld();
      Close(loc, before);
      TracksMeans(loc, before);
      AllWithin(rounds, base, cfg);
      GaveUp(cfg, net, began, Passes(), turns, loc, rounds, start);
      return -1, GiveUpError(loc), true, turns;
    }

    lemma TracksMeans(loc: Locals, before: seq<Event>)
      requires Tracks(loc, before)
      ensures trace == before + run && BadStaysBad(run) && (HeardAny(run) <==> loc.somewhere)
    {
    }

    lemma ValidHeld()
      requires Valid()
      ensures Held()
    {
    }

    lemma StartTracks(loc: Locals, before: seq<Event>)
      requires run == [] && trace == before && loc.badns == {} && !loc.somewhere
      ensures Tracks(loc, before) && Passes() == []
    {
      assert before + [] == before;
    }

  }
}
