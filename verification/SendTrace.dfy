/**
  * What happens in a call of res_send(), event by event and pass by pass, and the laws it keeps.  The
  * network is an oracle that settles every system call of an attempt.
  */
module SendTrace {
  import opened Bytes

  const ETIMEDOUT := 110
  const ECONNREFUSED := 111
  const ECONNRESET := 104
  const PACKET_SIZE := 512

  /** The parts of the resolver's options that steer sending. */
  datatype Config = Config(retry: int, servers: nat, useVC: bool, stayOpen: bool, ignoreTC: bool, keepRejected: bool)

  /** How waiting for a datagram ends, after any number of replies that are ignored. */
  datatype Datagram = SelectFails | TimesOut | Received(size: int, rejected: bool, truncated: bool)

  /** How reading from a circuit ends. */
  datatype Stream = NoLength | NoBody | Whole(size: nat)

  /** What the network does in one attempt: descriptor opened, calls that succeed, what is read, errno. */
  datatype Answer = Answer(fd: int, connects: bool, sends: bool, ignored: bool, datagram: Datagram, stream: Stream, errno: int)

  /** What is recorded of a run; Joined and Parted tell of connect() to a server and to no address. */
  datatype Event =
    | Entry(ns: nat, circuit: bool)
    | Opened(fd: int, circuit: bool)
    | Joined(fd: int, ns: nat)
    | Parted(fd: int)
    | Closed(fd: int)
    | Sent(ns: nat, fd: int, circuit: bool)
    | MarkedBad(ns: nat)
    | GotSomewhere

  /** The socket a trace leaves open, of which kind, and the server it is connected to; or the trace broke a rule. */
  datatype Link = Shut | Open(fd: int, circuit: bool, peer: Option<nat>) | Broken

  /**
    * One event after another.  A socket must be open to be used, and closed before another is
    * opened; a circuit carries a query only to the server it is connected to, and so does a
    * datagram socket that is connected.
    */
  function After(l: Link, e: Event): Link {
    match e
    case Opened(fd, circuit) => if l == Shut && fd >= 0 then Open(fd, circuit, None) else Broken
    case Joined(fd, ns) => if l.Open? && l.fd == fd then l.(peer := Some(ns)) else Broken
    case Parted(fd) => if l.Open? && l.fd == fd then l.(peer := None) else Broken
    case Closed(fd) => if l.Open? && l.fd == fd then Shut else Broken
    case Sent(ns, fd, circuit) => if l == Open(fd, circuit, Some(ns)) || (!circuit && l == Open(fd, false, None)) then l else Broken
    case _ => l
  }

  ghost function LinkOf(t: seq<Event>): Link {
    if t == [] then Shut else After(LinkOf(t[..|t| - 1]), t[|t| - 1])
  }

  ghost function Entries(t: seq<Event>): nat {
    if t == [] then 0 else Entries(t[..|t| - 1]) + if t[|t| - 1].Entry? then 1 else 0
  }

  ghost function BadServers(t: seq<Event>): set<nat> {
    if t == [] then {}
    else BadServers(t[..|t| - 1]) + if t[|t| - 1].MarkedBad? then {t[|t| - 1].ns} else {}
  }

  /** Whenever something is sent to a server, it has not been marked bad before. */
  ghost predicate BadStaysBad(t: seq<Event>) {
    t == [] ||
    (BadStaysBad(t[..|t| - 1]) && (t[|t| - 1].Sent? ==> t[|t| - 1].ns !in BadServers(t[..|t| - 1])))
  }

  ghost predicate HeardAny(t: seq<Event>) {
    t != [] && (t[|t| - 1] == GotSomewhere || HeardAny(t[..|t| - 1]))
  }

  /**
    * One pass from the top of a server's turn: whether over a circuit, whether its server had been
    * marked bad before, whether a query was sent, and whether the server was marked bad in it.
    */
  datatype Pass = Pass(ns: nat, circuit: bool, bad: bool, sent: bool, marked: bool)

  ghost predicate MarkedIn(ps: seq<Pass>, ns: nat) {
    exists k :: 0 <= k < |ps| && ps[k].marked && ps[k].ns == ns
  }

  function Amended(ps: seq<Pass>, p: Pass): seq<Pass>
    requires ps != []
  {
    ps[..|ps| - 1] + [p]
  }

  /** The passes once an event more has happened. */
  ghost function Noted(ps: seq<Pass>, e: Event): seq<Pass> {
    match e
    case Entry(ns, circuit) => ps + [Pass(ns, circuit, MarkedIn(ps, ns), false, false)]
    case Sent(_, _, _) => if ps == [] then ps else Amended(ps, ps[|ps| - 1].(sent := true))
    case MarkedBad(_) => if ps == [] then ps else Amended(ps, ps[|ps| - 1].(marked := true))
    case _ => ps
  }

  /** The passes a trace tells of. */
  ghost function PassesOf(t: seq<Event>): (ps: seq<Pass>)
    ensures |ps| == Entries(t)
  {
    if t == [] then [] else Noted(PassesOf(t[..|t| - 1]), t[|t| - 1])
  }

  lemma Snoc(t: seq<Event>, e: Event)
    ensures PassesOf(t + [e]) == Noted(PassesOf(t), e)
    ensures Entries(t + [e]) == Entries(t) + if e.Entry? then 1 else 0
    ensures LinkOf(t + [e]) == After(LinkOf(t), e)
    ensures BadServers(t + [e]) == BadServers(t) + if e.MarkedBad? then {e.ns} else {}
    ensures BadStaysBad(t + [e]) <==> BadStaysBad(t) && (e.Sent? ==> e.ns !in BadServers(t))
    ensures HeardAny(t + [e]) <==> HeardAny(t) || e == GotSomewhere
  {
    hide After, Noted;
    assert (t + [e])[..|t|] == t;
  }

  /** What BadStaysBad says of any two moments of a run. */
  lemma {:induction false} NeverSentAgain(t: seq<Event>, i: nat, j: nat)
    requires BadStaysBad(t) && i < j < |t| && t[i].MarkedBad? && t[j].Sent?
    ensures t[i].ns != t[j].ns
    decreases |t|
  {
    if j == |t| - 1 {
      MarkedIsBad(t[..j], i);
    } else {
      NeverSentAgain(t[..|t| - 1], i, j);
    }
  }

  lemma {:induction false} MarkedIsBad(t: seq<Event>, i: nat)
    requires i < |t| && t[i].MarkedBad?
    ensures t[i].ns in BadServers(t)
    decreases |t|
  {
    if i < |t| - 1 {
      MarkedIsBad(t[..|t| - 1], i);
    }
  }

  ghost function Opens(t: seq<Event>): int {
    if t == [] then 0
    else
      Opens(t[..|t| - 1]) + match t[|t| - 1]
                            case Opened(_, _) => 1
                            case Closed(_) => -1
                            case _ => 0
  }

  /** A trace that keeps the rules has closed all it opened, but for the socket still open. */
  lemma {:induction false} OpensBalance(t: seq<Event>)
    requires LinkOf(t) != Broken
    ensures Opens(t) == if LinkOf(t).Open? then 1 else 0
    decreases |t|
  {
    if t != [] {
      OpensBalance(t[..|t| - 1]);
    }
  }

  /**
    * What the rules say of any send in a trace: its socket is open and of its kind, and if it is
    * connected, then to the server the query is for; a circuit always is.
    */
  lemma {:induction false} SentToPeer(t: seq<Event>, i: nat)
    requires LinkOf(t) != Broken && i < |t| && t[i].Sent?
    ensures
      var l := LinkOf(t[..i]);
      && l.Open? && l.fd == t[i].fd && l.circuit == t[i].circuit
      && (l.peer.Some? || l.circuit ==> l.peer == Some(t[i].ns))
    decreases |t|
  {
    var front := t[..|t| - 1];
    if i < |front| {
      assert t[..i] == front[..i];
      SentToPeer(front, i);
    }
  }

  /** A reply of that size is what an attempt over a circuit, or by datagram, was answered. */
  predicate Answers(cfg: Config, circuit: bool, a: Answer, size: int) {
    if circuit then a.stream.Whole? && a.stream.size == size
    else
      && a.datagram.Received? && a.datagram.size == size > 0
      && (a.datagram.rejected ==> cfg.keepRejected) && (a.datagram.truncated ==> cfg.ignoreTC)
  }

  // ----- what a pass may do

  /** The query of this pass was sent, and a reply of that size is the answer to it. */
  predicate Replies(cfg: Config, p: Pass, a: Answer, size: int) {
    p.sent && a.sends && Answers(cfg, p.circuit, a, size)
  }

  ghost predicate Quiet(cfg: Config, p: Pass, a: Answer) {
    forall size :: !Replies(cfg, p, a, size)
  }

  /** A datagram, if any, that the server answered for want of ability or will. */
  predicate Rejects(p: Pass, a: Answer) {
    !p.circuit && a.datagram.Received? && a.datagram.size > 0 && a.datagram.rejected
  }

  /**
    * A pass sends its query unless its server is bad, or there is no socket or no connection.  It
    * gives its server up when the connection or the sending fails, or the server rejects the query;
    * `ended` tells that the call ended for want of a socket.
    */
  predicate Lawful(p: Pass, a: Answer, ended: bool) {
    && (p.bad ==> !p.sent && !p.marked)
    && (!p.bad && !p.sent ==> a.fd < 0 || !a.connects)
    && (p.marked <==> !p.bad && if p.sent then !a.sends || Rejects(p, a) else !ended)
  }

  /** A truncated datagram has the pass after it, with the same server, use a circuit. */
  predicate Switches(cfg: Config, p: Pass, a: Answer) {
    && p.sent && !p.circuit && a.sends && a.datagram.Received? && a.datagram.size > 0
    && (a.datagram.rejected ==> cfg.keepRejected) && a.datagram.truncated && !cfg.ignoreTC
  }

  /** The circuit was reset before anything was read. */
  predicate Resets(p: Pass, a: Answer) {
    p.sent && p.circuit && a.sends && a.stream == NoLength && a.errno == ECONNRESET
  }

  /** A server was heard of: something came by datagram, or nothing did within the time. */
  predicate Hears(p: Pass, a: Answer) {
    && p.sent && !p.circuit && a.sends
    && (a.ignored || a.datagram.TimesOut? || (a.datagram.Received? && a.datagram.size > 0))
  }

  /** The query of this pass was for a circuit. */
  predicate Ran(p: Pass) {
    p.circuit && !p.bad
  }

  /** A pass after which the call goes on. */
  ghost predicate GoesOn(cfg: Config, p: Pass, a: Answer) {
    Lawful(p, a, false) && Quiet(cfg, p, a)
  }

  /** A pass that ends the call, with the answer or for want of a socket. */
  predicate Ends(cfg: Config, p: Pass, a: Answer, result: int) {
    Lawful(p, a, result == -1) && if result == -1 then !p.sent && a.fd < 0 else Replies(cfg, p, a, result)
  }

  // ----- how the passes of a call follow each other

  ghost predicate AnySwitch(cfg: Config, ps: seq<Pass>, net: nat -> Answer) {
    exists k :: 0 <= k < |ps| && Switches(cfg, ps[k], net(k))
  }

  ghost predicate AnyReset(ps: seq<Pass>, net: nat -> Answer) {
    exists k :: 0 <= k < |ps| && Resets(ps[k], net(k))
  }

  ghost predicate AnyHeard(ps: seq<Pass>, net: nat -> Answer) {
    exists k :: 0 <= k < |ps| && Hears(ps[k], net(k))
  }

  ghost predicate AnyRan(ps: seq<Pass>) {
    exists k :: 0 <= k < |ps| && Ran(ps[k])
  }

  /** The errno left by the last pass that ran over a circuit. */
  ghost function LastErrno(ps: seq<Pass>, net: nat -> Answer): int {
    if ps == [] then ETIMEDOUT
    else if Ran(ps[|ps| - 1]) then net(|ps| - 1).errno
    else LastErrno(ps[..|ps| - 1], net)
  }

  /** The error of a call that gives up: of the circuit, or of datagrams that were or were not heard of. */
  ghost function FinalError(ps: seq<Pass>, net: nat -> Answer, circuit: bool): int {
    if if ps == [] then circuit else ps[|ps| - 1].circuit then LastErrno(ps, net)
    else if AnyHeard(ps, net) then ETIMEDOUT else ECONNREFUSED
  }

  ghost predicate AllGoOn(cfg: Config, net: nat -> Answer, ps: seq<Pass>, n: nat)
    requires n <= |ps|
  {
    forall k :: 0 <= k < n ==> GoesOn(cfg, ps[k], net(k))
  }

  /** A pass uses a circuit from the start on, or behind a truncated reply; its server is bad if an earlier pass marked it. */
  ghost predicate Placed(cfg: Config, net: nat -> Answer, ps: seq<Pass>, circuit: bool, k: nat)
    requires k < |ps|
  {
    && (ps[k].circuit <==> circuit || AnySwitch(cfg, ps[..k], net))
    && (ps[k].bad <==> MarkedIn(ps[..k], ps[k].ns))
  }

  ghost predicate AllPlaced(cfg: Config, net: nat -> Answer, ps: seq<Pass>, circuit: bool) {
    forall k :: 0 <= k < |ps| ==> Placed(cfg, net, ps, circuit, k)
  }

  /** The same server is asked again: behind a truncated reply, and behind the first reset of a circuit. */
  ghost predicate Again(cfg: Config, net: nat -> Answer, ps: seq<Pass>, k: nat)
    requires k < |ps|
  {
    Switches(cfg, ps[k], net(k)) || (Resets(ps[k], net(k)) && !AnyReset(ps[..k], net))
  }

  /** A server's turn in a round, and the last pass of it. */
  datatype Turn = Turn(round: nat, ns: nat, end: nat)

  ghost function Begin(turns: seq<Turn>, j: nat): nat
    requires j <= |turns|
  {
    if j == 0 then 0 else turns[j - 1].end + 1
  }

  /** The passes of a turn: all but the last have the server asked again. */
  ghost predicate TurnAt(cfg: Config, net: nat -> Answer, ps: seq<Pass>, from: nat, turn: Turn) {
    && turn.ns < cfg.servers && from <= turn.end < |ps|
    && (forall k :: from <= k <= turn.end ==> ps[k].ns == turn.ns)
    && (forall k :: from <= k < turn.end ==> Again(cfg, net, ps, k))
    && !Again(cfg, net, ps, turn.end)
  }

  /** A turn under way: so far each of its passes has the server asked again. */
  ghost predicate Going(cfg: Config, net: nat -> Answer, ps: seq<Pass>, from: nat, ns: nat) {
    from <= |ps| && forall k :: from <= k < |ps| ==> ps[k].ns == ns && Again(cfg, net, ps, k)
  }

  /** After each server comes the next, and after the last the first of the next round. */
  predicate NextTurn(cfg: Config, a: Turn, b: Turn) {
    if a.ns + 1 < cfg.servers then b.round == a.round && b.ns == a.ns + 1 else b.round == a.round + 1 && b.ns == 0
  }

  /** The turns are what the passes are made of. */
  ghost predicate InTurns(cfg: Config, net: nat -> Answer, ps: seq<Pass>, turns: seq<Turn>) {
    && Begin(turns, |turns|) == |ps|
    && (turns != [] ==> turns[0].round == 0 && turns[0].ns == 0)
    && (forall j :: 0 <= j < |turns| ==> TurnAt(cfg, net, ps, Begin(turns, j), turns[j]))
    && (forall j :: 0 <= j < |turns| - 1 ==> NextTurn(cfg, turns[j], turns[j + 1]))
  }

  /** Nothing ran over a circuit before the last round. */
  ghost predicate CircuitsLast(ps: seq<Pass>, turns: seq<Turn>) {
    forall j, k :: 0 <= j < |turns| && turns[j].round < turns[|turns| - 1].round && 0 <= k <= turns[j].end && k < |ps| ==> !Ran(ps[k])
  }

  /** A call that gives up has completed its last round: the one in which a circuit was run, or the last there is. */
  ghost predicate Completed(cfg: Config, ps: seq<Pass>, turns: seq<Turn>) {
    if cfg.retry <= 0 || cfg.servers == 0 then turns == []
    else
      && turns != []
      && var last := turns[|turns| - 1];
         last.ns == cfg.servers - 1 && (if AnyRan(ps) then last.round < cfg.retry else last.round == cfg.retry - 1)
  }

  /** Every server has had its turn in every round up to the last. */
  lemma {:induction false} EveryTurnTaken(cfg: Config, net: nat -> Answer, ps: seq<Pass>, turns: seq<Turn>, j: nat, round: nat, ns: nat)
    requires InTurns(cfg, net, ps, turns) && j < |turns| && ns < cfg.servers
    requires round < turns[j].round || (round == turns[j].round && ns <= turns[j].ns)
    ensures exists i :: 0 <= i <= j && turns[i].round == round && turns[i].ns == ns
  {
    hide TurnAt, Begin;
    assert TurnAt(cfg, net, ps, Begin(turns, j), turns[j]);
    if round != turns[j].round || ns != turns[j].ns {
      if j > 0 {
        assert NextTurn(cfg, turns[j - 1], turns[j - 1 + 1]);
        assert TurnAt(cfg, net, ps, Begin(turns, j - 1), turns[j - 1]);
        TurnHasServer(cfg, net, ps, Begin(turns, j - 1), turns[j - 1]);
        EveryTurnTaken(cfg, net, ps, turns, j - 1, round, ns);
      }
    }
  }

  lemma TurnHasServer(cfg: Config, net: nat -> Answer, ps: seq<Pass>, from: nat, turn: Turn)
    requires TurnAt(cfg, net, ps, from, turn)
    ensures turn.ns < cfg.servers && from <= turn.end < |ps|
  {
  }

  /**
    * A call that gives up has tried every server in every round, and no query that it sent to one was
    * answered.
    */
  lemma GivesUpInVain(cfg: Config, net: nat -> Answer, ps: seq<Pass>, turns: seq<Turn>, round: nat, ns: nat)
    requires InTurns(cfg, net, ps, turns) && Completed(cfg, ps, turns) && AllGoOn(cfg, net, ps, |ps|)
    requires ns < cfg.servers && round < cfg.retry && (AnyRan(ps) ==> turns != [] && round <= turns[|turns| - 1].round)
    ensures exists k :: 0 <= k < |ps| && ps[k].ns == ns
    ensures exists j :: 0 <= j < |turns| && turns[j].round == round && turns[j].ns == ns && turns[j].end < |ps| && ps[turns[j].end].ns == ns
    ensures forall k, size :: 0 <= k < |ps| ==> !Replies(cfg, ps[k], net(k), size)
  {
    hide Begin;
    EveryTurnTaken(cfg, net, ps, turns, |turns| - 1, round, ns);
    var j :| 0 <= j < |turns| && turns[j].round == round && turns[j].ns == ns;
    assert TurnAt(cfg, net, ps, Begin(turns, j), turns[j]);
    forall k, size | 0 <= k < |ps|
      ensures !Replies(cfg, ps[k], net(k), size)
    {
      assert GoesOn(cfg, ps[k], net(k));
    }
  }

  /** The first pass that is answered ends the call, which returns the size of that answer. */
  lemma FirstAnswerReturned(cfg: Config, net: nat -> Answer, ps: seq<Pass>, ret: int, k: nat, size: int)
    requires ps != [] && AllGoOn(cfg, net, ps, |ps| - 1) && Ends(cfg, ps[|ps| - 1], net(|ps| - 1), ret)
    requires k < |ps| && Replies(cfg, ps[k], net(k), size)
    ensures k == |ps| - 1 && ret == size
  {
  }

  lemma TurnIsOver(cfg: Config, net: nat -> Answer, ps: seq<Pass>, from: nat, turn: Turn)
    requires TurnAt(cfg, net, ps, from, turn)
    ensures turn.end < |ps| && !Again(cfg, net, ps, turn.end)
  {
    hide Again;
  }

  lemma LastNotAgain(cfg: Config, net: nat -> Answer, ps: seq<Pass>, turns: seq<Turn>)
    requires InTurns(cfg, net, ps, turns) && ps != []
    ensures !Again(cfg, net, ps, |ps| - 1)
  {
    hide Again, NextTurn, TurnAt;
    var last := |turns| - 1;
    assert TurnAt(cfg, net, ps, Begin(turns, last), turns[last]);
    TurnIsOver(cfg, net, ps, Begin(turns, last), turns[last]);
  }

  // ----- one more pass, one more turn

  lemma AnyMore(cfg: Config, net: nat -> Answer, ps: seq<Pass>, p: Pass)
    ensures AnySwitch(cfg, ps + [p], net) <==> AnySwitch(cfg, ps, net) || Switches(cfg, p, net(|ps|))
    ensures AnyReset(ps + [p], net) <==> AnyReset(ps, net) || Resets(p, net(|ps|))
    ensures AnyHeard(ps + [p], net) <==> AnyHeard(ps, net) || Hears(p, net(|ps|))
    ensures AnyRan(ps + [p]) <==> AnyRan(ps) || Ran(p)
    ensures LastErrno(ps + [p], net) == if Ran(p) then net(|ps|).errno else LastErrno(ps, net)
  {
    hide Switches, Resets, Hears, Ran;
    SwitchMore(cfg, net, ps, p);
    ResetMore(net, ps, p);
    HeardMore(net, ps, p);
    hide AnySwitch, AnyReset, AnyHeard;
    var qs := ps + [p];
    assert qs[..|qs| - 1] == ps && qs[|ps|] == p;
    assert forall k :: 0 <= k < |ps| ==> qs[k] == ps[k];
  }

  lemma SwitchMore(cfg: Config, net: nat -> Answer, ps: seq<Pass>, p: Pass)
    ensures AnySwitch(cfg, ps + [p], net) <==> AnySwitch(cfg, ps, net) || Switches(cfg, p, net(|ps|))
  {
    hide Switches;
    assert forall k :: 0 <= k < |ps| ==> (ps + [p])[k] == ps[k];
    assert (ps + [p])[|ps|] == p;
  }

  lemma ResetMore(net: nat -> Answer, ps: seq<Pass>, p: Pass)
    ensures AnyReset(ps + [p], net) <==> AnyReset(ps, net) || Resets(p, net(|ps|))
  {
    hide Resets;
    assert forall k :: 0 <= k < |ps| ==> (ps + [p])[k] == ps[k];
    assert (ps + [p])[|ps|] == p;
  }

  lemma HeardMore(net: nat -> Answer, ps: seq<Pass>, p: Pass)
    ensures AnyHeard(ps + [p], net) <==> AnyHeard(ps, net) || Hears(p, net(|ps|))
  {
    hide Hears;
    assert forall k :: 0 <= k < |ps| ==> (ps + [p])[k] == ps[k];
    assert (ps + [p])[|ps|] == p;
  }

  lemma PlacedMore(cfg: Config, net: nat -> Answer, ps: seq<Pass>, circuit: bool, p: Pass)
    requires AllPlaced(cfg, net, ps, circuit)
    requires p.circuit <==> circuit || AnySwitch(cfg, ps, net)
    requires p.bad <==> MarkedIn(ps, p.ns)
    ensures AllPlaced(cfg, net, ps + [p], circuit)
  {
    hide AnySwitch, MarkedIn;
    var qs := ps + [p];
    forall k | 0 <= k < |qs|
      ensures Placed(cfg, net, qs, circuit, k)
    {
      if k < |ps| {
        assert qs[..k] == ps[..k] && Placed(cfg, net, ps, circuit, k);
      } else {
        assert qs[..k] == ps;
      }
    }
  }

  lemma AgainMore(cfg: Config, net: nat -> Answer, ps: seq<Pass>, qs: seq<Pass>, k: nat)
    requires ps <= qs && k < |ps|
    ensures Again(cfg, net, qs, k) <==> Again(cfg, net, ps, k)
  {
    hide Switches, Resets, AnyReset;
    assert qs[..k] == ps[..k];
  }

  lemma GoOnMore(cfg: Config, net: nat -> Answer, ps: seq<Pass>, p: Pass)
    requires AllGoOn(cfg, net, ps, |ps|)
    ensures AllGoOn(cfg, net, ps + [p], |ps|)
    ensures GoesOn(cfg, p, net(|ps|)) ==> AllGoOn(cfg, net, ps + [p], |ps| + 1)
  {
    hide GoesOn;
  }

  lemma NoneYet(cfg: Config, net: nat -> Answer, ps: seq<Pass>, ns: nat)
    ensures Going(cfg, net, ps, |ps|, ns)
  {
  }

  lemma GoingOn(cfg: Config, net: nat -> Answer, ps: seq<Pass>, from: nat, p: Pass)
    requires Going(cfg, net, ps, from, p.ns)
    ensures
      var qs := ps + [p];
      if Again(cfg, net, qs, |ps|) then Going(cfg, net, qs, from, p.ns)
      else p.ns < cfg.servers ==> TurnAt(cfg, net, qs, from, Turn(0, p.ns, |ps|))
  {
    hide Again;
    var qs := ps + [p];
    forall k | from <= k < |ps|
      ensures qs[k].ns == p.ns && Again(cfg, net, qs, k)
    {
      AgainMore(cfg, net, ps, qs, k);
    }
  }

  /** Turns already taken stay as they were. */
  lemma TurnStays(cfg: Config, net: nat -> Answer, ps: seq<Pass>, qs: seq<Pass>, from: nat, turn: Turn)
    requires TurnAt(cfg, net, ps, from, turn) && ps <= qs
    ensures TurnAt(cfg, net, qs, from, turn)
  {
    hide Again;
    forall k | from <= k <= turn.end
      ensures Again(cfg, net, qs, k) <==> Again(cfg, net, ps, k)
    {
      AgainMore(cfg, net, ps, qs, k);
    }
  }

  lemma TurnAdded(cfg: Config, net: nat -> Answer, ps: seq<Pass>, turns: seq<Turn>, qs: seq<Pass>, turn: Turn)
    requires InTurns(cfg, net, ps, turns) && ps <= qs && turn.end + 1 == |qs|
    requires TurnAt(cfg, net, qs, |ps|, turn)
    requires if turns == [] then turn.round == 0 && turn.ns == 0 else NextTurn(cfg, turns[|turns| - 1], turn)
    ensures InTurns(cfg, net, qs, turns + [turn])
  {
    hide TurnAt;
    var all := turns + [turn];
    forall j | 0 <= j < |all|
      ensures TurnAt(cfg, net, qs, Begin(all, j), all[j])
    {
      assert Begin(all, j) == Begin(turns, j);
      if j < |turns| {
        assert TurnAt(cfg, net, ps, Begin(turns, j), turns[j]);
        TurnStays(cfg, net, ps, qs, Begin(turns, j), turns[j]);
      }
    }
    forall j | 0 <= j < |all| - 1
      ensures NextTurn(cfg, all[j], all[j + 1])
    {
      assert j < |turns| - 1 ==> NextTurn(cfg, turns[j], turns[j + 1]);
    }
  }
}
