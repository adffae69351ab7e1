/**
  * What the calls on a socket do to its record: the flags, names and backlog that bind(), listen(),
  * connect(), shutdown(), sendto(), recv() and recvfrom() leave, and whether the call gets as far
  * as the interface.  What the interface answers is part of the call.
  */
module SocketState {
  import opened Bytes

  datatype Kind = Stream | Dgram | Raw | OtherKind

  /** A socket address: the family field and the bytes that its length covers. */
  datatype Addr = Addr(family: int, bytes: seq<byte>)

  const NO_ADDR := Addr(0, [])

  /** Which functions an interface has; nonblocking_check and so on may be NULL. */
  datatype Interface = Interface(
    socket: bool, close: bool, bind: bool, listen: bool, accept: bool, connect: bool, getsockname: bool,
    shutdown: bool, send: bool, sendto: bool, recv: bool, recvfrom: bool, addrlenCheck: bool, nonblockingCheck: bool)

  datatype Errno =
    EINVAL | EFAULT | EAFNOSUPPORT | EOPNOTSUPP | EALREADY | EISCONN | ENOTCONN | EPIPE | EDESTADDRREQ

  datatype State = State(
    family: int, kind: Kind, face: Interface,
    bound: bool, accepted: bool, connected: bool, connecting: bool, blocking: bool,
    inbound: bool, outbound: bool, listening: bool,
    backlog: int, sockname: Addr, peername: Addr)

  /** How a call ends: turned down, finished without the interface, or with what the interface answered. */
  datatype Outcome = Refused(errno: Errno) | Done(ret: int) | Answered(ret: int)

  datatype How = ShutRd | ShutWr | ShutRdWr | BadHow

  /** What an interface does to the record on its way: nothing, or what bind() and its undoing leave. */
  datatype Effect = Untouched | Rebound(bound: bool, name: Addr)

  /** A call with the answers of the interface. */
  datatype Call =
    | Bind(addr: Option<Addr>, ret: int, got: Addr, readyThen: bool)
    | Listen(backlog: int, ret: int)
    | Connect(addr: Option<Addr>, lenOk: bool, ret: int, wouldBlock: bool, effect: Effect, nameRet: int, got: Addr)
    | Shutdown(how: How, ret: int)
    | SendTo(msg: bool, to: Option<Addr>, tolen: nat, ret: int, effect: Effect)
    | Recv(buf: bool, ret: int)
    | RecvFrom(buf: bool, from: bool, fromlen: bool, ret: int)
    | SetBlocking(blocking: bool, ret: int)

  /** What socket() makes of a record. */
  function Fresh(family: int, kind: Kind, face: Interface): State {
    State(family, kind, face, false, false, false, false, true, true, true, false, 0, NO_ADDR, NO_ADDR)
  }

  /** The interface's nonblocking_check: a connection under way may have been made. */
  function Poll(f: State, ready: bool): State {
    if f.face.nonblockingCheck && ready && f.connecting && !f.connected
    then f.(connecting := false, connected := true)
    else f
  }

  /** An interface may bind a socket on the way, if it is not bound. */
  function Binding(f: State, effect: Effect): State {
    if f.bound || effect.Untouched? then f else f.(sockname := effect.name, bound := effect.bound)
  }

  function BindStep(f: State, c: Call): (State, Outcome)
    requires c.Bind?
  {
    if f.bound then (f, Refused(EINVAL))
    else if c.addr.None? then (f, Refused(EFAULT))
    else if f.family != c.addr.value.family then (f, Refused(EAFNOSUPPORT))
    else if !f.face.bind then (f, Refused(EOPNOTSUPP))
    else if c.ret == 0 then (Poll(f, c.readyThen).(sockname := c.got, bound := true), Answered(c.ret))
    else (f.(sockname := NO_ADDR, bound := false), Answered(c.ret))
  }

  function ListenStep(f: State, c: Call): (State, Outcome)
    requires c.Listen?
  {
    if f.kind != Stream then (f, Refused(EOPNOTSUPP))
    else if !f.bound then (f, Refused(EINVAL))
    else if !f.face.listen then (f, Refused(EOPNOTSUPP))
    else (if c.ret != -1 then f.(listening := true, backlog := c.backlog) else f, Answered(c.ret))
  }

  /** A datagram socket only notes the address. */
  function ConnectDgram(f: State, addr: Option<Addr>): (State, Outcome) {
    if addr.None? then (f.(peername := NO_ADDR), Done(0))
    else if addr.value.family != f.family then (f, Refused(EAFNOSUPPORT))
    else (f.(peername := addr.value), Done(0))
  }

  /** What is left of the record once the interface has answered. */
  function ConnectResult(f: State, c: Call): (State, Outcome)
    requires c.Connect? && c.addr.Some?
  {
    if c.ret == 0 then
      var name := if !f.face.getsockname then f.sockname else if c.nameRet == -1 then NO_ADDR else c.got;
      (f.(peername := c.addr.value, sockname := name, connecting := false, connected := true),
       Answered(if f.face.getsockname && c.nameRet != -1 then c.nameRet else 0))
    else if c.ret == -1 && !f.blocking && c.wouldBlock then
      (f.(peername := c.addr.value, connecting := true, connected := false), Answered(-1))
    else
      (f.(peername := NO_ADDR, sockname := NO_ADDR, connected := false), Answered(c.ret))
  }

  function ConnectStep(f: State, c: Call): (State, Outcome)
    requires c.Connect?
  {
    if !f.blocking && f.connecting then (f, Refused(EALREADY))
    else if f.connected && f.kind == Stream then (f, Refused(EISCONN))
    else if f.listening then (f, Refused(EOPNOTSUPP))
    else if (f.kind == Stream || (f.kind == Dgram && c.addr.Some?)) && !(f.face.addrlenCheck && c.lenOk)
    then (f, Refused(EINVAL))
    else if f.kind == Dgram then ConnectDgram(f, c.addr)
    else if c.addr.None? then (f, Refused(EFAULT))
    else if c.addr.value.family != f.family then (f, Refused(EAFNOSUPPORT))
    else if !f.face.connect then (f, Refused(EOPNOTSUPP))
    else ConnectResult(Binding(f, c.effect), c)
  }

  function ShutdownStep(f: State, c: Call): (State, Outcome)
    requires c.Shutdown?
  {
    if !f.connected then (f, Refused(ENOTCONN))
    else if c.how == BadHow then (f, Refused(EINVAL))
    else if !f.face.shutdown then (f, Refused(EOPNOTSUPP))
    else if c.ret != 0 then (f, Answered(c.ret))
    else (f.(inbound := f.inbound && c.how == ShutWr, outbound := f.outbound && c.how == ShutRd), Answered(0))
  }

  function SendToStep(f: State, c: Call): (State, Outcome)
    requires c.SendTo?
  {
    if !c.msg then (f, Refused(EFAULT))
    else if c.to.Some? && c.tolen == 0 then (f, Refused(EINVAL))
    else if !f.outbound then (f, Refused(EPIPE))
    else if f.kind == Stream then
      if !f.connected then (f, Refused(ENOTCONN))
      else if c.to.Some? && c.to.value.bytes != f.peername.bytes then (f, Refused(EISCONN))
      else if !f.face.send then (f, Refused(EOPNOTSUPP))
      else (Binding(f, c.effect), Answered(c.ret))
    else if f.kind == Dgram && c.to.None? && f.peername.family == 0 then (f, Refused(EDESTADDRREQ))
    else if !f.face.sendto then (f, Refused(EOPNOTSUPP))
    else (Binding(f, c.effect), Answered(c.ret))
  }

  function RecvStep(f: State, c: Call): (State, Outcome)
    requires c.Recv?
  {
    if f.kind == Stream && !f.connected then (f, Refused(ENOTCONN))
    else if !c.buf then (f, Refused(EFAULT))
    else if !f.inbound then (f, Done(0))
    else if !f.face.recv then (f, Refused(EOPNOTSUPP))
    else (f, Answered(c.ret))
  }

  function RecvFromStep(f: State, c: Call): (State, Outcome)
    requires c.RecvFrom?
  {
    if !c.buf || (c.from && !c.fromlen) then (f, Refused(EFAULT))
    else if !f.inbound then (f, Done(0))
    else if !f.face.recvfrom then (f, Refused(EOPNOTSUPP))
    else (f, Answered(c.ret))
  }

  /** A call on a socket whose pending connection is, or is not, found ready first. */
  function Step(f: State, ready: bool, c: Call): (State, Outcome) {
    var p := Poll(f, ready);
    match c
    case Bind(_, _, _, _) => BindStep(p, c)
    case Listen(_, _) => ListenStep(p, c)
    case Connect(_, _, _, _, _, _, _) => ConnectStep(p, c)
    case Shutdown(_, _) => ShutdownStep(p, c)
    case SendTo(_, _, _, _, _) => SendToStep(p, c)
    case Recv(_, _) => RecvStep(p, c)
    case RecvFrom(_, _, _, _) => RecvFromStep(p, c)
    case SetBlocking(b, ret) => (p.(blocking := b), Answered(ret))
  }

  /** What accept() makes of the record of a new socket, given the listener's. */
  function Child(listener: State, peer: Addr): State {
    listener.(listening := false, peername := peer, accepted := true, connected := true)
  }

  predicate MayAccept(f: State) {
    f.kind == Stream && f.face.accept && !f.accepted && f.bound && f.listening
  }

  // What every socket keeps

  predicate Sound(f: State) {
    && (f.listening ==> f.kind == Stream && f.bound)
    && (f.accepted ==> f.kind == Stream && f.bound && f.connected)
    && (f.kind == Dgram ==> !f.connected && !f.connecting && f.inbound && f.outbound)
    && (f.kind == Stream && !(f.inbound && f.outbound) ==> f.connected)
  }

  predicate Sends(c: Call) {
    c.SendTo?
  }

  predicate Receives(c: Call) {
    c.Recv? || c.RecvFrom?
  }

  lemma FreshSound(family: int, kind: Kind, face: Interface)
    ensures Sound(Fresh(family, kind, face))
  {
  }

  lemma CopySound(f: State, peer: Addr)
    requires Sound(f) && MayAccept(f)
    ensures Sound(f.(listening := false)) && Sound(Child(f, peer))
    ensures Child(f, peer) == f.(listening := false).(peername := peer, accepted := true, connected := true)
  {
  }

  /** accept() passes soundness on, and a direction shut on the listener is shut on the new socket. */
  lemma ChildSound(f: State, ready: bool, peer: Addr)
    requires Sound(f) && MayAccept(Poll(f, ready))
    ensures var n := Child(Poll(f, ready), peer);
            Sound(n) && !MayAccept(n) && n.inbound == f.inbound && n.outbound == f.outbound
  {
  }

  /** What no call changes, and what no call takes back. */
  predicate Onward(f: State, g: State) {
    && f.kind == g.kind && f.family == g.family && f.face == g.face && f.accepted == g.accepted
    && (f.bound ==> g.bound) && (f.listening ==> g.listening)
    && (!f.inbound ==> !g.inbound) && (!f.outbound ==> !g.outbound)
    && (f.kind == Stream && f.connected ==> g.connected)
  }

  /** From f a call may lead to g. */
  predicate Keeps(f: State, g: State) {
    Onward(f, g) && (Sound(f) ==> Sound(g))
  }

  lemma KeepsItself(f: State)
    ensures Keeps(f, f)
  {
  }

  lemma KeepsTransitive(f: State, g: State, h: State)
    requires Keeps(f, g) && Keeps(g, h)
    ensures Keeps(f, h)
  {
    hide Sound;
  }

  lemma BoundKeeps(f: State, b: bool, name: Addr)
    requires !f.bound
    ensures Keeps(f, f.(sockname := name, bound := b))
  {
  }

  lemma BindKeeps(f: State, c: Call)
    requires c.Bind?
    ensures Keeps(f, BindStep(f, c).0)
  {
    var p := Poll(f, c.readyThen);
    assert p.bound == f.bound;
    hide Keeps, Poll;
    KeepsItself(f);
    PollKeeps(f, c.readyThen);
    if !f.bound {
      BoundKeeps(f, false, NO_ADDR);
      BoundKeeps(p, true, c.got);
      KeepsTransitive(f, p, p.(sockname := c.got, bound := true));
    }
  }

  lemma ListenKeeps(f: State, c: Call)
    requires c.Listen?
    ensures Keeps(f, ListenStep(f, c).0)
  {
  }

  lemma NamedKeeps(f: State, peer: Addr, name: Addr)
    ensures Keeps(f, f.(peername := peer, sockname := name))
  {
  }

  lemma LinkedKeeps(f: State, connecting: bool, connected: bool)
    requires f.kind != Dgram && (f.kind == Stream ==> !f.connected)
    ensures Keeps(f, f.(connecting := connecting, connected := connected))
  {
  }

  lemma BindingKeeps(f: State, effect: Effect)
    ensures Keeps(f, Binding(f, effect))
  {
    hide Keeps;
    KeepsItself(f);
    if !f.bound && effect.Rebound? {
      BoundKeeps(f, effect.bound, effect.name);
    }
  }

  lemma ConnectResultKeeps(f: State, c: Call)
    requires c.Connect? && c.addr.Some? && f.kind != Dgram && (f.kind == Stream ==> !f.connected)
    ensures Keeps(f, ConnectResult(f, c).0)
  {
    hide Keeps;
    var g := ConnectResult(f, c).0;
    var named := f.(peername := g.peername, sockname := g.sockname);
    NamedKeeps(f, g.peername, g.sockname);
    LinkedKeeps(named, g.connecting, g.connected);
    assert g == named.(connecting := g.connecting, connected := g.connected);
    KeepsTransitive(f, named, g);
  }

  lemma ConnectKeeps(f: State, c: Call)
    requires c.Connect?
    ensures Keeps(f, ConnectStep(f, c).0)
  {
    hide Keeps, ConnectResult;
    KeepsItself(f);
    NamedKeeps(f, NO_ADDR, f.sockname);
    if c.addr.Some? {
      NamedKeeps(f, c.addr.value, f.sockname);
      if f.kind != Dgram && (f.kind == Stream ==> !f.connected) {
        BindingKeeps(f, c.effect);
        ConnectResultKeeps(Binding(f, c.effect), c);
        KeepsTransitive(f, Binding(f, c.effect), ConnectResult(Binding(f, c.effect), c).0);
      }
    }
  }

  lemma ShutdownKeeps(f: State, c: Call)
    requires c.Shutdown?
    ensures Keeps(f, ShutdownStep(f, c).0)
  {
  }

  lemma SendToKeeps(f: State, c: Call)
    requires c.SendTo?
    ensures Keeps(f, SendToStep(f, c).0)
  {
    hide Keeps, Binding;
    KeepsItself(f);
    BindingKeeps(f, c.effect);
  }

  lemma RecvKeeps(f: State, c: Call)
    requires c.Recv? || c.RecvFrom?
    ensures Keeps(f, if c.Recv? then RecvStep(f, c).0 else RecvFromStep(f, c).0)
  {
    hide Keeps;
    KeepsItself(f);
  }

  lemma SetBlockingKeeps(f: State, blocking: bool)
    ensures Keeps(f, f.(blocking := blocking))
  {
  }

  lemma PollKeeps(f: State, ready: bool)
    ensures Keeps(f, Poll(f, ready))
  {
  }

  /** Every call keeps what every socket keeps, and takes nothing back. */
  lemma StepKeeps(f: State, ready: bool, c: Call)
    ensures Keeps(f, Step(f, ready, c).0)
  {
    hide BindStep, ListenStep, ConnectStep, ShutdownStep, SendToStep, RecvStep, RecvFromStep, Poll, Keeps;
    PollKeeps(f, ready);
    var p := Poll(f, ready);
    match c {
      case Bind(_, _, _, _) => BindKeeps(p, c);
      case Listen(_, _) => ListenKeeps(p, c);
      case Connect(_, _, _, _, _, _, _) => ConnectKeeps(p, c);
      case Shutdown(_, _) => ShutdownKeeps(p, c);
      case SendTo(_, _, _, _, _) => SendToKeeps(p, c);
      case Recv(_, _) => RecvKeeps(p, c);
      case RecvFrom(_, _, _, _) => RecvKeeps(p, c);
      case SetBlocking(b, _) => SetBlockingKeeps(p, b);
    }
    KeepsTransitive(f, p, Step(f, ready, c).0);
  }

  // Runs

  /**
    * A call of those above, or one that does no more to the record than poll it: accept() on a
    * listener, a closesocket() that fails, getsockname() and the like.
    */
  datatype Event = Called(ready: bool, call: Call) | Polled(ready: bool)

  function Next(f: State, e: Event): State {
    match e
    case Called(ready, call) => Step(f, ready, call).0
    case Polled(ready) => Poll(f, ready)
  }

  /** The state after the first n events of a run. */
  function After(f: State, run: seq<Event>, n: nat): State
    requires n <= |run|
  {
    if n == 0 then f else Next(After(f, run, n - 1), run[n - 1])
  }

  /** How the call that is event i of a run ends. */
  function Ending(f: State, run: seq<Event>, i: nat): Outcome
    requires i < |run| && run[i].Called?
  {
    Step(After(f, run, i), run[i].ready, run[i].call).1
  }

  lemma NextKeeps(f: State, e: Event)
    ensures Keeps(f, Next(f, e))
  {
    match e {
      case Called(ready, call) => StepKeeps(f, ready, call);
      case Polled(ready) => PollKeeps(f, ready);
    }
  }

  /** In every run nothing is taken back from one state to a later one, and soundness is kept. */
  lemma {:induction false} RunKeeps(f: State, run: seq<Event>, i: nat, j: nat)
    requires i <= j <= |run|
    ensures Keeps(After(f, run, i), After(f, run, j))
  {
    hide Next, Keeps;
    if i == j {
      KeepsItself(After(f, run, i));
    } else {
      RunKeeps(f, run, i, j - 1);
      NextKeeps(After(f, run, j - 1), run[j - 1]);
      KeepsTransitive(After(f, run, i), After(f, run, j - 1), After(f, run, j));
    }
  }

  lemma ShutStops(f: State, ready: bool, c: Call)
    ensures !f.outbound && Sends(c) ==> !Step(f, ready, c).1.Answered?
    ensures !f.inbound && Receives(c) ==> !Step(f, ready, c).1.Answered?
  {
  }

  /** In every run, once a direction is shut no later call in that direction gets to the interface. */
  lemma ShutForGood(f: State, run: seq<Event>, i: nat, j: nat)
    requires i <= j < |run| && run[j].Called?
    ensures !After(f, run, i).outbound && Sends(run[j].call) ==> !Ending(f, run, j).Answered?
    ensures !After(f, run, i).inbound && Receives(run[j].call) ==> !Ending(f, run, j).Answered?
  {
    hide Step;
    RunKeeps(f, run, i, j);
    ShutStops(After(f, run, j), run[j].ready, run[j].call);
  }

  /** A successful shutdown() shuts just the directions asked for, and it takes a connection to succeed. */
  lemma ShutdownShuts(f: State, ready: bool, how: How)
    ensures var (n, r) := Step(f, ready, Shutdown(how, 0));
            && (r == Answered(0) <==> Poll(f, ready).connected && f.face.shutdown && how != BadHow)
            && (r == Answered(0) ==> (n.inbound <==> f.inbound && how == ShutWr) && (n.outbound <==> f.outbound && how == ShutRd))
            && (r != Answered(0) ==> n == Poll(f, ready))
  {
  }

  /** Hence no datagram socket is ever shut: shutdown() on one always ends in ENOTCONN. */
  lemma DatagramNeverShut(family: int, face: Interface, run: seq<Event>, i: nat)
    requires i < |run| && run[i].Called? && run[i].call.Shutdown?
    ensures Ending(Fresh(family, Dgram, face), run, i) == Refused(ENOTCONN)
  {
    hide Step;
    var f := Fresh(family, Dgram, face);
    FreshSound(family, Dgram, face);
    RunKeeps(f, run, 0, i);
    NoDatagramShutdown(After(f, run, i), run[i].ready, run[i].call);
  }

  lemma NoDatagramShutdown(f: State, ready: bool, c: Call)
    requires Sound(f) && f.kind == Dgram && c.Shutdown?
    ensures Step(f, ready, c).1 == Refused(ENOTCONN)
  {
  }

  /** A stream send reaches the interface only over a connection that is open for it, and only to the peer. */
  lemma StreamSendReaches(f: State, ready: bool, c: Call)
    requires c.SendTo? && f.kind == Stream
    ensures Step(f, ready, c).1.Answered? <==>
            && c.msg && (c.to.Some? ==> c.tolen > 0 && c.to.value.bytes == f.peername.bytes)
            && Poll(f, ready).connected && f.outbound && f.face.send
  {
  }

  // What the record tells of the run

  /** Event i is a shutdown() that succeeds and shuts the direction in, or out. */
  predicate Shuts(f: State, run: seq<Event>, i: nat, in_: bool)
    requires i < |run|
  {
    && run[i].Called? && run[i].call.Shutdown? && Ending(f, run, i) == Answered(0)
    && run[i].call.how in (if in_ then {ShutRd, ShutRdWr} else {ShutWr, ShutRdWr})
  }

  /** Event i is a listen() that the interface agreed to. */
  predicate Listens(f: State, run: seq<Event>, i: nat)
    requires i < |run|
  {
    run[i].Called? && run[i].call.Listen? && Ending(f, run, i).Answered? && Ending(f, run, i).ret != -1
  }

  /** Event i is a connect() that names the peer of a datagram socket, or says that there is none. */
  predicate NamesPeer(f: State, run: seq<Event>, i: nat)
    requires i < |run|
  {
    run[i].Called? && run[i].call.Connect? && Ending(f, run, i) == Done(0)
  }

  /** What a call makes of the directions, of listening, and of the peer of a datagram socket. */
  predicate Notes(f: State, c: Call, n: State, r: Outcome) {
    && n.kind == f.kind
    && (n.inbound <==> f.inbound && !(c.Shutdown? && r == Answered(0) && c.how in {ShutRd, ShutRdWr}))
    && (n.outbound <==> f.outbound && !(c.Shutdown? && r == Answered(0) && c.how in {ShutWr, ShutRdWr}))
    && (if c.Listen? && r.Answered? && r.ret != -1 then n.listening && n.backlog == c.backlog
        else n.listening == f.listening && n.backlog == f.backlog)
    && (f.kind == Dgram ==>
          n.peername == if c.Connect? && r == Done(0) then if c.addr.Some? then c.addr.value else NO_ADDR else f.peername)
  }

  lemma PollNotes(f: State, ready: bool, c: Call, n: State, r: Outcome)
    requires Notes(Poll(f, ready), c, n, r)
    ensures Notes(f, c, n, r)
  {
  }

  lemma Unnoted(f: State, c: Call, n: State, r: Outcome)
    requires c.Bind? && n.kind == f.kind && n.inbound == f.inbound && n.outbound == f.outbound
    requires n.listening == f.listening && n.backlog == f.backlog && n.peername == f.peername
    ensures Notes(f, c, n, r)
  {
  }

  lemma BindNotes(f: State, c: Call)
    requires c.Bind?
    ensures Notes(f, c, BindStep(f, c).0, BindStep(f, c).1)
  {
    hide BindStep, Notes;
    BindLeaves(f, c);
    Unnoted(f, c, BindStep(f, c).0, BindStep(f, c).1);
  }

  lemma RenamedLeaves(f: State, name: Addr, bound: bool)
    ensures
      var n := f.(sockname := name, bound := bound);
      && n.kind == f.kind && n.inbound == f.inbound && n.outbound == f.outbound && n.listening == f.listening
      && n.backlog == f.backlog && n.peername == f.peername
  {
  }

  lemma BindMakes(f: State, c: Call)
    requires c.Bind?
    ensures
      var n := BindStep(f, c).0;
      n == f || n == Poll(f, c.readyThen).(sockname := c.got, bound := true) || n == f.(sockname := NO_ADDR, bound := false)
  {
    hide Poll;
  }

  lemma BindLeaves(f: State, c: Call)
    requires c.Bind?
    ensures
      var n := BindStep(f, c).0;
      && n.kind == f.kind && n.inbound == f.inbound && n.outbound == f.outbound && n.listening == f.listening
      && n.backlog == f.backlog && n.peername == f.peername
  {
    hide Poll, BindStep;
    BindMakes(f, c);
    PollLeaves(f, c.readyThen);
    RenamedLeaves(f, NO_ADDR, false);
    RenamedLeaves(Poll(f, c.readyThen), c.got, true);
  }

  lemma PollLeaves(f: State, ready: bool)
    ensures
      var p := Poll(f, ready);
      && p.kind == f.kind && p.inbound == f.inbound && p.outbound == f.outbound && p.listening == f.listening
      && p.backlog == f.backlog && p.peername == f.peername
  {
  }

  lemma ListenNotes(f: State, c: Call)
    requires c.Listen?
    ensures Notes(f, c, ListenStep(f, c).0, ListenStep(f, c).1)
  {
  }

  lemma ResultNotes(f: State, c: Call)
    requires c.Connect? && c.addr.Some? && f.kind != Dgram
    ensures Notes(f, c, ConnectResult(f, c).0, ConnectResult(f, c).1)
  {
  }

  lemma BindingLeaves(f: State, effect: Effect)
    ensures
      var p := Binding(f, effect);
      && p.kind == f.kind && p.inbound == f.inbound && p.outbound == f.outbound && p.listening == f.listening
      && p.backlog == f.backlog && p.peername == f.peername
  {
  }

  lemma ConnectNotes(f: State, c: Call)
    requires c.Connect?
    ensures Notes(f, c, ConnectStep(f, c).0, ConnectStep(f, c).1)
  {
    hide ConnectResult, Binding;
    BindingLeaves(f, c.effect);
    if c.addr.Some? && f.kind != Dgram {
      ResultNotes(Binding(f, c.effect), c);
    }
  }

  lemma ShutdownNotes(f: State, c: Call)
    requires c.Shutdown?
    ensures Notes(f, c, ShutdownStep(f, c).0, ShutdownStep(f, c).1)
  {
  }

  lemma SendToNotes(f: State, c: Call)
    requires c.SendTo?
    ensures Notes(f, c, SendToStep(f, c).0, SendToStep(f, c).1)
  {
    hide Binding;
    BindingLeaves(f, c.effect);
  }

  lemma StepNotes(f: State, ready: bool, c: Call)
    ensures Notes(f, c, Step(f, ready, c).0, Step(f, ready, c).1)
  {
    var p := Poll(f, ready);
    assert c.SetBlocking? ==> Notes(p, c, Step(f, ready, c).0, Step(f, ready, c).1);
    hide BindStep, ListenStep, ConnectStep, ShutdownStep, SendToStep, Poll, Notes;
    match c {
      case Bind(_, _, _, _) => BindNotes(p, c);
      case Listen(_, _) => ListenNotes(p, c);
      case Connect(_, _, _, _, _, _, _) => ConnectNotes(p, c);
      case Shutdown(_, _) => ShutdownNotes(p, c);
      case SendTo(_, _, _, _, _) => SendToNotes(p, c);
      case Recv(_, _) => ReceiveNotes(p, c);
      case RecvFrom(_, _, _, _) => ReceiveNotes(p, c);
      case SetBlocking(_, _) =>
    }
    PollNotes(f, ready, c, Step(f, ready, c).0, Step(f, ready, c).1);
  }

  lemma ReceiveNotes(f: State, c: Call)
    requires c.Recv? || c.RecvFrom?
    ensures c.Recv? ==> Notes(f, c, RecvStep(f, c).0, RecvStep(f, c).1)
    ensures c.RecvFrom? ==> Notes(f, c, RecvFromStep(f, c).0, RecvFromStep(f, c).1)
  {
  }

  /** Event n of a run, and the states on its two sides. */
  lemma NextNotes(f: State, run: seq<Event>, n: nat)
    requires n < |run|
    ensures
      var g, h, e := After(f, run, n), After(f, run, n + 1), run[n];
      if e.Called? then Notes(g, e.call, h, Ending(f, run, n))
      else
        && h.kind == g.kind && h.inbound == g.inbound && h.outbound == g.outbound && h.listening == g.listening
        && h.backlog == g.backlog && h.peername == g.peername
  {
    hide Step, Poll, Notes;
    var g, e := After(f, run, n), run[n];
    assert After(f, run, n + 1) == Next(g, e);
    PollLeaves(g, e.ready);
    if e.Called? {
      StepNotes(g, e.ready, e.call);
    }
  }

  /** A direction is open exactly as long as no shutdown() has succeeded in shutting it. */
  lemma {:induction false} OpenUnlessShut(f: State, run: seq<Event>, n: nat)
    requires n <= |run| && f.inbound && f.outbound
    ensures After(f, run, n).inbound <==> forall i :: 0 <= i < n ==> !Shuts(f, run, i, true)
    ensures After(f, run, n).outbound <==> forall i :: 0 <= i < n ==> !Shuts(f, run, i, false)
  {
    hide Step;
    if n > 0 {
      OpenUnlessShut(f, run, n - 1);
      NextNotes(f, run, n - 1);
      var last, before := n - 1, After(f, run, n - 1);
      assert After(f, run, n).inbound <==> before.inbound && !Shuts(f, run, last, true);
      assert After(f, run, n).outbound <==> before.outbound && !Shuts(f, run, last, false);
    }
  }

  /** A socket listens from the first listen() agreed to, with the backlog of the latest. */
  lemma {:induction false} ListensSince(f: State, run: seq<Event>, n: nat)
    requires n <= |run| && !f.listening
    ensures After(f, run, n).listening <==> exists i :: 0 <= i < n && Listens(f, run, i)
    ensures forall i :: 0 <= i < n && Listens(f, run, i) && (forall k :: i < k < n ==> !Listens(f, run, k)) ==>
                          After(f, run, n).backlog == run[i].call.backlog
  {
    hide Step;
    if n > 0 {
      ListensSince(f, run, n - 1);
      NextNotes(f, run, n - 1);
      var last, before := n - 1, After(f, run, n - 1);
      assert if Listens(f, run, last) then After(f, run, n).listening && After(f, run, n).backlog == run[last].call.backlog
             else After(f, run, n).listening == before.listening && After(f, run, n).backlog == before.backlog;
      forall i | 0 <= i < n && Listens(f, run, i) && forall k :: i < k < n ==> !Listens(f, run, k)
        ensures After(f, run, n).backlog == run[i].call.backlog
      {
        if i < n - 1 {
          assert !Listens(f, run, n - 1);
          assert forall k :: i < k < n - 1 ==> !Listens(f, run, k);
        }
      }
    }
  }

  /** The peer of a datagram socket is the address of the latest connect() that succeeded, if there was one and it gave one. */
  lemma {:induction false} PeerIsLatest(f: State, run: seq<Event>, n: nat)
    requires n <= |run| && f.kind == Dgram && f.peername == NO_ADDR
    ensures After(f, run, n).kind == Dgram
    ensures (forall i :: 0 <= i < n ==> !NamesPeer(f, run, i)) ==> After(f, run, n).peername == NO_ADDR
    ensures forall i :: 0 <= i < n && NamesPeer(f, run, i) && (forall k :: i < k < n ==> !NamesPeer(f, run, k)) ==>
                          After(f, run, n).peername == if run[i].call.addr.Some? then run[i].call.addr.value else NO_ADDR
  {
    hide Step;
    if n > 0 {
      PeerIsLatest(f, run, n - 1);
      NextNotes(f, run, n - 1);
      var last, before := n - 1, After(f, run, n - 1);
      assert After(f, run, n).peername ==
             if NamesPeer(f, run, last) then if run[last].call.addr.Some? then run[last].call.addr.value else NO_ADDR
             else before.peername;
      forall i | 0 <= i < n && NamesPeer(f, run, i) && forall k :: i < k < n ==> !NamesPeer(f, run, k)
        ensures After(f, run, n).peername == if run[i].call.addr.Some? then run[i].call.addr.value else NO_ADDR
      {
        if i < n - 1 {
          assert !NamesPeer(f, run, n - 1);
          assert forall k :: i < k < n - 1 ==> !NamesPeer(f, run, k);
        }
      }
    }
  }

  lemma BindTakes(f: State, ready: bool, c: Call)
    requires c.Bind?
    ensures
      var (n, r) := Step(f, ready, c);
      && (r == Answered(0) ==> !f.bound && n.bound && n.sockname == c.got && c.addr.Some? && c.addr.value.family == f.family)
      && (f.bound ==> r == Refused(EINVAL))
  {
  }

  /** A socket is bound once: behind a bind() that succeeds, which notes the name, every bind() ends in EINVAL. */
  lemma BoundOnce(f: State, run: seq<Event>, i: nat, j: nat)
    requires i < j < |run| && run[i].Called? && run[i].call.Bind? && run[j].Called? && run[j].call.Bind?
    requires Ending(f, run, i) == Answered(0)
    ensures After(f, run, i + 1).sockname == run[i].call.got && Ending(f, run, j) == Refused(EINVAL)
  {
    hide Step;
    BindTakes(After(f, run, i), run[i].ready, run[i].call);
    RunKeeps(f, run, i + 1, j);
    BindTakes(After(f, run, j), run[j].ready, run[j].call);
  }

  lemma ConnectTakes(f: State, ready: bool, c: Call)
    requires c.Connect? && f.kind == Stream
    ensures
      var (n, r) := Step(f, ready, c);
      && (r == Answered(0) && c.ret == 0 ==> n.connected && n.peername == c.addr.value)
      && (f.connected || f.listening ==> r.Refused?)
      && n.kind == Stream
  {
  }

  /** A stream socket is connected once: behind a connect() that succeeds, or a listen(), none gets to the interface. */
  lemma ConnectedOnce(f: State, run: seq<Event>, i: nat, j: nat)
    requires i < j < |run| && run[i].Called? && run[j].Called? && run[j].call.Connect? && After(f, run, i).kind == Stream
    requires (run[i].call.Connect? && Ending(f, run, i) == Answered(0) && run[i].call.ret == 0) || Listens(f, run, i)
    ensures Ending(f, run, j).Refused?
  {
    hide Step;
    if run[i].call.Connect? {
      ConnectTakes(After(f, run, i), run[i].ready, run[i].call);
    } else {
      NextNotes(f, run, i);
    }
    RunKeeps(f, run, i, i + 1);
    RunKeeps(f, run, i + 1, j);
    ConnectTakes(After(f, run, j), run[j].ready, run[j].call);
  }
}
