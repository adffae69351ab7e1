/**
  * Sockets: the records of open sockets, the table that holds them and the file descriptors that
  * lead to them.  What the interface and the C library answer is passed to the calls.
  */
module Sockets {
  import opened Bytes
  import opened SocketState

  const NUM_SOCKETS := 256

  const NO_INTERFACE := Interface(false, false, false, false, false, false, false, false, false, false, false, false, false, false)

  /** LSCK_SOCKET. */
  class LsckSocket {
    var fd: int
    var family: int
    var kind: Kind
    var face: Interface
    var bound: bool
    var accepted: bool
    var connected: bool
    var connecting: bool
    var blocking: bool
    var inbound: bool
    var outbound: bool
    var listening: bool
    var backlog: int
    var sockname: Addr
    var peername: Addr
    /** The interface's block of data, 0 for none. */
    var idata: nat

    /** A record cleared and filled in as socket() does. */
    constructor (fd: int, family: int, kind: Kind, face: Interface)
      ensures this.fd == fd && Value() == Fresh(family, kind, face) && idata == 0
    {
      idata := 0;
      this.fd, this.family, this.kind, this.face := fd, family, kind, face;
      bound, accepted, connected, connecting, listening := false, false, false, false, false;
      blocking, inbound, outbound := true, true, true;
      backlog, sockname, peername := 0, NO_ADDR, NO_ADDR;
    }

    /** A copy of another record but for the descriptor, and not listening. */
    constructor Copy(of: LsckSocket, fd: int)
      ensures this.fd == fd && Value() == of.Value().(listening := false) && idata == of.idata
    {
      idata := of.idata;
      this.fd, family, kind, face := fd, of.family, of.kind, of.face;
      bound, accepted, connected, connecting, listening := of.bound, of.accepted, of.connected, of.connecting, false;
      blocking, inbound, outbound := of.blocking, of.inbound, of.outbound;
      backlog, sockname, peername := of.backlog, of.sockname, of.peername;
    }

    function Value(): State
      reads this
    {
      State(family, kind, face, bound, accepted, connected, connecting, blocking, inbound, outbound, listening,
            backlog, sockname, peername)
    }

    method NonblockingCheck(ready: bool)
      modifies `connecting, `connected
      ensures Value() == Poll(old(Value()), ready)
    {
      if face.nonblockingCheck && connecting && !connected && ready {
        connecting, connected := false, true;
      }
    }

    method Bind(c: Call) returns (r: Outcome)
      requires c.Bind?
      modifies `sockname, `bound, `connecting, `connected
      ensures (Value(), r) == BindStep(old(Value()), c)
    {
      if bound {
        return Refused(EINVAL);
      }
      if c.addr.None? {
        return Refused(EFAULT);
      }
      if family != c.addr.value.family {
        return Refused(EAFNOSUPPORT);
      }
      if !face.bind {
        return Refused(EOPNOTSUPP);
      }
      if c.ret == 0 {
        NonblockingCheck(c.readyThen);
        sockname := c.got;
        bound := true;
      } else {
        sockname := NO_ADDR;
        bound := false;
      }
      return Answered(c.ret);
    }

    method Listen(c: Call) returns (r: Outcome)
      requires c.Listen?
      modifies `listening, `backlog
      ensures (Value(), r) == ListenStep(old(Value()), c)
    {
      if kind != Stream {
        return Refused(EOPNOTSUPP);
      }
      if !bound {
        return Refused(EINVAL);
      }
      if !face.listen {
        return Refused(EOPNOTSUPP);
      }
      if c.ret != -1 {
        listening := true;
        backlog := c.backlog;
      }
      return Answered(c.ret);
    }

    /** connect() once the interface has answered. */
    method Connected(c: Call) returns (r: Outcome)
      requires c.Connect? && c.addr.Some?
      modifies `sockname, `peername, `connecting, `connected
      ensures (Value(), r) == ConnectResult(old(Value()), c)
    {
      var ret := c.ret;
      if ret == 0 || (ret == -1 && !blocking && c.wouldBlock) {
        peername := c.addr.value;
        if ret == 0 && face.getsockname {
          ret := c.nameRet;
          sockname := c.got;
          if ret == -1 {
            sockname := NO_ADDR;
            ret := 0;
          }
        }
        if ret == -1 && !blocking && c.wouldBlock {
          connecting := true;
          connected := false;
        } else {
          connecting := false;
          connected := true;
        }
      } else {
        sockname := NO_ADDR;
        peername := NO_ADDR;
        connected := false;
      }
      return Answered(ret);
    }

    /** The interface may have bound the socket on its way. */
    method Bound(effect: Effect)
      modifies `sockname, `bound
      ensures Value() == Binding(old(Value()), effect)
    {
      if !bound && effect.Rebound? {
        sockname := effect.name;
        bound := effect.bound;
      }
    }

    method Connect(c: Call) returns (r: Outcome)
      requires c.Connect?
      modifies `sockname, `peername, `connecting, `connected, `bound
      ensures (Value(), r) == ConnectStep(old(Value()), c)
    {
      hide ConnectResult;
      if !blocking && connecting {
        return Refused(EALREADY);
      }
      if connected && kind == Stream {
        return Refused(EISCONN);
      }
      if listening {
        return Refused(EOPNOTSUPP);
      }
      if kind == Stream || (kind == Dgram && c.addr.Some?) {
        if !face.addrlenCheck || !c.lenOk {
          return Refused(EINVAL);
        }
      }
      if kind == Dgram {
        if c.addr.Some? {
          if c.addr.value.family != family {
            return Refused(EAFNOSUPPORT);
          }
          peername := c.addr.value;
        } else {
          peername := NO_ADDR;
        }
        return Done(0);
      }
      if c.addr.None? {
        return Refused(EFAULT);
      }
      if c.addr.value.family != family {
        return Refused(EAFNOSUPPORT);
      }
      if !face.connect {
        return Refused(EOPNOTSUPP);
      }
      Bound(c.effect);
      r := Connected(c);
    }

    method Shutdown(c: Call) returns (r: Outcome)
      requires c.Shutdown?
      modifies `inbound, `outbound
      ensures (Value(), r) == ShutdownStep(old(Value()), c)
    {
      if !connected {
        return Refused(ENOTCONN);
      }
      if c.how == BadHow {
        return Refused(EINVAL);
      }
      if !face.shutdown {
        return Refused(EOPNOTSUPP);
      }
      if c.ret == 0 {
        match c.how {
          case ShutRd =>
            inbound := false;
          case ShutWr =>
            outbound := false;
          case ShutRdWr =>
            inbound, outbound := false, false;
        }
      }
      return Answered(c.ret);
    }

    method SendTo(c: Call) returns (r: Outcome)
      requires c.SendTo?
      modifies `sockname, `bound
      ensures (Value(), r) == SendToStep(old(Value()), c)
    {
      if !c.msg {
        return Refused(EFAULT);
      }
      if c.to.Some? && c.tolen == 0 {
        return Refused(EINVAL);
      }
      if !outbound {
        return Refused(EPIPE);
      }
      if kind == Stream {
        if !connected {
          return Refused(ENOTCONN);
        }
        var to := if c.to.None? then peername else c.to.value;
        if to.bytes != peername.bytes {
          return Refused(EISCONN);
        }
        if !face.send {
          return Refused(EOPNOTSUPP);
        }
        Bound(c.effect);
        return Answered(c.ret);
      }
      if kind == Dgram && c.to.None? && peername.family == 0 {
        return Refused(EDESTADDRREQ);
      }
      if !face.sendto {
        return Refused(EOPNOTSUPP);
      }
      Bound(c.effect);
      return Answered(c.ret);
    }

    method Receive(c: Call) returns (r: Outcome)
      requires c.Recv? || c.RecvFrom?
      ensures (Value(), r) == if c.Recv? then RecvStep(Value(), c) else RecvFromStep(Value(), c)
    {
      if c.Recv? && kind == Stream && !connected {
        return Refused(ENOTCONN);
      }
      if !c.buf || (c.RecvFrom? && c.from && !c.fromlen) {
        return Refused(EFAULT);
      }
      if !inbound {
        return Done(0);
      }
      if if c.Recv? then !face.recv else !face.recvfrom {
        return Refused(EOPNOTSUPP);
      }
      return Answered(c.ret);
    }

    /** Any of these calls, once the descriptor has led to the record. */
    method Do(ready: bool, c: Call) returns (r: Outcome)
      modifies this
      ensures (Value(), r) == Step(old(Value()), ready, c) && fd == old(fd) && idata == old(idata)
    {
      hide BindStep, ListenStep, ConnectStep, ShutdownStep, SendToStep, RecvStep, RecvFromStep, Poll;
      NonblockingCheck(ready);
      match c {
        case Bind(_, _, _, _) => r := Bind(c);
        case Listen(_, _) => r := Listen(c);
        case Connect(_, _, _, _, _, _, _) => r := Connect(c);
        case Shutdown(_, _) => r := Shutdown(c);
        case SendTo(_, _, _, _, _) => r := SendTo(c);
        case Recv(_, _) => r := Receive(c);
        case RecvFrom(_, _, _, _) => r := Receive(c);
        case SetBlocking(b, ret) =>
          blocking := b;
          r := Answered(ret);
      }
    }
  }

  /** The blocks but 0 are all live, and all different. */
  predicate Apart(b: seq<nat>, live: set<nat>) {
    && (forall i :: 0 <= i < |b| && b[i] != 0 ==> b[i] in live)
    && (forall i, j :: 0 <= i < j < |b| && b[i] != 0 ==> b[i] != b[j])
  }

  /** One more record with a new block, or with none. */
  lemma NewBlock(b: seq<nat>, live: set<nat>, i: nat, block: nat)
    requires Apart(b, live) && i < |b| && b[i] == 0 && (block != 0 ==> block !in live)
    ensures Apart(b[i := block], live + Block(block))
  {
  }

  /** A record less, and its block freed. */
  lemma FreedBlock(b: seq<nat>, live: set<nat>, i: nat)
    requires Apart(b, live) && i < |b|
    ensures Apart(b[i := 0], live - Block(b[i]))
  {
  }

  /** A second record with the block of another: they are apart only if there is no block. */
  lemma SharedBlock(b: seq<nat>, live: set<nat>, i: nat, j: nat)
    requires Apart(b, live) && i < |b| && j < |b| && b[i] == 0 && i != j
    ensures Apart(b[i := b[j]], live) <==> b[j] == 0
    ensures Apart(b, live - Block(b[j])) <==> b[j] == 0
  {
    if b[j] != 0 {
      var c := b[i := b[j]];
      assert c[i] == c[j];
    }
  }

  /** What an interface's answer to accept() makes of the blocks, slot i being free and j the listener's. */
  lemma StillApart(b: seq<nat>, live: set<nat>, i: nat, j: nat, own: Option<nat>, answer: int)
    requires Apart(b, live) && i < |b| && j < |b| && i != j && b[i] == 0
    requires own.Some? && own.value != 0 ==> own.value !in live
    ensures
      var block := if own.Some? then own.value else b[j];
      var held := live + if own.Some? then Block(own.value) else {};
      Apart(if answer == 0 then b[i := block] else b, if answer == 0 then held else held - Block(block))
      <==> own.Some? || b[j] == 0
  {
    if own.Some? {
      NewBlock(b, live, i, own.value);
      assert live + Block(own.value) - Block(own.value) == live;
    } else {
      SharedBlock(b, live, i, j);
      assert live + {} == live;
    }
  }

  function Block(b: nat): set<nat> {
    if b == 0 then {} else {b}
  }

  /** An open file descriptor: whether the socket handler serves it, and its data. */
  datatype Fd = Fd(socket: bool, data: LsckSocket?)

  /** The table of records and the descriptors. */
  class SocketTable {
    const slots: array<LsckSocket?>
    var fds: map<int, Fd>
    /** The blocks of interface data that are allocated. */
    var live: set<nat>

    constructor (open: map<int, Fd>)
      requires forall s :: s in open ==> !open[s].socket
      ensures Valid() && Owned() && fds == open
      ensures fresh(slots) && forall i :: 0 <= i < NUM_SOCKETS ==> slots[i] == null
    {
      slots := new LsckSocket?[NUM_SOCKETS](_ => null);
      fds := open;
      live := {};
    }

    /** The record in slot i is the data of its own descriptor. */
    ghost predicate SlotMatches(i: nat)
      requires i < slots.Length
      reads this, slots, if slots[i] == null then {} else {slots[i]}
    {
      slots[i] != null ==> slots[i].fd in fds && fds[slots[i].fd] == Fd(true, slots[i])
    }

    /** The data of a socket descriptor is a record in the table, which names that descriptor. */
    ghost predicate FdMatches(s: int)
      requires s in fds
      reads this, slots, if fds[s].data == null then {} else {fds[s].data}
    {
      fds[s].socket ==> fds[s].data != null && fds[s].data.fd == s && fds[s].data in slots[..]
    }

    /** The records in the table. */
    ghost function Records(): set<LsckSocket>
      reads this, slots
    {
      set i | 0 <= i < slots.Length && slots[i] != null :: slots[i]
    }

    ghost function Data(): set<LsckSocket>
      reads this
    {
      set s | s in fds && fds[s].data != null :: fds[s].data
    }

    /** Occupied slots and socket descriptors correspond one to one. */
    ghost predicate Matched()
      reads this, slots, Records(), Data()
    {
      && slots.Length == NUM_SOCKETS
      && (forall i :: 0 <= i < NUM_SOCKETS ==> SlotMatches(i))
      && (forall s :: s in fds ==> FdMatches(s))
      && (forall i, j :: 0 <= i < j < NUM_SOCKETS && slots[i] != null ==> slots[i] != slots[j])
    }

    /** Matched but for the descriptor s, which has been opened and leads nowhere yet. */
    ghost predicate MatchedBut(s: int)
      reads this, slots, Records(), Data()
    {
      && slots.Length == NUM_SOCKETS
      && (forall i :: 0 <= i < NUM_SOCKETS ==> SlotMatches(i))
      && (forall t :: t in fds && t != s ==> FdMatches(t))
      && (forall i, j :: 0 <= i < j < NUM_SOCKETS && slots[i] != null ==> slots[i] != slots[j])
      && s in fds && fds[s] == Fd(true, null)
    }

    ghost predicate AllSound()
      reads this, slots, Records()
    {
      forall i :: 0 <= i < slots.Length && slots[i] != null ==> Sound(slots[i].Value())
    }

    /** The block of the record in slot i. */
    ghost function BlockAt(i: nat): nat
      requires i < slots.Length
      reads this, slots, if slots[i] == null then {} else {slots[i]}
    {
      if slots[i] == null then 0 else slots[i].idata
    }

    /** The blocks, slot by slot. */
    ghost function Blocks(): (b: seq<nat>)
      reads this, slots, Records()
      ensures |b| == slots.Length && forall i :: 0 <= i < slots.Length ==> b[i] == BlockAt(i)
    {
      seq(slots.Length, i requires 0 <= i < slots.Length reads this, slots, Records() => BlockAt(i))
    }

    /** The blocks of the records are allocated, and no two records share one. */
    ghost predicate Owned()
      reads this, slots, Records()
    {
      Apart(Blocks(), live)
    }

    ghost predicate Valid()
      reads this, slots, Records(), Data()
    {
      Matched() && AllSound()
    }

    /** __fd_to_lsd(): the record a descriptor leads to. */
    function Find(s: int): LsckSocket?
      reads this
    {
      if s in fds && fds[s].socket then fds[s].data else null
    }

    /** The descriptor leads to a socket whose interface can close it. */
    predicate CanClose(s: int)
      reads this, if Find(s) == null then {} else {Find(s)}
    {
      Find(s) != null && Find(s).face.close
    }

    /** Nothing in the table or the descriptors has changed. */
    twostate predicate Same()
      reads this, slots
    {
      fds == old(fds) && slots[..] == old(slots[..])
    }

    /** A new record has taken a free slot, and a new descriptor leads to it. */
    twostate predicate Added(s: int, new n: LsckSocket)
      reads this, slots, n
    {
      && fds == old(fds)[s := Fd(true, n)] && s !in old(fds) && n.fd == s
      && exists i :: 0 <= i < slots.Length && old(slots[i]) == null && slots[..] == old(slots[..])[i := n]
    }

    /** The descriptor and its slot are free again. */
    twostate predicate Removed(s: int)
      reads this, slots
    {
      && fds == old(fds) - {s}
      && exists i :: 0 <= i < slots.Length && old(slots[i]) == old(Find(s)) && slots[..] == old(slots[..])[i := null]
    }

    /**
      * The first free slot, if there is one.  The code looks at slot i before it asks whether i is
      * one; `beyond` tells of the look past the table, which the model does not take.
      */
    method FreeSlot() returns (i: nat, ghost beyond: bool)
      requires slots.Length == NUM_SOCKETS
      ensures i <= NUM_SOCKETS && (i < NUM_SOCKETS ==> slots[i] == null) && forall j :: 0 <= j < i ==> slots[j] != null
      ensures i == NUM_SOCKETS <==> null !in slots[..]
      ensures beyond <==> null !in slots[..]
    {
      i, beyond := 0, false;
      while true
        invariant i <= NUM_SOCKETS && !beyond && forall j :: 0 <= j < i ==> slots[j] != null
        decreases NUM_SOCKETS - i
      {
        if i == NUM_SOCKETS {
          beyond := true;
          break;
        }
        if slots[i] == null {
          break;
        }
        i := i + 1;
      }
      assert i < NUM_SOCKETS ==> slots[..][i] == null;
    }

    /** A call on a descriptor; none is made when it does not lead to a socket. */
    method Do(s: int, ready: bool, c: Call) returns (r: Option<Outcome>)
      requires Valid()
      modifies if Find(s) == null then {} else {Find(s)}
      ensures Valid() && Same() && Blocks() == old(Blocks()) && live == old(live)
      ensures Find(s) == null ==> r == None
      ensures Find(s) != null ==> r.Some? && (Find(s).Value(), r.value) == Step(old(Find(s).Value()), ready, c)
    {
      hide Step, Sound;
      var lsd := Find(s);
      if lsd == null {
        return None;
      }
      assert FdMatches(s);
      StepKeeps(lsd.Value(), ready, c);
      var o := lsd.Do(ready, c);
      r := Some(o);
    }

    /** Open a descriptor with the socket handler. */
    method AllocFd(s: int)
      requires Matched() && s !in fds
      modifies this`fds
      ensures MatchedBut(s) && fds == old(fds)[s := Fd(true, null)]
      ensures old(AllSound()) ==> AllSound()
    {
      fds := fds[s := Fd(true, null)];
      forall k | 0 <= k < NUM_SOCKETS
        ensures SlotMatches(k)
      {
        assert old(SlotMatches(k));
      }
      forall t | t in fds && t != s
        ensures FdMatches(t)
      {
        assert old(FdMatches(t));
      }
    }

    /** Close a descriptor that leads nowhere. */
    method FreeFd(s: int)
      requires MatchedBut(s)
      modifies this`fds
      ensures Matched() && fds == old(fds) - {s}
      ensures old(AllSound()) ==> AllSound()
    {
      fds := fds - {s};
      forall k | 0 <= k < NUM_SOCKETS
        ensures SlotMatches(k)
      {
        assert old(SlotMatches(k));
      }
      forall t | t in fds
        ensures FdMatches(t)
      {
        assert old(FdMatches(t));
      }
    }

    /** Give a record its slot and its descriptor. */
    method Install(s: int, i: nat, n: LsckSocket)
      requires MatchedBut(s) && i < NUM_SOCKETS && slots[i] == null && n !in slots[..] && n.fd == s
      modifies this`fds, slots
      ensures Matched() && fds == old(fds)[s := Fd(true, n)] && slots[..] == old(slots[..])[i := n]
      ensures old(AllSound()) && Sound(n.Value()) ==> AllSound()
    {
      hide Sound;
      fds := fds[s := Fd(true, n)];
      slots[i] := n;
      assert slots[..][i] == n;
      forall k | 0 <= k < NUM_SOCKETS
        ensures SlotMatches(k)
      {
        assert k != i ==> old(SlotMatches(k));
      }
      forall t | t in fds
        ensures FdMatches(t)
      {
        if t != s {
          assert old(FdMatches(t));
          if fds[t].socket {
            InUpdated(old(slots[..]), i, n, fds[t].data);
          }
        }
      }
    }

    /** Take back the slot and the descriptor of a record. */
    method Uninstall(s: int, i: nat)
      requires Matched() && i < NUM_SOCKETS && slots[i] != null && slots[i].fd == s
      modifies this`fds, slots
      ensures Matched() && fds == old(fds) - {s} && slots[..] == old(slots[..])[i := null]
      ensures old(AllSound()) ==> AllSound()
      ensures Blocks() == old(Blocks())[i := 0]
    {
      hide Sound;
      assert SlotMatches(i);
      fds := fds - {s};
      slots[i] := null;
      forall k | 0 <= k < NUM_SOCKETS
        ensures SlotMatches(k)
      {
        assert old(SlotMatches(k));
      }
      forall t | t in fds
        ensures FdMatches(t)
      {
        assert old(FdMatches(t));
        if fds[t].socket {
          InUpdated(old(slots[..]), i, null, fds[t].data);
        }
      }
    }

    /**
      * What socket() and accept() begin with: open a descriptor and look for a free slot; the
      * descriptor is closed again if there is no slot, or no memory for a record.
      */
    method Claim(s: int, memory: bool) returns (i: nat)
      requires Valid() && s !in fds
      modifies this`fds
      ensures i <= NUM_SOCKETS && (i < NUM_SOCKETS <==> memory && null in slots[..])
      ensures i < NUM_SOCKETS ==> slots[i] == null && MatchedBut(s) && fds == old(fds)[s := Fd(true, null)]
      ensures i == NUM_SOCKETS ==> Matched() && fds == old(fds)
      ensures AllSound() && Blocks() == old(Blocks())
    {
      hide Sound;
      AllocFd(s);
      ghost var beyond;
      i, beyond := FreeSlot();
      if i == NUM_SOCKETS || !memory {
        FreeFd(s);
        i := NUM_SOCKETS;
      }
    }

    /**
      * socket(): `init` says whether the library could be initialised, alloc which descriptor was
      * free, memory whether a record could be allocated, face which interface took the protocol,
      * block the data it allocated and answer what it answered.
      */
    method Socket(family: int, kind: Kind, init: bool, alloc: Option<int>, memory: bool, face: Option<Interface>,
                  block: nat, answer: int)
      returns (s: int)
      requires Valid() && (block != 0 ==> block !in live)
      requires alloc.Some? ==> alloc.value >= 0 && alloc.value !in fds
      modifies this`fds, this`live, slots
      ensures Valid() && (old(Owned()) ==> Owned())
      ensures s != -1 <==> init && alloc.Some? && null in old(slots[..]) && memory && face.Some? && face.value.socket && answer != -1
      ensures s == -1 ==> Same() && live == old(live)
      ensures s != -1 ==> s == alloc.value && Find(s) != null && fresh(Find(s)) && Added(s, Find(s)) &&
                          Find(s).Value() == Fresh(family, kind, face.value) &&
                          Find(s).idata == block && live == old(live) + Block(block)
    {
      hide Sound, Fresh, Apart;
      assert slots.Length == NUM_SOCKETS;
      hide Matched, MatchedBut, AllSound, BlockAt;
      if !init || alloc.None? {
        return -1;
      }
      s := alloc.value;
      var i := Claim(s, memory);
      if i == NUM_SOCKETS {
        return -1;
      }
      var chosen := if face.Some? then face.value else NO_INTERFACE;
      var lsd := Fill(s, i, family, kind, chosen);
      ghost var b: seq<nat> := old(Blocks());
      assert b[i := 0] == b && b[i := 0][i := block] == b[i := block];
      if face.None? || !face.value.socket || answer == -1 {
        Uninstall(s, i);
        assert slots[..] == old(slots[..]);
        return -1;
      }
      assert old(slots[i]) == null;
      Give(lsd, i, block);
      if Apart(b, old(live)) {
        NewBlock(b, old(live), i, block);
      }
    }

    /** Allocate a record for socket(), in its slot and behind its descriptor. */
    method Fill(s: int, i: nat, family: int, kind: Kind, face: Interface) returns (n: LsckSocket)
      requires MatchedBut(s) && AllSound() && i < NUM_SOCKETS && slots[i] == null
      modifies this`fds, slots
      ensures Valid() && fresh(n) && n.fd == s && n.Value() == Fresh(family, kind, face)
      ensures fds == old(fds)[s := Fd(true, n)] && slots[..] == old(slots[..])[i := n]
      ensures Blocks() == old(Blocks())[i := 0]
    {
      hide Sound, Fresh;
      n := new LsckSocket(s, family, kind, face);
      FreshSound(family, kind, face);
      Install(s, i, n);
    }

    /** Allocate a record for accept(), copied from the listener's. */
    method FillCopy(s: int, i: nat, lsd: LsckSocket) returns (n: LsckSocket)
      requires MatchedBut(s) && AllSound() && i < NUM_SOCKETS && slots[i] == null && Sound(lsd.Value().(listening := false))
      modifies this`fds, slots
      ensures Valid() && fresh(n) && n.fd == s && n.Value() == lsd.Value().(listening := false)
      ensures fds == old(fds)[s := Fd(true, n)] && slots[..] == old(slots[..])[i := n]
      ensures n.idata == lsd.idata && Blocks() == old(Blocks())[i := lsd.idata]
    {
      hide Sound;
      n := new LsckSocket.Copy(lsd, s);
      Install(s, i, n);
    }

    /** The interface stores a new block, or none, in a record of the table. */
    method Give(n: LsckSocket, i: nat, block: nat)
      requires Valid() && i < NUM_SOCKETS && slots[i] == n
      modifies this`live, n`idata
      ensures Valid() && Same() && live == old(live) + Block(block)
      ensures n.idata == block && Blocks() == old(Blocks())[i := block]
    {
      hide Sound;
      n.idata := block;
      live := live + Block(block);
      forall k | 0 <= k < NUM_SOCKETS
        ensures SlotMatches(k)
      {
        assert old(SlotMatches(k));
      }
      forall t | t in fds
        ensures FdMatches(t)
      {
        assert old(FdMatches(t)) && slots[..] == old(slots[..]);
      }
    }

    /** Does accept() get as far as the interface? */
    ghost predicate Accepting(lsd: LsckSocket?, ready: bool, addr: bool, addrlen: bool, alloc: Option<int>, memory: bool)
      reads this, slots, if lsd == null then {} else {lsd}
    {
      lsd != null && MayAccept(Poll(lsd.Value(), ready)) && addr && addrlen && alloc.Some? && memory && null in slots[..]
    }

    /**
      * accept(): addr says whether that pointer was given and addrlen what the other leads to, if it
      * was; answer is what the interface answered, peer the address it wrote and own the block it
      * stored in the new record, if it did.  An answer that is neither 0 nor -1 is an error to the
      * code, which then takes everything back, but returns the closed descriptor.  `name` is what is
      * copied to the caller, and its length what is left at addrlen.
      *
      * The new record starts with the listener's block, and a failing call frees the block the new
      * record then has: the records own their blocks afterwards exactly if the interface stored one
      * of its own, or there is nothing to share.
      */
    method Accept(s: int, ready: bool, addr: bool, addrlen: Option<nat>, alloc: Option<int>, memory: bool,
                  own: Option<nat>, answer: int, peer: Addr)
      returns (ret: int, name: seq<byte>)
      requires Valid()
      requires alloc.Some? ==> alloc.value >= 0 && alloc.value !in fds
      requires own.Some? && own.value != 0 ==> own.value !in live
      modifies this`fds, this`live, slots, if Find(s) == null then {} else {Find(s)}
      ensures Valid()
      ensures var lsd := old(Find(s));
              lsd != null ==> Find(s) == lsd && lsd.Value() == Poll(old(lsd.Value()), ready) && lsd.idata == old(lsd.idata)
      ensures ret != -1 <==> old(Accepting(Find(s), ready, addr, addrlen.Some?, alloc, memory)) && answer != -1
      ensures ret != -1 ==> ret == alloc.value
      ensures ret != -1 && answer == 0 ==>
                Find(ret) != null && fresh(Find(ret)) && Added(ret, Find(ret)) &&
                Find(ret).Value() == Child(Poll(old(Find(s).Value()), ready), peer)
      ensures ret == -1 || answer != 0 ==> Same()
      ensures name == if ret != -1 && answer == 0 then peer.bytes[..Min(addrlen.value, |peer.bytes|)] else []
      ensures old(Owned()) ==>
                (Owned() <==> !old(Accepting(Find(s), ready, addr, addrlen.Some?, alloc, memory))
                              || own.Some? || old(Find(s).idata) == 0)
    {
      hide Sound, Poll, Child, Apart;
      name := [];
      var lsd := Find(s);
      if lsd == null {
        return -1, name;
      }
      Check(lsd, ready);
      if lsd.kind != Stream || !lsd.face.accept {
        return -1, name;
      }
      if lsd.accepted || !lsd.bound || !lsd.listening {
        return -1, name;
      }
      if !addr || addrlen.None? || alloc.None? {
        return -1, name;
      }
      ghost var b, before := Blocks(), live;
      ghost var j: nat :| j < NUM_SOCKETS && slots[j] == lsd;
      var reached: bool;
      ghost var i: nat;
      reached, i := AcceptOn(lsd, alloc.value, memory, own, answer, peer);
      if reached && Apart(b, before) {
        StillApart(b, before, i, j, own, answer);
      }
      if reached && answer == 0 {
        name := peer.bytes[..Min(addrlen.value, |peer.bytes|)];
      }
      return if !reached || answer == -1 then -1 else alloc.value, name;
    }

    /**
      * The part of accept() from the new descriptor on; `reached` says whether the interface was
      * asked, own what block it stored in the new record, if it did.
      */
    method AcceptOn(lsd: LsckSocket, newFd: int, memory: bool, own: Option<nat>, answer: int, peer: Addr)
      returns (reached: bool, ghost i: nat)
      requires Valid() && lsd in slots[..] && MayAccept(lsd.Value()) && newFd !in fds
      modifies this`fds, this`live, slots
      ensures Valid()
      ensures reached <==> memory && null in old(slots[..])
      ensures reached && answer == 0 ==>
                Find(newFd) != null && fresh(Find(newFd)) && Added(newFd, Find(newFd)) &&
                Find(newFd).Value() == Child(lsd.Value(), peer)
      ensures !reached || answer != 0 ==> Same()
      ensures !reached ==> Blocks() == old(Blocks()) && live == old(live)
      ensures reached ==>
                var block := if own.Some? then own.value else lsd.idata;
                var held := old(live) + if own.Some? then Block(own.value) else {};
                && i < NUM_SOCKETS && old(slots[i]) == null
                && if answer == 0 then Blocks() == old(Blocks())[i := block] && live == held
                   else Blocks() == old(Blocks()) && live == held - Block(block)
    {
      hide Sound, Child, MayAccept;
      ghost var f := lsd.Value();
      assert Sound(f) && slots.Length == NUM_SOCKETS;
      hide Matched, MatchedBut, AllSound, BlockAt;
      CopySound(f, peer);
      var slot := Claim(newFd, memory);
      i := slot;
      if slot == NUM_SOCKETS {
        return false, i;
      }
      var nsd := FillCopy(newFd, slot, lsd);
      Settle(nsd, newFd, slot, own, answer, peer);
      assert old(slots[i]) == null;
      if answer != 0 {
        assert slots[..] == old(slots[..]) && Blocks() == old(Blocks());
      }
      return true, i;
    }

    /** What the interface makes of the new record, and what accept() makes of its answer. */
    method Settle(n: LsckSocket, s: int, i: nat, own: Option<nat>, answer: int, peer: Addr)
      requires Valid() && i < NUM_SOCKETS && slots[i] == n && n.fd == s
      requires Sound(n.Value().(peername := peer, accepted := true, connected := true))
      modifies this`fds, this`live, slots, n
      ensures Valid()
      ensures var block := if own.Some? then own.value else old(n.idata);
              var held := old(live) + if own.Some? then Block(own.value) else {};
              if answer == 0 then
                && Same() && Blocks() == old(Blocks())[i := block] && live == held && n.fd == s
                && n.Value() == old(n.Value()).(peername := peer, accepted := true, connected := true)
              else
                && fds == old(fds) - {s} && slots[..] == old(slots[..])[i := null]
                && Blocks() == old(Blocks())[i := 0] && live == held - Block(block)
    {
      ghost var b: seq<nat> := Blocks();
      assert b[i] == n.idata && b[i := b[i]] == b;
      hide Sound, Matched, AllSound;
      if own.Some? {
        Give(n, i, own.value);
        assert b[i := own.value][i := 0] == b[i := 0];
      }
      if answer == 0 {
        Accepted(n, i, peer);
      } else {
        Discard(s, i);
      }
    }

    /** Free a record with its block, its slot and its descriptor. */
    method Discard(s: int, i: nat)
      requires Valid() && i < NUM_SOCKETS && slots[i] != null && slots[i].fd == s
      modifies this`fds, this`live, slots
      ensures Valid() && fds == old(fds) - {s} && slots[..] == old(slots[..])[i := null]
      ensures Blocks() == old(Blocks())[i := 0] && live == old(live) - Block(old(BlockAt(i)))
    {
      hide Sound;
      var block := slots[i].idata;
      Free(block);
      Uninstall(s, i);
    }

    method Free(block: nat)
      requires Valid()
      modifies this`live
      ensures Valid() && live == old(live) - Block(block) && Blocks() == old(Blocks())
    {
      hide Sound;
      live := live - Block(block);
      forall k | 0 <= k < NUM_SOCKETS
        ensures SlotMatches(k)
      {
        assert old(SlotMatches(k));
      }
      forall t | t in fds
        ensures FdMatches(t)
      {
        assert old(FdMatches(t)) && slots[..] == old(slots[..]);
      }
    }

    /** The interface's nonblocking_check on a record of the table. */
    method Check(lsd: LsckSocket, ready: bool)
      requires Valid() && lsd in slots[..]
      modifies lsd`connecting, lsd`connected
      ensures Valid() && Same() && lsd.Value() == Poll(old(lsd.Value()), ready)
      ensures Blocks() == old(Blocks())
    {
      hide Sound, Poll;
      PollKeeps(lsd.Value(), ready);
      ghost var i :| 0 <= i < NUM_SOCKETS && slots[i] == lsd;
      assert Sound(slots[i].Value());
      lsd.NonblockingCheck(ready);
      forall k | 0 <= k < NUM_SOCKETS
        ensures SlotMatches(k)
      {
        assert old(SlotMatches(k));
      }
      forall t | t in fds
        ensures FdMatches(t)
      {
        assert old(FdMatches(t)) && slots[..] == old(slots[..]);
      }
      assert Matched();
    }

    /** What accept() notes in the new record. */
    method Accepted(n: LsckSocket, i: nat, peer: Addr)
      requires Valid() && i < NUM_SOCKETS && slots[i] == n && Sound(n.Value().(peername := peer, accepted := true, connected := true))
      modifies n`peername, n`accepted, n`connected
      ensures Valid() && Same() && n.Value() == old(n.Value()).(peername := peer, accepted := true, connected := true)
      ensures Blocks() == old(Blocks())
    {
      hide Sound;
      n.peername := peer;
      n.accepted := true;
      n.connected := true;
      forall k | 0 <= k < NUM_SOCKETS
        ensures SlotMatches(k)
      {
        assert old(SlotMatches(k));
      }
      forall t | t in fds
        ensures FdMatches(t)
      {
        assert old(FdMatches(t)) && slots[..] == old(slots[..]);
      }
      assert Matched();
    }

    /**
      * closesocket() called by the program itself: the record is freed, but the descriptor stays open,
      * served by the socket handler and with the freed record for its data.
      */
    method CloseSocket(s: int, ready: bool, answer: int) returns (ret: int)
      requires Valid()
      modifies this`live, slots, if Find(s) == null then {} else {Find(s)}
      ensures AllSound() && fds == old(fds) && (old(Owned()) ==> Owned())
      ensures ret == if old(CanClose(s)) then answer else -1
      ensures Matched() <==> !(old(CanClose(s)) && answer == 0)
      ensures ret != 0 ==> Same() && Blocks() == old(Blocks()) && live == old(live)
      ensures ret != 0 && Find(s) != null ==> Find(s).Value() == Poll(old(Find(s).Value()), ready)
      ensures ret == 0 ==> Find(s) !in slots[..] && live == old(live) - Block(old(Find(s).idata))
      ensures ret == 0 ==> exists i :: 0 <= i < slots.Length && old(slots[i]) == Find(s) && slots[..] == old(slots[..])[i := null]
    {
      hide Sound, Apart;
      var lsd := Find(s);
      if lsd == null {
        return -1;
      }
      assert FdMatches(s);
      Check(lsd, ready);
      if !lsd.face.close {
        return -1;
      }
      ret := answer;
      if ret == 0 {
        ghost var b, before := Blocks(), live;
        ghost var i := Release(lsd);
        assert !FdMatches(s);
        if Apart(b, before) {
          FreedBlock(b, before, i);
        }
      }
    }

    /** Free the block of a record, and clear its slot. */
    method Release(lsd: LsckSocket) returns (ghost at: nat)
      requires Valid() && lsd in slots[..]
      modifies this`live, slots, lsd`idata
      ensures AllSound() && lsd !in slots[..]
      ensures at < slots.Length && old(slots[at]) == lsd && slots[..] == old(slots[..])[at := null]
      ensures Blocks() == old(Blocks())[at := 0] && live == old(live) - Block(old(lsd.idata))
    {
      hide Sound;
      live := live - Block(lsd.idata);
      lsd.idata := 0;
      var i := 0;
      while slots[i] != lsd
        invariant 0 <= i < NUM_SOCKETS && lsd !in slots[..i]
        decreases NUM_SOCKETS - i
        modifies {}
      {
        i := i + 1;
      }
      slots[i] := null;
      at := i;
    }

    /** close() on a socket descriptor, which ends in the handler's __FSEXT_close: both sides are released. */
    method Close(s: int, ready: bool, answer: int) returns (ret: int)
      requires Valid() && Find(s) != null
      modifies this`fds, this`live, slots, Find(s)
      ensures Valid() && (old(Owned()) ==> Owned())
      ensures ret == if old(CanClose(s)) then answer else -1
      ensures ret == 0 ==> Removed(s)
      ensures ret != 0 ==> Same() && live == old(live) && Find(s).Value() == Poll(old(Find(s).Value()), ready)
    {
      hide Sound, Apart;
      ret := CloseSocket(s, ready, answer);
      if ret == 0 {
        ghost var i :| 0 <= i < slots.Length && old(slots[i]) == Find(s) && slots[..] == old(slots[..])[i := null];
        ghost var b := Blocks();
        fds := fds - {s};
        assert Blocks() == b;
        forall k | 0 <= k < NUM_SOCKETS
          ensures SlotMatches(k)
        {
          assert old(SlotMatches(k));
          assert slots[k] == slots[..][k];
        }
        forall t | t in fds
          ensures FdMatches(t)
        {
          assert old(FdMatches(t)) && old(FdMatches(s));
          if fds[t].socket {
            InUpdated(old(slots[..]), i, null, fds[t].data);
          }
        }
      }
    }
  }

  /**
    * A program that opens one socket and calls closesocket() on it, whose interface can close: the
    * descriptor stays open, a socket to all appearance, and leads to a record in no slot.
    */
  method CloseOnly(open: map<int, Fd>, fd: int, family: int, kind: Kind, face: Interface)
    returns (table: SocketTable, s: int)
    requires fd >= 0 && fd !in open && forall k :: k in open ==> !open[k].socket
    requires face.socket && face.close
    ensures s == fd && table.Find(s) != null && table.Find(s) !in table.slots[..]
    ensures !table.Matched() && forall i :: 0 <= i < table.slots.Length ==> table.slots[i] == null
  {
    hide Sound;
    table := new SocketTable(open);
    assert table.slots[..][0] == null;
    s := table.Socket(family, kind, true, Some(fd), true, Some(face), 0, 0);
    assert table.CanClose(s);
    var ret := table.CloseSocket(s, false, 0);
  }

  lemma InUpdated<T>(s: seq<T>, i: nat, x: T, y: T)
    requires i < |s| && y in s && s[i] != y
    ensures y in s[i := x]
  {
    var k :| 0 <= k < |s| && s[k] == y;
    assert s[i := x][k] == y;
  }
}
