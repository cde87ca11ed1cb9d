/** Handle tables (sys/iomgr/object.c), kernel messages (sys/task/message.c) and the
    send and receive system calls (sys/syscall/ipc.c). */
module Ipc {
  import opened Ports
  import opened Bits
  import RoundRobin
  import opened Wrappers

  datatype Status = Ok | Bad | BadArgument | OutOfBounds | NoEndpoint | QueueFull | WouldBlock

  const MAX_OBJ_PER_PROCESS: int := 32

  /** A kernel object; `port` is the `data` of an OBJ_PORT, null if it has none. */
  class Object {
    const isPort: bool
    const port: Port?

    constructor (isPort: bool, port: Port?)
      ensures this.isPort == isPort && this.port == port
    {
      this.isPort := isPort;
      this.port := port;
    }
  }

  class Process {
    const pid: int
    const handles: HandleTable

    constructor (pid: int, handles: HandleTable)
      ensures this.pid == pid && this.handles == handles
    {
      this.pid := pid;
      this.handles := handles;
    }
  }

  /** A thread as the message code sees it: its process and its state. */
  class Receiver {
    const process: Process
    var state: RoundRobin.State

    constructor (process: Process)
      ensures this.process == process
    {
      this.process := process;
      this.state := RoundRobin.Ready;
    }

    /** WakeThread. */
    method Wake()
      modifies this
      ensures state == Woken(old(state))
    {
      if state != RoundRobin.Running {
        state := RoundRobin.Ready;
      }
    }
  }

  function Woken(s: RoundRobin.State): RoundRobin.State { if s != RoundRobin.Running then RoundRobin.Ready else s }

  class Port {
    const msgbuf: array<Message>
    const owner: Receiver?
    var head: int
    var tail: int
    var count: int

    ghost predicate Valid()
      reads this, msgbuf
    {
      Ring(msgbuf[..], head, count) && tail == Slot(head, count)
    }

    ghost function Queue(): (q: seq<Delivered>)
      requires Valid()
      reads this, msgbuf
      ensures |q| == count <= 12
    {
      Contents(msgbuf[..], head, count)
    }

    constructor (owner: Receiver?)
      ensures Valid() && Queue() == [] && this.owner == owner
    {
      var zero := Message(Header(0, 0, 0, 0, 0, 0, 0), seq(256, _ => 0));
      msgbuf := new Message[12](_ => zero);
      this.owner := owner;
      head, tail, count := 0, 0, 0;
    }

    /** Writing the tail slot leaves the queue as it is. */
    method WriteTail(m: Message)
      requires Valid() && count < 12 && WellFormed(m)
      modifies msgbuf
      ensures Valid() && Queue() == old(Queue()) && msgbuf[tail] == m
    {
      hide Contents, Ring;
      ghost var b := msgbuf[..];
      RingLength(b, head, count);
      TailIsFree(b, head, count, m);
      msgbuf[tail] := m;
      assert msgbuf[..] == b[tail := m];
    }

    /** Advancing the tail puts what is written there at the end of the queue. */
    method Commit()
      requires Valid() && count < 12 && msgbuf.Length == 12 && 0 <= tail < 12 && Fits(msgbuf[tail])
      modifies `tail, `count
      ensures Valid() && Queue() == old(Queue()) + [Body(msgbuf[old(tail)])]
    {
      hide Contents, Ring;
      ghost var b := msgbuf[..];
      Push(b, head, count, msgbuf[tail]);
      assert b[tail := msgbuf[tail]] == b;
      tail := (tail + 1) % 12;
      count := count + 1;
    }

    /** EnqueueMessage: only the header and the payload in use are copied. */
    method EnqueueMessage(m: Message) returns (st: Status)
      requires Valid() && owner != null && Fits(m)
      modifies this, msgbuf, owner
      ensures Valid()
      ensures st == if old(count) >= 12 then QueueFull else Ok
      ensures st != Ok ==> Queue() == old(Queue()) && owner.state == old(owner.state)
      ensures st == Ok ==> Queue() == old(Queue()) + [Body(m)] && owner.state == Woken(old(owner.state))
      ensures st == Ok && m.header.reserved == 0 ==> Arrived(old(Queue()), Queue(), m, m.header.sender)
    {
      if count >= MAX_MESSAGES_IN_PORT {
        return QueueFull;
      }
      WriteTail(Overwrite(msgbuf[tail], m, m.header.payloadLength));
      Commit();
      owner.Wake();
      return Ok;
    }

    /** One pass of the receive loop by the owner's process: an empty port blocks the
        calling thread, otherwise the oldest message leaves the queue.  It is gone
        even when it could not be copied out. */
    method Receive(caller: Receiver, copyOk: bool) returns (st: Status, out: Option<Delivered>)
      requires Valid()
      modifies `head, `count, caller
      ensures Valid()
      ensures old(count) == 0 ==>
                st == WouldBlock && caller.state == RoundRobin.Blocked && Queue() == [] && out.None?
      ensures old(count) != 0 ==>
                && caller.state == old(caller.state)
                && Queue() == old(Queue())[1..]
                && (if copyOk then st == Ok && out == Some(old(Queue())[0]) else st == Bad && out.None?)
      ensures st == Ok ==>
                var m := old(msgbuf[head]);
                && out.Some? && out.value.header == m.header
                && |out.value.body| == m.header.payloadLength <= |m.payload|
                && forall i :: 0 <= i < m.header.payloadLength ==> out.value.body[i] == m.payload[i]
    {
      out := None;
      if count == 0 {
        caller.state := RoundRobin.Blocked;
        return WouldBlock, out;
      }
      Pop(msgbuf[..], head, count);
      var toRead := msgbuf[head];
      head := (head + 1) % 12;
      if copyOk {
        st, out := Ok, Some(Body(toRead));
      } else {
        st := Bad;
      }
      count := count - 1;
    }
  }

  // ---------------------------------------------------------------------
  // Handle tables
  // ---------------------------------------------------------------------

  /** The lowest free slot, or the number of slots. */
  function FirstFree(t: seq<Object?>): (i: nat)
    ensures i <= |t| && (i < |t| ==> t[i] == null) && forall k :: 0 <= k < i ==> t[k] != null
  {
    if t == [] then 0 else if t[0] == null then 0 else 1 + FirstFree(t[1..])
  }

  /** The lowest slot holding `o`, or the number of slots. */
  function FirstHolding(t: seq<Object?>, o: Object): (i: nat)
    ensures i <= |t| && (i < |t| ==> t[i] == o) && forall k :: 0 <= k < i ==> t[k] != o
  {
    if t == [] then 0 else if t[0] == o then 0 else 1 + FirstHolding(t[1..], o)
  }

  lemma {:induction false} FirstFreeAt(t: seq<Object?>, i: int)
    requires 0 <= i <= |t| && (i < |t| ==> t[i] == null) && forall k :: 0 <= k < i ==> t[k] != null
    ensures FirstFree(t) == i
  {
    if i > 0 { FirstFreeAt(t[1..], i - 1); }
  }

  lemma {:induction false} FirstHoldingAt(t: seq<Object?>, o: Object, i: int)
    requires 0 <= i <= |t| && (i < |t| ==> t[i] == o) && forall k :: 0 <= k < i ==> t[k] != o
    ensures FirstHolding(t, o) == i
  {
    if i > 0 { FirstHoldingAt(t[1..], o, i - 1); }
  }

  lemma SetOne(w: bv32, b: nat)
    requires b < 32
    ensures forall i: nat :: i < 32 ==> (Bit(Set(w, b), i) <==> i == b || Bit(w, i))
  {
    forall i: nat | i < 32 ensures Bit(Set(w, b), i) <==> i == b || Bit(w, i) { SetBit(w, b, i); }
  }

  lemma ClearOne(w: bv32, b: nat)
    requires b < 32
    ensures forall i: nat :: i < 32 ==> (Bit(Clear(w, b), i) <==> i != b && Bit(w, i))
  {
    forall i: nat | i < 32 ensures Bit(Clear(w, b), i) <==> i != b && Bit(w, i) { ClearBit(w, b, i); }
  }

  class HandleTable {
    const objlist: array<Object?>
    var validBitmap: bv32

    /** A bit is set exactly when its slot is in use. */
    ghost predicate Valid()
      reads this, objlist
    {
      objlist.Length == 32 && forall i: nat :: i < 32 ==> (Bit(validBitmap, i) <==> objlist[i] != null)
    }

    constructor ()
      ensures Valid() && forall i :: 0 <= i < 32 ==> objlist[i] == null
    {
      objlist := new Object?[32](_ => null);
      validBitmap := 0;
      new;
      forall i: nat | i < 32 ensures !Bit(validBitmap, i) { ZeroBit(i); }
    }

    /** AppendToHandleTable: the lowest free slot, or -1. */
    method Append(obj: Object) returns (index: int)
      requires Valid()
      modifies this, objlist
      ensures Valid()
      ensures var t := old(objlist[..]);
              if FirstFree(t) == 32 then index == -1 && objlist[..] == t
              else index == FirstFree(t) && objlist[..] == t[index := obj]
    {
      hide Bit, Ctz, Set, FirstFree;
      FreeSlot();
      var freeMask := !validBitmap;
      if freeMask == 0 {
        return -1;
      }
      index := Ctz(freeMask);
      SetOne(validBitmap, index);
      validBitmap := Set(validBitmap, index);
      objlist[index] := obj;
    }

    /** The lowest set bit of the complement is the lowest free slot. */
    lemma FreeSlot()
      requires Valid()
      ensures FirstFree(objlist[..]) == FreeBit(validBitmap)
    {
      hide Bit, FreeBit, FirstFree;
      FirstFreeAt(objlist[..], FreeBit(validBitmap));
    }

    /** DeleteFromHandleTable. */
    method Delete(index: nat) returns (target: Object?)
      requires Valid() && index < 32
      modifies this, objlist
      ensures Valid()
      ensures target == old(objlist[index])
      ensures objlist[..] == old(objlist[..])[index := null]
    {
      hide Bit, Clear;
      target := objlist[index];
      ClearOne(validBitmap, index);
      validBitmap := Clear(validBitmap, index);
      objlist[index] := null;
    }

    /** The search of _DWIPCSend: it stops one slot short of the end. */
    method Find(obj: Object) returns (index: int)
      requires Valid()
      ensures index == if FirstHolding(objlist[..31], obj) == 31 then -1 else FirstHolding(objlist[..31], obj)
    {
      hide Bit, Mask, FirstHolding;
      index := -1;
      var i := 0;
      while i < 31
        invariant 0 <= i <= 31
        invariant forall k :: 0 <= k < i ==> objlist[k] != obj
      {
        TestBit(validBitmap, i);
        if validBitmap & Mask(i) != 0 && objlist[i] == obj {
          FirstHoldingAt(objlist[..31], obj, i);
          return i;
        }
        i := i + 1;
      }
      FirstHoldingAt(objlist[..31], obj, 31);
    }

    /** The handle the owner of a port gets for a reply object. */
    method Translate(obj: Object) returns (index: int)
      requires Valid()
      modifies this, objlist
      ensures Valid()
      ensures index == ReplyHandle(old(objlist[..]), obj)
      ensures objlist[..] == ReplyTable(old(objlist[..]), obj)
    {
      index := Find(obj);
      if index == -1 {
        index := Append(obj);
      }
    }
  }

  /** Where a reply object ends up: an existing handle below 31, else the lowest free
      slot, else nowhere. */
  function ReplyHandle(t: seq<Object?>, o: Object): (i: int)
    requires |t| == 32
    ensures -1 <= i < 32
  {
    if FirstHolding(t[..31], o) < 31 then FirstHolding(t[..31], o)
    else if FirstFree(t) < 32 then FirstFree(t)
    else -1
  }

  function ReplyTable(t: seq<Object?>, o: Object): (t': seq<Object?>)
    requires |t| == 32
    ensures |t'| == 32
  {
    if ReplyHandle(t, o) == -1 then t else t[ReplyHandle(t, o) := o]
  }

  /** A reply handle names the object in the new table, and no other slot changes. */
  lemma ReplyHandleHolds(t: seq<Object?>, o: Object)
    requires |t| == 32
    ensures var i, t' := ReplyHandle(t, o), ReplyTable(t, o);
            && (i >= 0 ==> t'[i] == o)
            && (forall k :: 0 <= k < 32 && k != i ==> t'[k] == t[k])
            && (i >= 0 ==> t[i] == null || t[i] == o)
    ensures ReplyHandle(t, o) == -1 <==> o !in t[..31] && null !in t
  {
    if o in t[..31] {
      var k :| 0 <= k < 31 && t[..31][k] == o;
    }
    if null in t {
      var k :| 0 <= k < 32 && t[k] == null;
    }
  }

  /** A second handle to an object the process already holds appears exactly when its
      only handle is slot 31 and some slot is free; with no slot free the reply is
      refused although slot 31 would do. */
  lemma DuplicateExactly(t: seq<Object?>, o: Object)
    requires |t| == 32 && o in t
    ensures ReplyTable(t, o) != t <==> o !in t[..31] && null in t
    ensures ReplyHandle(t, o) == -1 <==> o !in t[..31] && null !in t
    ensures o !in t[..31] ==> t[31] == o
  {
    ReplyHandleHolds(t, o);
    var k :| 0 <= k < 32 && t[k] == o;
    assert k < 31 ==> t[..31][k] == o;
    if o in t[..31] {
      assert ReplyTable(t, o) == t;
    } else if null in t {
      assert t[FirstFree(t)] != ReplyTable(t, o)[FirstFree(t)];
    }
  }

  // ---------------------------------------------------------------------
  // Sending
  // ---------------------------------------------------------------------

  /** The port a handle names, if it can receive. */
  function Endpoint(t: seq<Object?>, handle: int): (p: Port?)
    ensures p != null ==> 0 <= handle < |t| && t[handle] != null && t[handle].port == p && p.owner != null
  {
    if 0 <= handle < |t| && t[handle] != null && t[handle].isPort && t[handle].port != null &&
      t[handle].port.owner != null
    then t[handle].port else null
  }

  /** What a send to `p` may change. */
  function Footprint(p: Port?): set<object>
  {
    if p == null || p.owner == null then {}
    else {p, p.msgbuf, p.owner, p.owner.process.handles, p.owner.process.handles.objlist}
  }

  /** What a kernel message to `p` may change. */
  function QueueFootprint(p: Port?): set<object>
  {
    if p == null || p.owner == null then {} else {p, p.msgbuf, p.owner}
  }

  ghost predicate EndpointOk(p: Port?)
    reads Footprint(p)
  {
    p != null && p.owner != null ==> p.Valid() && p.owner.process.handles.Valid()
  }

  /** The outcome of _DWIPCSend, in the order of its tests. */
  function SendStatus(size: nat, handle: int, p: Port?, full: bool, copyOk: bool, length: nat): Status
  {
    var n := if size > 280 then 280 else size;
    if n < 24 then BadArgument
    else if !(0 <= handle < 32) then OutOfBounds
    else if p == null then NoEndpoint
    else if full then QueueFull
    else if !copyOk || length > n - 24 then BadArgument
    else Ok
  }

  /** A send is accepted exactly when the handle names a port with an owner and room, and the
      user's bytes can be read and hold the header and all of the payload it counts. */
  lemma AcceptedExactly(size: nat, handle: int, p: Port?, full: bool, copyOk: bool, length: nat)
    requires p != null ==> 0 <= handle < 32
    ensures SendStatus(size, handle, p, full, copyOk, length) == Ok <==>
            p != null && !full && copyOk && 24 + length <= size && length <= 256
  {}

  /** The reply handle delivered: a port of the sender is translated, anything else
      in range is left as sent, and a handle out of range becomes -1. */
  function DeliveredReply(mine: seq<Object?>, theirs: seq<Object?>, h: int): int
    requires |mine| == 32 && |theirs| == 32
  {
    if !(0 <= h < 32) then -1
    else if mine[h] != null && mine[h].isPort then ReplyHandle(theirs, mine[h])
    else h
  }

  function DeliveredTable(mine: seq<Object?>, theirs: seq<Object?>, h: int): seq<Object?>
    requires |mine| == 32 && |theirs| == 32
  {
    if 0 <= h < 32 && mine[h] != null && mine[h].isPort then ReplyTable(theirs, mine[h]) else theirs
  }

  function Stamped(m: Message, sender: int, reply: int): (r: Message)
  {
    m.(header := m.header.(sender := sender, reserved := 0, replyHandle := reply))
  }

  /** SendMessage, from the kernel: sender 0 and no reply.  A free slot as handle is the
      caller's error. */
  method SendMessage(process: Process, handle: int, m: Message) returns (st: Status)
    requires process.handles.Valid() && WellFormed(m)
    requires 0 <= handle < 32 ==> process.handles.objlist[handle] != null
    requires 0 <= handle < 32 && process.handles.objlist[handle].port != null ==>
             process.handles.objlist[handle].port.owner != null
    requires EndpointOk(Endpoint(process.handles.objlist[..], handle))
    modifies QueueFootprint(Endpoint(process.handles.objlist[..], handle))
    ensures var p := old(Endpoint(process.handles.objlist[..], handle));
            && EndpointOk(p)
            && (st == Ok <==> p != null && m.header.payloadLength <= 256 && old(p.count) < 12)
            && (st != Ok && p != null ==> p.Queue() == old(p.Queue()) && p.owner.state == old(p.owner.state))
            && (st == Ok ==>
                  && p.Queue() == old(p.Queue()) + [Body(Stamped(m, KERNEL_SENDER, -1))]
                  && Arrived(old(p.Queue()), p.Queue(), m, KERNEL_SENDER)
                  && p.owner.state == Woken(old(p.owner.state)))
  {
    if !(0 <= handle < 32) {
      return OutOfBounds;
    }
    var target := process.handles.objlist[handle];
    if !target.isPort || target.port == null {
      return BadArgument;
    }
    if m.header.payloadLength > MESSAGE_BUFFER_SIZE {
      return OutOfBounds;
    }
    st := target.port.EnqueueMessage(Stamped(m, KERNEL_SENDER, -1));
  }

  /** The body of _DWIPCSend once the port is known to have room and the user's bytes
      are readable. */
  method Deliver(curr: Process, p: Port, src: Message, n: nat) returns (st: Status)
    requires curr.handles.Valid() && p.owner != null && EndpointOk(p) && p.count < 12
    requires WellFormed(src) && 24 <= n <= 280
    modifies Footprint(p)
    ensures EndpointOk(p)
    ensures st == if src.header.payloadLength > n - 24 then BadArgument else Ok
    ensures st != Ok ==> Undisturbed(p, old(p.Queue()), old(p.owner.state), old(p.owner.process.handles.objlist[..]))
    ensures st == Ok ==>
              var mine, theirs, h := old(curr.handles.objlist[..]), old(p.owner.process.handles.objlist[..]),
                src.header.replyHandle;
              && p.Queue() == old(p.Queue()) + [Body(Stamped(src, curr.pid, DeliveredReply(mine, theirs, h)))]
              && Arrived(old(p.Queue()), p.Queue(), src, curr.pid)
              && p.owner.process.handles.objlist[..] == DeliveredTable(mine, theirs, h)
              && p.owner.state == Woken(old(p.owner.state))
  {
    hide Contents, Ring, DeliveredReply, DeliveredTable;
    RingLength(p.msgbuf[..], p.head, p.count);
    TailWellFormed(p.msgbuf[..], p.head, p.count);
    assert p.msgbuf[..][p.tail] == p.msgbuf[p.tail];
    var kmsg := Overwrite(p.msgbuf[p.tail], src, n - 24);
    p.WriteTail(kmsg);
    if kmsg.header.payloadLength > n - 24 {
      return BadArgument;
    }
    var reply := TranslateReply(curr.handles, p.owner.process.handles, kmsg.header.replyHandle);
    p.WriteTail(Stamped(kmsg, curr.pid, reply));
    p.Commit();
    OverwriteBody(old(p.msgbuf[p.tail]), src, n - 24, curr.pid, reply);
    p.owner.Wake();
    return Ok;
  }

  /** Bytes left over from an older message are never part of a newer one. */
  lemma OverwriteBody(was: Message, src: Message, n: nat, sender: int, reply: int)
    requires WellFormed(was) && WellFormed(src) && src.header.payloadLength <= n <= 256
    ensures Body(Stamped(Overwrite(was, src, n), sender, reply)) == Body(Stamped(src, sender, reply))
  {}

  method TranslateReply(mine: HandleTable, theirs: HandleTable, h: int) returns (reply: int)
    requires mine.Valid() && theirs.Valid()
    modifies theirs, theirs.objlist
    ensures theirs.Valid()
    ensures reply == DeliveredReply(old(mine.objlist[..]), old(theirs.objlist[..]), h)
    ensures theirs.objlist[..] == DeliveredTable(old(mine.objlist[..]), old(theirs.objlist[..]), h)
  {
    reply := h;
    if 0 <= h < MAX_OBJ_PER_PROCESS {
      var replyObj := mine.objlist[h];
      if replyObj != null && replyObj.isPort {
        reply := theirs.Translate(replyObj);
      }
    } else {
      reply := -1;
    }
  }

  ghost predicate Undisturbed(p: Port, q: seq<Delivered>, s: RoundRobin.State, t: seq<Object?>)
    requires p.owner != null && EndpointOk(p)
    reads Footprint(p)
  {
    p.Queue() == q && p.owner.state == s && p.owner.process.handles.objlist[..] == t
  }

  /** _DWIPCSend. */
  method Send(curr: Process, handle: int, src: Message, size: nat, copyOk: bool) returns (st: Status)
    requires curr.handles.Valid() && WellFormed(src)
    requires EndpointOk(Endpoint(curr.handles.objlist[..], handle))
    modifies Footprint(Endpoint(curr.handles.objlist[..], handle))
    ensures var p := old(Endpoint(curr.handles.objlist[..], handle));
            && EndpointOk(p)
            && st == SendStatus(size, handle, p, p != null && old(p.count) >= 12, copyOk, src.header.payloadLength)
            && (st != Ok && p != null ==>
                  Undisturbed(p, old(p.Queue()), old(p.owner.state), old(p.owner.process.handles.objlist[..])))
            && (st == Ok ==>
                  var mine, theirs, h := old(curr.handles.objlist[..]), old(p.owner.process.handles.objlist[..]),
                    src.header.replyHandle;
                  && p.Queue() == old(p.Queue()) + [Body(Stamped(src, curr.pid, DeliveredReply(mine, theirs, h)))]
                  && Arrived(old(p.Queue()), p.Queue(), src, curr.pid)
                  && p.owner.process.handles.objlist[..] == DeliveredTable(mine, theirs, h)
                  && p.owner.state == Woken(old(p.owner.state)))
  {
    var n := if size > 280 then 280 else size;
    if n < 24 {
      return BadArgument;
    }
    if handle < 0 || handle >= MAX_OBJ_PER_PROCESS {
      return OutOfBounds;
    }
    var target := curr.handles.objlist[handle];
    if target == null || !target.isPort || target.port == null {
      return NoEndpoint;
    }
    var p := target.port;
    if p.owner == null {
      return NoEndpoint;
    }
    if p.count >= MAX_MESSAGES_IN_PORT {
      return QueueFull;
    }
    if !copyOk {
      return BadArgument;
    }
    st := Deliver(curr, p, src, n);
  }

  /** A reply handle that names a port of the sender reaches the receiver as -1 or as a
      slot of its own table holding that same object; no other slot changes. */
  lemma ReplyReachesPort(mine: seq<Object?>, theirs: seq<Object?>, h: int)
    requires |mine| == 32 && |theirs| == 32 && 0 <= h < 32 && mine[h] != null && mine[h].isPort
    ensures var r, t' := DeliveredReply(mine, theirs, h), DeliveredTable(mine, theirs, h);
            && |t'| == 32
            && (r == -1 || (0 <= r < 32 && t'[r] == mine[h]))
            && (forall k :: 0 <= k < 32 && k != r ==> t'[k] == theirs[k])
            && (r == -1 <==> mine[h] !in theirs[..31] && null !in theirs)
  {
    ReplyHandleHolds(theirs, mine[h]);
  }

  // ---------------------------------------------------------------------
  // Receiving
  // ---------------------------------------------------------------------

  function PortOnly(p: Port?): set<object> { if p == null then {} else {p} }

  /** _DWIPCReceive up to its blocking point: a call that returns WouldBlock is made again
      once the thread runs. */
  method ReceiveCall(curr: Receiver, handle: int, copyOk: bool)
    returns (st: Status, out: Option<Delivered>)
    requires curr.process.handles.Valid()
    requires 0 <= handle < 32 && curr.process.handles.objlist[handle] != null &&
             curr.process.handles.objlist[handle].port != null ==>
               var p := curr.process.handles.objlist[handle].port; p.Valid() && p.owner != null
    modifies curr, PortOnly(Endpoint(curr.process.handles.objlist[..], handle))
    ensures var t := old(curr.process.handles.objlist[..]);
            var p := Endpoint(t, handle);
            && (st == OutOfBounds <==> !(0 <= handle < 32))
            && (st == NoEndpoint <==> 0 <= handle < 32 && p == null)
            && (st == BadArgument <==> p != null && p.owner.process != curr.process)
            && (p != null ==> p.Valid())
            && (p != null && st == BadArgument ==> p.Queue() == old(p.Queue()))
            && (st == WouldBlock <==> p != null && p.owner.process == curr.process && old(p.Queue()) == [])
            && (st == WouldBlock ==> curr.state == RoundRobin.Blocked && p.Queue() == [])
            && (st != WouldBlock ==> curr.state == old(curr.state))
            && (st in {Ok, Bad} <==> p != null && p.owner.process == curr.process && old(p.Queue()) != [])
            && (st in {Ok, Bad} ==> p.Queue() == old(p.Queue())[1..])
            && (st == Ok ==> out == Some(old(p.Queue())[0]))
  {
    out := None;
    if handle < 0 || handle >= MAX_OBJ_PER_PROCESS {
      return OutOfBounds, out;
    }
    var obj := curr.process.handles.objlist[handle];
    if obj == null || !obj.isPort || obj.port == null {
      return NoEndpoint, out;
    }
    if obj.port.owner.process != curr.process {
      return BadArgument, out;
    }
    st, out := obj.port.Receive(curr, copyOk);
  }
}
