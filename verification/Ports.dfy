/** A port's message ring (sys/iomgr/port.h, sys/task/message.c) as a FIFO queue. */
module Ports {
  const MAX_MESSAGES_IN_PORT: int := 12
  const MESSAGE_BUFFER_SIZE: int := 256
  const KERNEL_SENDER: int := 0

  datatype Header = Header(msgid: int, replyHandle: int, sender: int, kind: int,
                           protocol: int, payloadLength: nat, reserved: int)

  /** A whole message buffer; only the first `payloadLength` payload bytes mean
      anything. */
  datatype Message = Message(header: Header, payload: seq<int>)

  /** A message as the receiver gets it. */
  datatype Delivered = Delivered(header: Header, body: seq<int>)

  predicate WellFormed(m: Message) { |m.payload| == 256 }
  predicate Fits(m: Message) { WellFormed(m) && m.header.payloadLength <= 256 }

  /** `d` hands over what `m` holds: its id, kind, protocol and length, and its payload byte by
      byte. */
  predicate Conveys(d: Delivered, m: Message)
  {
    && d.header.msgid == m.header.msgid && d.header.kind == m.header.kind && d.header.protocol == m.header.protocol
    && d.header.payloadLength == m.header.payloadLength == |d.body| <= |m.payload|
    && forall i :: 0 <= i < |d.body| ==> d.body[i] == m.payload[i]
  }

  function Body(m: Message): (d: Delivered)
    requires Fits(m)
    ensures d.header == m.header && Conveys(d, m)
  {
    Delivered(m.header, m.payload[..m.header.payloadLength])
  }

  /** One message, stamped with `sender`, has joined the queue, and it conveys `m`. */
  predicate Arrived(q: seq<Delivered>, q': seq<Delivered>, m: Message, sender: int)
  {
    && |q'| == |q| + 1 && q'[..|q|] == q
    && Conveys(q'[|q|], m) && q'[|q|].header.sender == sender && q'[|q|].header.reserved == 0
  }

  /** memcpy of a header and `n` payload bytes over an older message. */
  function Overwrite(was: Message, src: Message, n: nat): (m: Message)
    requires WellFormed(was) && WellFormed(src) && n <= 256
    ensures WellFormed(m)
  {
    Message(src.header, src.payload[..n] + was.payload[n..])
  }

  // ---------------------------------------------------------------------
  // Rings
  // ---------------------------------------------------------------------

  function Slot(head: int, k: int): (i: int)
    requires 0 <= head < 12 && 0 <= k <= 12
    ensures 0 <= i < 12 && i == (head + k) % 12
  {
    if head + k < 12 then head + k else head + k - 12
  }

  predicate Ring(buf: seq<Message>, head: int, count: int)
  {
    && |buf| == 12 && 0 <= head < 12 && 0 <= count <= 12
    && (forall i :: 0 <= i < 12 ==> WellFormed(buf[i]))
    && (forall k :: 0 <= k < count ==> Fits(buf[Slot(head, k)]))
  }

  function Contents(buf: seq<Message>, head: int, count: int): (q: seq<Delivered>)
    requires Ring(buf, head, count)
    ensures |q| == count
  {
    seq(count, k requires 0 <= k < count => Body(buf[Slot(head, k)]))
  }

  lemma RingLength(buf: seq<Message>, head: int, count: int)
    requires Ring(buf, head, count)
    ensures |buf| == 12 && 0 <= head < 12 && 0 <= count <= 12
  {}

  lemma TailWellFormed(buf: seq<Message>, head: int, count: int)
    requires Ring(buf, head, count)
    ensures WellFormed(buf[Slot(head, count)])
  {}

  /** Writing the tail slot does not touch the queue, whatever is written. */
  lemma TailIsFree(buf: seq<Message>, head: int, count: int, m: Message)
    requires Ring(buf, head, count) && count < 12 && WellFormed(m)
    ensures Ring(buf[Slot(head, count) := m], head, count)
    ensures Contents(buf[Slot(head, count) := m], head, count) == Contents(buf, head, count)
  {
    var b := buf[Slot(head, count) := m];
    forall k | 0 <= k < count ensures b[Slot(head, k)] == buf[Slot(head, k)] {}
  }

  /** Advancing the tail appends what was written there. */
  lemma Push(buf: seq<Message>, head: int, count: int, m: Message)
    requires Ring(buf, head, count) && count < 12 && Fits(m)
    ensures Ring(buf[Slot(head, count) := m], head, count + 1)
    ensures Contents(buf[Slot(head, count) := m], head, count + 1) == Contents(buf, head, count) + [Body(m)]
  {
    var b := buf[Slot(head, count) := m];
    forall k | 0 <= k < count ensures b[Slot(head, k)] == buf[Slot(head, k)] {}
  }

  /** Advancing the head removes the oldest message. */
  lemma Pop(buf: seq<Message>, head: int, count: int)
    requires Ring(buf, head, count) && count > 0
    ensures Ring(buf, Slot(head, 1), count - 1)
    ensures Slot(head, 0) == head && Contents(buf, head, count)[0] == Body(buf[Slot(head, 0)])
    ensures Contents(buf, Slot(head, 1), count - 1) == Contents(buf, head, count)[1..]
    ensures Slot(head, count) == Slot(Slot(head, 1), count - 1)
  {
    var h := Slot(head, 1);
    forall k | 0 <= k < count - 1 ensures Slot(h, k) == Slot(head, k + 1) {}
  }
}
