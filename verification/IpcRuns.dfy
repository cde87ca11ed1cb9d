/** Every interleaving of senders, kernel messages, receivers, handle operations and the
    scheduler over a set of ports and handle tables (sys/syscall/ipc.c,
    sys/task/message.c, sys/iomgr/object.c, sys/task/task.c).  System calls run with
    interrupts off, so each step is one call up to its ScheduleNext; the scheduler may
    pick any ready thread. */
module IpcRuns {
  import opened Ports
  import opened RoundRobin
  import opened Ipc

  /** Where a thread resumes: in its program, or inside the receive loop of a port. */
  datatype Pc = User | Receiving(port: Port)

  datatype Thr = Thr(st: State, pc: Pc)

  /** A message accepted by a port: what the port keeps, what was sent, and the port object its
      reply handle named in the sender, if any. */
  datatype Posted = Posted(msg: Delivered, source: Message, fromKernel: bool, reply: Object?)

  /** A port: its queue, everything ever accepted, and how many of those messages have
      been taken out. */
  datatype Chan = Chan(queue: seq<Delivered>, sent: seq<Posted>, taken: nat)

  datatype Machine = Machine(chans: map<Port, Chan>, threads: map<Receiver, Thr>,
                             tables: map<HandleTable, seq<Object?>>, current: Receiver,
                             closed: set<(HandleTable, int)>)

  datatype Event =
    | Send(handle: int, m: Message, size: nat, copyOk: bool)
    | KernelSend(target: Receiver, handle: int, m: Message)
    | Receive(handle: int, copyOk: bool)
    | Resume(copyOk: bool)
    | Switch(t: Receiver)
    | Wake(t: Receiver)
    | Kill(t: Receiver)
    | Open(t: Receiver, obj: Object)
    | Close(t: Receiver, index: int)

  /** The table a process keeps its handles in. */
  function TableOf(t: Receiver): HandleTable { t.process.handles }

  predicate TableShaped(s: Machine, h: seq<Object?>)
  {
    |h| == 32 && forall i :: 0 <= i < 32 ==> ObjectKnown(s.chans.Keys, h[i])
  }

  /** An object that has a port has one of the system's. */
  predicate ObjectKnown(ports: set<Port>, o: Object?)
  {
    o != null && o.port != null ==> o.port in ports
  }

  predicate Shaped(s: Machine)
  {
    && s.current in s.threads
    && (forall p :: p in s.chans ==> p.owner != null && p.owner in s.threads)
    && (forall t :: t in s.threads ==> TableOf(t) in s.tables && t.process.pid > 0)
    && (forall h :: h in s.tables ==> TableShaped(s, s.tables[h]))
  }

  function SetState(s: Machine, t: Receiver, st: State): Machine
    requires t in s.threads
  {
    s.(threads := s.threads[t := s.threads[t].(st := st)])
  }

  /** Queue a message and wake the owner, as both senders do. */
  function Post(s: Machine, p: Port, m: Posted): Machine
    requires Shaped(s) && p in s.chans
  {
    var c := s.chans[p];
    SetState(s.(chans := s.chans[p := c.(queue := c.queue + [m.msg], sent := c.sent + [m])]),
             p.owner, Woken(s.threads[p.owner].st))
  }

  /** The port a handle of thread `t` names. */
  function Target(s: Machine, t: Receiver, handle: int): Port?
    requires Shaped(s) && t in s.threads
  {
    Endpoint(s.tables[TableOf(t)], handle)
  }

  /** The message as the port of another process gets it: stamped with the sender, its reply
      handle translated into the table of the port's owner. */
  function UserPosted(s: Machine, p: Port, m: Message): Posted
    requires Shaped(s) && p in s.chans && Fits(m)
  {
    var mine, theirs, h := s.tables[TableOf(s.current)], s.tables[TableOf(p.owner)], m.header.replyHandle;
    var obj := if 0 <= h < 32 && mine[h] != null && mine[h].isPort then mine[h] else null;
    Posted(Body(Stamped(m, s.current.process.pid, DeliveredReply(mine, theirs, h))), m, false, obj)
  }

  function KernelPosted(m: Message): Posted
    requires Fits(m)
  {
    Posted(Body(Stamped(m, KERNEL_SENDER, -1)), m, true, null)
  }

  /** The owner's table after the reply handle of `m` has been translated. */
  function UserTable(s: Machine, p: Port, m: Message): seq<Object?>
    requires Shaped(s) && p in s.chans
  {
    DeliveredTable(s.tables[TableOf(s.current)], s.tables[TableOf(p.owner)], m.header.replyHandle)
  }

  /** _DWIPCSend once every test has passed. */
  function UserSend(s: Machine, p: Port, m: Message): Machine
    requires Shaped(s) && p in s.chans && Fits(m)
  {
    TablesStay(s, p, m);
    Post(s.(tables := s.tables[TableOf(p.owner) := UserTable(s, p, m)]), p, UserPosted(s, p, m))
  }

  lemma TablesStay(s: Machine, p: Port, m: Message)
    requires Shaped(s) && p in s.chans
    ensures Shaped(s.(tables := s.tables[TableOf(p.owner) := UserTable(s, p, m)]))
  {}

  /** One pass of the receive loop by the current thread.  A message that cannot be copied
      out is gone all the same. */
  function Take(s: Machine, p: Port): Machine
    requires Shaped(s) && p in s.chans
  {
    var c, t := s.chans[p], s.current;
    if c.queue == [] then
      s.(threads := s.threads[t := Thr(Blocked, Receiving(p))])
    else
      s.(chans := s.chans[p := c.(queue := c.queue[1..], taken := c.taken + 1)],
         threads := s.threads[t := s.threads[t].(pc := User)])
  }

  function Step(s: Machine, e: Event): Machine
    requires Shaped(s)
  {
    var me := s.threads[s.current];
    match e
    case Send(handle, m, size, copyOk) =>
      var p := Target(s, s.current, handle);
      if me == Thr(Running, User) && WellFormed(m) && p != null &&
         SendStatus(size, handle, p, |s.chans[p].queue| >= 12, copyOk, m.header.payloadLength) == Ok
      then UserSend(s, p, m) else s
    case KernelSend(t, handle, m) =>
      if t in s.threads && Fits(m) && Target(s, t, handle) != null && |s.chans[Target(s, t, handle)].queue| < 12
      then
        var s1 := Post(s, Target(s, t, handle), KernelPosted(m));
        SetState(s1, t, Woken(s1.threads[t].st))
      else s
    case Receive(handle, _) =>
      var p := Target(s, s.current, handle);
      if me == Thr(Running, User) && p != null && p.owner.process == s.current.process then Take(s, p) else s
    case Resume(_) =>
      if me.st == Running && me.pc.Receiving? && me.pc.port in s.chans then Take(s, me.pc.port) else s
    case Switch(t) =>
      if t in s.threads && s.threads[t].st == Ready
      then
        var s1 := if me.st == Running then SetState(s, s.current, Ready) else s;
        SetState(s1, t, Running).(current := t)
      else s
    case Wake(t) =>
      if t in s.threads then SetState(s, t, Woken(s.threads[t].st)) else s
    case Kill(t) =>
      if t in s.threads then SetState(s, t, Terminated) else s
    case Open(t, obj) =>
      if t in s.threads && ObjectKnown(s.chans.Keys, obj) && FirstFree(s.tables[TableOf(t)]) < 32
      then s.(tables := s.tables[TableOf(t) := s.tables[TableOf(t)][FirstFree(s.tables[TableOf(t)]) := obj]]) else s
    case Close(t, i) =>
      if t in s.threads && 0 <= i < 32
      then s.(tables := s.tables[TableOf(t) := s.tables[TableOf(t)][i := null]],
        closed := s.closed + {(TableOf(t), i)}) else s
  }

  // ---------------------------------------------------------------------
  // What every step keeps
  // ---------------------------------------------------------------------

  /** Thread `t` sleeps in the receive loop of port `p` although a message waits there. */
  predicate Lost(s: Machine, t: Receiver, p: Port)
  {
    && t in s.threads && p in s.chans
    && s.threads[t].st == Blocked && s.threads[t].pc == Receiving(p) && s.chans[p].queue != []
  }

  /** The queue holds, in order, exactly the accepted messages not yet taken; every
      message conveys what was sent and is stamped by the kernel. */
  predicate ChanOk(c: Chan)
  {
    && |c.queue| <= 12 && c.taken + |c.queue| == |c.sent|
    && (forall i :: 0 <= i < |c.queue| ==> c.queue[i] == c.sent[c.taken + i].msg)
    && (forall i :: 0 <= i < |c.sent| ==> PostedOk(c.sent[i]))
  }

  predicate PostedOk(m: Posted)
  {
    && Conveys(m.msg, m.source) && m.msg.header.payloadLength <= 256
    && (m.msg.header.sender == KERNEL_SENDER <==> m.fromKernel)
    && m.msg.header.reserved == 0
  }

  /** A reply handle that named a port arrives as -1 or as a slot of the receiving process
      that holds the same object, for as long as that slot is not closed. */
  predicate ReplyOk(h: HandleTable, table: seq<Object?>, closed: set<(HandleTable, int)>, m: Posted)
  {
    var r := m.msg.header.replyHandle;
    m.reply != null ==> r == -1 || (0 <= r < |table| && (table[r] == m.reply || (h, r) in closed))
  }

  predicate RepliesOk(s: Machine, p: Port)
    requires Shaped(s) && p in s.chans
  {
    forall i :: 0 <= i < |s.chans[p].sent| ==>
      ReplyOk(TableOf(p.owner), s.tables[TableOf(p.owner)], s.closed, s.chans[p].sent[i])
  }

  predicate PortOk(s: Machine, p: Port)
    requires Shaped(s) && p in s.chans
  {
    ChanOk(s.chans[p]) && RepliesOk(s, p) && !Lost(s, p.owner, p)
  }

  ghost predicate Inv(s: Machine)
  {
    Shaped(s) && forall p :: p in s.chans ==> PortOk(s, p)
  }

  lemma TableInv(s: Machine, h: HandleTable, table: seq<Object?>, closed: set<(HandleTable, int)>)
    requires Inv(s) && h in s.tables && TableShaped(s, table) && s.closed <= closed
    requires forall i :: 0 <= i < 32 && s.tables[h][i] != null ==> table[i] == s.tables[h][i] || (h, i) in closed
    ensures Inv(s.(tables := s.tables[h := table], closed := closed))
  {
    var s' := s.(tables := s.tables[h := table], closed := closed);
    assert Shaped(s') by {
      forall g | g in s'.tables ensures TableShaped(s', s'.tables[g]) {
        assert TableShaped(s, if g == h then table else s.tables[g]);
      }
    }
    forall p | p in s'.chans ensures PortOk(s', p) {
      assert PortOk(s, p);
      var t := TableOf(p.owner);
      forall i | 0 <= i < |s.chans[p].sent| ensures ReplyOk(t, s'.tables[t], s'.closed, s.chans[p].sent[i]) {
        assert ReplyOk(t, s.tables[t], s.closed, s.chans[p].sent[i]);
      }
    }
  }

  /** Queueing a well-formed message and waking the owner. */
  lemma PostInv(s: Machine, p: Port, m: Posted)
    requires Inv(s) && p in s.chans && PostedOk(m) && |s.chans[p].queue| < 12
    requires ReplyOk(TableOf(p.owner), s.tables[TableOf(p.owner)], s.closed, m)
    ensures Inv(Post(s, p, m))
  {
    var s' := Post(s, p, m);
    PostShaped(s, p, m);
    forall q | q in s'.chans ensures PortOk(s', q) {
      assert PortOk(s, q);
      if q == p { assert ChanOk(s'.chans[q]); }
    }
  }

  lemma PostShaped(s: Machine, p: Port, m: Posted)
    requires Shaped(s) && p in s.chans
    ensures Shaped(Post(s, p, m)) && Post(s, p, m).tables == s.tables && Post(s, p, m).threads.Keys == s.threads.Keys
  {
    var s' := Post(s, p, m);
    assert s'.chans.Keys == s.chans.Keys;
    forall h | h in s'.tables ensures TableShaped(s', s'.tables[h]) { assert TableShaped(s, s.tables[h]); }
  }

  lemma TakeInv(s: Machine, p: Port)
    requires Inv(s) && p in s.chans
    ensures Inv(Take(s, p))
  {
    TakeShaped(s, p);
    hide Take, PortOk;
    forall q | q in Take(s, p).chans ensures PortOk(Take(s, p), q) { TakePort(s, p, q); }
  }

  lemma TakeShaped(s: Machine, p: Port)
    requires Shaped(s) && p in s.chans
    ensures Shaped(Take(s, p)) && Take(s, p).chans.Keys == s.chans.Keys
  {
    var s' := Take(s, p);
    assert s'.chans.Keys == s.chans.Keys;
    forall h | h in s'.tables ensures TableShaped(s', s'.tables[h]) { assert TableShaped(s, s.tables[h]); }
  }

  lemma TakePort(s: Machine, p: Port, q: Port)
    requires Shaped(s) && p in s.chans && q in s.chans && PortOk(s, p) && PortOk(s, q) && Shaped(Take(s, p))
    ensures q in Take(s, p).chans && PortOk(Take(s, p), q)
  {
    hide Shaped, ReplyOk, ChanOk;
    if q == p { TakeChan(s.chans[p]); }
  }

  lemma TakeChan(c: Chan)
    requires ChanOk(c)
    ensures c.queue != [] ==> ChanOk(c.(queue := c.queue[1..], taken := c.taken + 1))
  {
    hide PostedOk;
  }

  /** Changing thread states other than to BLOCKED loses no wake-up. */
  lemma StateInv(s: Machine, t: Receiver, st: State, c: Receiver)
    requires Inv(s) && t in s.threads && (st == Blocked ==> s.threads[t].st == Blocked) && c in s.threads
    ensures Inv(SetState(s, t, st).(current := c))
  {
    var s' := SetState(s, t, st).(current := c);
    assert Shaped(s') by {
      forall h | h in s'.tables ensures TableShaped(s', s'.tables[h]) { assert TableShaped(s, s.tables[h]); }
    }
    forall q | q in s'.chans ensures PortOk(s', q) { assert PortOk(s, q); }
  }

  lemma UserSendInv(s: Machine, p: Port, m: Message)
    requires Inv(s) && p in s.chans && Fits(m) && |s.chans[p].queue| < 12
    ensures Inv(UserSend(s, p, m))
  {
    var mine, theirs, h := s.tables[TableOf(s.current)], s.tables[TableOf(p.owner)], m.header.replyHandle;
    var table, posted := UserTable(s, p, m), UserPosted(s, p, m);
    var s1 := s.(tables := s.tables[TableOf(p.owner) := table]);
    TablesStay(s, p, m);
    if posted.reply != null { ReplyReachesPort(mine, theirs, h); ReplyHandleHolds(theirs, mine[h]); }
    hide Inv, DeliveredTable, DeliveredReply;
    assert TableShaped(s, table) by { assert TableShaped(s1, s1.tables[TableOf(p.owner)]); }
    TableInv(s, TableOf(p.owner), table, s.closed);
    assert s1 == s.(tables := s.tables[TableOf(p.owner) := table], closed := s.closed);
    PostInv(s1, p, posted);
  }

  /** Every step keeps the invariant. */
  lemma StepInv(s: Machine, e: Event)
    requires Inv(s)
    ensures Inv(Step(s, e))
  {
    assert Shaped(s);
    hide Inv, Post, Take, SetState, UserSend, Shaped;
    var me := s.threads[s.current];
    match e
    case Send(handle, m, size, copyOk) =>
      var p := Target(s, s.current, handle);
      if me == Thr(Running, User) && WellFormed(m) && p != null &&
         SendStatus(size, handle, p, |s.chans[p].queue| >= 12, copyOk, m.header.payloadLength) == Ok {
        UserSendInv(s, p, m);
      }
    case KernelSend(t, handle, m) => KernelSendInv(s, t, handle, m);
    case Receive(handle, _) =>
      var p := Target(s, s.current, handle);
      if p != null { TakeInv(s, p); }
    case Resume(_) =>
      if me.pc.Receiving? && me.pc.port in s.chans { TakeInv(s, me.pc.port); }
    case Switch(t) => SwitchInv(s, t);
    case Wake(t) =>
      if t in s.threads {
        StateInv(s, t, Woken(s.threads[t].st), s.current);
        SameCurrent(s, t, Woken(s.threads[t].st));
      }
    case Kill(t) =>
      if t in s.threads { StateInv(s, t, Terminated, s.current); SameCurrent(s, t, Terminated); }
    case Open(t, obj) => OpenInv(s, t, obj);
    case Close(t, i) => CloseInv(s, t, i);
  }

  lemma SameCurrent(s: Machine, t: Receiver, st: State)
    requires t in s.threads
    ensures SetState(s, t, st).(current := s.current) == SetState(s, t, st)
  {}

  lemma KernelSendInv(s: Machine, t: Receiver, handle: int, m: Message)
    requires Inv(s)
    ensures Inv(Step(s, KernelSend(t, handle, m)))
  {
    if t in s.threads && Fits(m) && Target(s, t, handle) != null && |s.chans[Target(s, t, handle)].queue| < 12 {
      var p, posted := Target(s, t, handle), KernelPosted(m);
      hide Inv, Post;
      PostInv(s, p, posted);
      PostShaped(s, p, posted);
      var s1 := Post(s, p, posted);
      assert s1.current == s.current by { PostCurrent(s, p, posted); }
      StateInv(s1, t, Woken(s1.threads[t].st), s1.current);
      SameCurrent(s1, t, Woken(s1.threads[t].st));
    }
  }

  lemma PostCurrent(s: Machine, p: Port, m: Posted)
    requires Shaped(s) && p in s.chans
    ensures Post(s, p, m).current == s.current
  {}

  lemma SwitchInv(s: Machine, t: Receiver)
    requires Inv(s)
    ensures Inv(Step(s, Switch(t)))
  {
    var me := s.threads[s.current];
    if t in s.threads && s.threads[t].st == Ready {
      var s1 := if me.st == Running then SetState(s, s.current, Ready) else s;
      assert Inv(s1) by {
        StateInv(s, s.current, Ready, s.current);
        SameCurrent(s, s.current, Ready);
      }
      StateInv(s1, t, Running, t);
    }
  }

  lemma OpenInv(s: Machine, t: Receiver, obj: Object)
    requires Inv(s)
    ensures Inv(Step(s, Open(t, obj)))
  {
    if t in s.threads && ObjectKnown(s.chans.Keys, obj) && FirstFree(s.tables[TableOf(t)]) < 32 {
      var old_, i := s.tables[TableOf(t)], FirstFree(s.tables[TableOf(t)]);
      assert TableShaped(s, old_);
      hide FirstFree;
      TableInv(s, TableOf(t), old_[i := obj], s.closed);
      assert s.(tables := s.tables[TableOf(t) := old_[i := obj]]) ==
             s.(tables := s.tables[TableOf(t) := old_[i := obj]], closed := s.closed);
    }
  }

  lemma CloseInv(s: Machine, t: Receiver, i: int)
    requires Inv(s)
    ensures Inv(Step(s, Close(t, i)))
  {
    if t in s.threads && 0 <= i < 32 {
      assert TableShaped(s, s.tables[TableOf(t)]);
      TableInv(s, TableOf(t), s.tables[TableOf(t)][i := null], s.closed + {(TableOf(t), i)});
    }
  }

  // ---------------------------------------------------------------------
  // Whole runs
  // ---------------------------------------------------------------------

  ghost function Run(s: Machine, es: seq<Event>): (r: Machine)
    requires Inv(s)
    ensures Inv(r)
    decreases |es|
  {
    if es == [] then s else StepInv(s, es[0]); Run(Step(s, es[0]), es[1..])
  }

  /** Nothing sent is forgotten, nothing taken comes back. */
  predicate Grew(a: Chan, b: Chan) { a.sent <= b.sent && a.taken <= b.taken }

  predicate History(s: Machine, r: Machine, p: Port)
  {
    p in s.chans && p in r.chans && Grew(s.chans[p], r.chans[p])
  }

  lemma Grows(c: Chan, m: Posted)
    ensures Grew(c, c) && Grew(c, c.(queue := c.queue + [m.msg], sent := c.sent + [m]))
    ensures c.queue != [] ==> Grew(c, c.(queue := c.queue[1..], taken := c.taken + 1))
  {}

  lemma GrewTransitive(a: Chan, b: Chan, c: Chan)
    requires Grew(a, b) && Grew(b, c)
    ensures Grew(a, c)
  {}

  lemma PostHistory(s: Machine, q: Port, m: Posted, p: Port)
    requires Shaped(s) && q in s.chans && p in s.chans
    ensures History(s, Post(s, q, m), p)
  {
    hide Shaped, Grew;
    Grows(s.chans[p], m);
  }

  lemma TakeHistory(s: Machine, q: Port, p: Port)
    requires Shaped(s) && q in s.chans && p in s.chans
    ensures History(s, Take(s, q), p)
  {
    hide Shaped, Grew;
    var header := Header(0, 0, 0, 0, 0, 0, 0);
    var any := Posted(Delivered(header, []), Message(header, []), false, null);
    Grows(s.chans[p], any);
  }

  lemma UserSendHistory(s: Machine, q: Port, m: Message, p: Port)
    requires Shaped(s) && q in s.chans && Fits(m) && p in s.chans
    ensures History(s, UserSend(s, q, m), p)
  {
    TablesStay(s, q, m);
    hide Shaped, UserTable, UserPosted, Post, Grew;
    PostHistory(s.(tables := s.tables[TableOf(q.owner) := UserTable(s, q, m)]), q, UserPosted(s, q, m), p);
  }

  lemma Same(s: Machine, p: Port)
    requires p in s.chans
    ensures Grew(s.chans[p], s.chans[p])
  {}

  lemma KernelSendHistory(s: Machine, t: Receiver, handle: int, m: Message, p: Port)
    requires Shaped(s) && p in s.chans
    ensures History(s, Step(s, KernelSend(t, handle, m)), p)
  {
    hide Post, Grew;
    Same(s, p);
    if t in s.threads && Fits(m) && Target(s, t, handle) != null {
      PostHistory(s, Target(s, t, handle), KernelPosted(m), p);
    }
  }

  lemma SendHistory(s: Machine, handle: int, m: Message, size: nat, copyOk: bool, p: Port)
    requires Shaped(s) && p in s.chans
    ensures History(s, Step(s, Send(handle, m, size, copyOk)), p)
  {
    hide UserSend, Grew;
    Same(s, p);
    var q := Target(s, s.current, handle);
    if q != null && Fits(m) { UserSendHistory(s, q, m, p); }
  }

  lemma ReceiveHistory(s: Machine, e: Event, p: Port)
    requires Shaped(s) && p in s.chans && (e.Receive? || e.Resume?)
    ensures History(s, Step(s, e), p)
  {
    hide Take, Grew;
    Same(s, p);
    if e.Receive? {
      var q := Target(s, s.current, e.handle);
      if q != null { TakeHistory(s, q, p); }
    } else {
      var pc := s.threads[s.current].pc;
      if pc.Receiving? && pc.port in s.chans { TakeHistory(s, pc.port, p); }
    }
  }

  /** Scheduling and handle operations touch no port. */
  lemma OtherHistory(s: Machine, e: Event, p: Port)
    requires Shaped(s) && p in s.chans && (e.Switch? || e.Wake? || e.Kill? || e.Open? || e.Close?)
    ensures History(s, Step(s, e), p)
  {
    hide Grew, FirstFree, TableShaped;
    Same(s, p);
    assert Step(s, e).chans == s.chans;
  }

  lemma StepHistory(s: Machine, e: Event, p: Port)
    requires Inv(s) && p in s.chans
    ensures Inv(Step(s, e)) && History(s, Step(s, e), p)
  {
    StepInv(s, e);
    assert Shaped(s);
    hide Inv, Shaped, Step, History;
    match e
    case Send(handle, m, size, copyOk) => SendHistory(s, handle, m, size, copyOk, p);
    case KernelSend(t, handle, m) => KernelSendHistory(s, t, handle, m, p);
    case Receive(_, _) => ReceiveHistory(s, e, p);
    case Resume(_) => ReceiveHistory(s, e, p);
    case _ => OtherHistory(s, e, p);
  }

  lemma {:induction false} RunHistory(s: Machine, es: seq<Event>, p: Port)
    requires Inv(s) && p in s.chans
    ensures History(s, Run(s, es), p)
    decreases |es|
  {
    assert Shaped(s);
    hide Step, Inv, Shaped, Grew;
    Same(s, p);
    if es != [] {
      StepHistory(s, es[0], p);
      var s1 := Step(s, es[0]);
      RunHistory(s1, es[1..], p);
      GrewTransitive(s.chans[p], s1.chans[p], Run(s1, es[1..]).chans[p]);
    }
  }

  /** The message is the one event `e` sends. */
  predicate Origin(e: Event, m: Posted)
  {
    (e.Send? && m.source == e.m && !m.fromKernel) || (e.KernelSend? && m.source == e.m && m.fromKernel)
  }

  /** The messages are those of some of the events, in the same order. */
  ghost predicate InOrder(es: seq<Event>, ms: seq<Posted>)
    decreases |es|
  {
    ms == [] || (es != [] && ((Origin(es[0], ms[0]) && InOrder(es[1..], ms[1..])) || InOrder(es[1..], ms)))
  }

  /** A port accepts at most the message the event sends. */
  predicate Accepts(a: Chan, b: Chan, e: Event)
  {
    b.sent == a.sent || (|b.sent| == |a.sent| + 1 && b.sent[..|a.sent|] == a.sent && Origin(e, b.sent[|a.sent|]))
  }

  lemma PostAccepts(s: Machine, q: Port, m: Posted, p: Port, e: Event)
    requires Shaped(s) && q in s.chans && p in s.chans && Origin(e, m)
    ensures p in Post(s, q, m).chans && Accepts(s.chans[p], Post(s, q, m).chans[p], e)
  {
    hide Shaped;
  }

  lemma SendAccepts(s: Machine, e: Event, p: Port)
    requires Shaped(s) && p in s.chans && e.Send?
    ensures p in Step(s, e).chans && Accepts(s.chans[p], Step(s, e).chans[p], e)
  {
    hide Post, Accepts, SendStatus;
    NothingAccepted(s.chans[p], e);
    var q := Target(s, s.current, e.handle);
    if q != null && Fits(e.m) {
      TablesStay(s, q, e.m);
      PostAccepts(s.(tables := s.tables[TableOf(q.owner) := UserTable(s, q, e.m)]), q, UserPosted(s, q, e.m), p, e);
    }
  }

  lemma KernelSendAccepts(s: Machine, e: Event, p: Port)
    requires Shaped(s) && p in s.chans && e.KernelSend?
    ensures p in Step(s, e).chans && Accepts(s.chans[p], Step(s, e).chans[p], e)
  {
    hide Post, Accepts;
    NothingAccepted(s.chans[p], e);
    if e.target in s.threads && Fits(e.m) && Target(s, e.target, e.handle) != null {
      PostAccepts(s, Target(s, e.target, e.handle), KernelPosted(e.m), p, e);
    }
  }

  lemma NothingAccepted(c: Chan, e: Event)
    ensures Accepts(c, c, e)
  {}

  lemma StepAccepts(s: Machine, e: Event, p: Port)
    requires Shaped(s) && p in s.chans
    ensures p in Step(s, e).chans && Accepts(s.chans[p], Step(s, e).chans[p], e)
  {
    if e.Send? {
      SendAccepts(s, e, p);
    } else if e.KernelSend? {
      KernelSendAccepts(s, e, p);
    } else {
      hide Shaped, FirstFree;
    }
  }

  lemma {:induction false} RunOrder(s: Machine, es: seq<Event>, p: Port)
    requires Inv(s) && p in s.chans
    ensures History(s, Run(s, es), p) && InOrder(es, Run(s, es).chans[p].sent[|s.chans[p].sent|..])
    decreases |es|
  {
    RunHistory(s, es, p);
    if es != [] {
      StepHistory(s, es[0], p);
      StepAccepts(s, es[0], p);
      hide Step, Inv;
      var s1 := Step(s, es[0]);
      RunOrder(s1, es[1..], p);
      Joined(es, s.chans[p], s1.chans[p], Run(s1, es[1..]).chans[p]);
    }
  }

  /** The messages of the first event and of the rest. */
  lemma Joined(es: seq<Event>, a: Chan, b: Chan, c: Chan)
    requires es != [] && Accepts(a, b, es[0]) && b.sent <= c.sent && InOrder(es[1..], c.sent[|b.sent|..])
    ensures a.sent <= c.sent && InOrder(es, c.sent[|a.sent|..])
  {
    var ms := c.sent[|a.sent|..];
    if b.sent != a.sent {
      assert b.sent[|a.sent|] == c.sent[|a.sent|] == ms[0];
      assert ms[1..] == c.sent[|b.sent|..];
    }
  }

  /** No run forgets or reorders an accepted message: the history only grows, and each
      port holds exactly the messages sent and not yet received, oldest first.  The messages
      accepted are those the events sent, in that order, and each conveys what was sent byte by
      byte.  Every message carries a kernel stamp, a reply handle still names the sender's
      object, and the owner never sleeps over a message. */
  lemma RunInv(s: Machine, es: seq<Event>, p: Port)
    requires Inv(s) && p in s.chans
    ensures History(s, Run(s, es), p) && PortOk(Run(s, es), p)
    ensures InOrder(es, Run(s, es).chans[p].sent[|s.chans[p].sent|..])
  {
    RunOrder(s, es, p);
    hide Step, PortOk, Run, InOrder;
  }

  /** A thread that receives on a port of its process can be left asleep over a message
      exactly when it is not the port's owner: a send wakes the owner only. */
  lemma LostExactly(s: Machine, t: Receiver, handle: int, m: Message)
    requires Inv(s) && s.current == t && s.threads[t] == Thr(Running, User) && Fits(m)
    requires var p := Target(s, t, handle); p != null && p.owner.process == t.process && s.chans[p].queue == []
    ensures (forall es :: !Lost(Run(s, es), t, Target(s, t, handle))) <==> t == Target(s, t, handle).owner
  {
    var p := Target(s, t, handle);
    if t == p.owner {
      forall es ensures !Lost(Run(s, es), t, p) { RunInv(s, es, p); }
    } else {
      LostRun(s, t, handle, m);
    }
  }

  lemma LostRun(s: Machine, t: Receiver, handle: int, m: Message)
    requires Inv(s) && s.current == t && s.threads[t] == Thr(Running, User) && Fits(m)
    requires var p := Target(s, t, handle);
             p != null && p.owner.process == t.process && s.chans[p].queue == [] && p.owner != t
    ensures var p := Target(s, t, handle);
            Lost(Run(s, [Receive(handle, true), KernelSend(p.owner, handle, m)]), t, p)
  {
    var p := Target(s, t, handle);
    var e1, e2 := Receive(handle, true), KernelSend(p.owner, handle, m);
    StepInv(s, e1);
    var s1 := Step(s, e1);
    assert s1 == s.(threads := s.threads[t := Thr(Blocked, Receiving(p))]);
    StepInv(s1, e2);
    hide Inv;
    var s2 := Step(s1, e2);
    assert Target(s1, p.owner, handle) == p;
    assert Lost(s2, t, p);
    assert Run(s, [e1, e2]) == s2 by {
      assert [e1, e2][1..] == [e2];
      assert [e2][1..] == [];
      assert Run(s2, []) == s2;
      assert Run(s1, [e2]) == Run(s2, []);
    }
  }
}
