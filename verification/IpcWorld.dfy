/** The message code of Ipc run as a system: every call on real ports, threads and handle
    tables is one step of the machine of IpcRuns, so its laws hold of the code. */
module IpcWorld {
  import opened Ports
  import RoundRobin
  import Bits
  import opened Ipc
  import opened IpcRuns
  import opened Wrappers

  // ---------------------------------------------------------------------
  // Views: the parts of a system, one map for each kind of field
  // ---------------------------------------------------------------------

  datatype View = View(queues: map<Port, seq<Delivered>>, sent: map<Port, seq<Posted>>, taken: map<Port, nat>,
                       states: map<Receiver, RoundRobin.State>, pcs: map<Receiver, Pc>,
                       tables: map<HandleTable, seq<Object?>>, current: Receiver, closed: set<(HandleTable, int)>)

  predicate Keyed(v: View)
  {
    v.sent.Keys == v.queues.Keys && v.taken.Keys == v.queues.Keys && v.pcs.Keys == v.states.Keys
  }

  function Chans(queues: map<Port, seq<Delivered>>, sent: map<Port, seq<Posted>>, taken: map<Port, nat>)
    : (m: map<Port, Chan>)
    requires sent.Keys == queues.Keys && taken.Keys == queues.Keys
    ensures m.Keys == queues.Keys
  {
    map p | p in queues :: Chan(queues[p], sent[p], taken[p])
  }

  function Threads(states: map<Receiver, RoundRobin.State>, pcs: map<Receiver, Pc>): (m: map<Receiver, Thr>)
    requires pcs.Keys == states.Keys
    ensures m.Keys == states.Keys
  {
    map t | t in states :: Thr(states[t], pcs[t])
  }

  lemma ChansUpdate(queues: map<Port, seq<Delivered>>, sent: map<Port, seq<Posted>>, taken: map<Port, nat>, p: Port,
                    c: Chan)
    requires sent.Keys == queues.Keys && taken.Keys == queues.Keys && p in queues
    ensures Chans(queues[p := c.queue], sent[p := c.sent], taken[p := c.taken]) == Chans(queues, sent, taken)[p := c]
    ensures queues[p := c.queue].Keys == queues.Keys && sent[p := c.sent].Keys == queues.Keys &&
            taken[p := c.taken].Keys == queues.Keys
    ensures sent[p := sent[p]] == sent && taken[p := taken[p]] == taken
  {}

  lemma ThreadsUpdate(states: map<Receiver, RoundRobin.State>, pcs: map<Receiver, Pc>, t: Receiver, th: Thr)
    requires pcs.Keys == states.Keys && t in states
    ensures Threads(states[t := th.st], pcs[t := th.pc]) == Threads(states, pcs)[t := th]
    ensures states[t := th.st].Keys == states.Keys && pcs[t := th.pc].Keys == states.Keys
    ensures states[t := states[t]] == states && pcs[t := pcs[t]] == pcs
  {}

  /** The machine state a view shows. */
  function Shown(v: View): Machine
    requires Keyed(v)
  {
    Machine(Chans(v.queues, v.sent, v.taken), Threads(v.states, v.pcs), v.tables, v.current, v.closed)
  }

  function PostView(v: View, p: Port, m: Posted): View
    requires Keyed(v) && p in v.queues && p.owner in v.states
  {
    v.(queues := v.queues[p := v.queues[p] + [m.msg]], sent := v.sent[p := v.sent[p] + [m]],
       states := v.states[p.owner := Woken(v.states[p.owner])])
  }

  lemma PostShown(v: View, p: Port, m: Posted)
    requires Keyed(v) && Shaped(Shown(v)) && p in v.queues
    ensures p.owner in v.states && Keyed(PostView(v, p, m)) && Post(Shown(v), p, m) == Shown(PostView(v, p, m))
  {
    assert p in Shown(v).chans && p.owner in Shown(v).threads;
    hide Shaped;
    var c := Shown(v).chans[p];
    ChansUpdate(v.queues, v.sent, v.taken, p, c.(queue := c.queue + [m.msg], sent := c.sent + [m]));
    ThreadsUpdate(v.states, v.pcs, p.owner, Thr(Woken(v.states[p.owner]), v.pcs[p.owner]));
  }

  lemma TableShown(v: View, h: HandleTable, t: seq<Object?>)
    requires Keyed(v)
    ensures Shown(v).(tables := Shown(v).tables[h := t]) == Shown(v.(tables := v.tables[h := t]))
  {}

  function BlockView(v: View, p: Port): View
  {
    v.(states := v.states[v.current := RoundRobin.Blocked], pcs := v.pcs[v.current := Receiving(p)])
  }

  lemma BlockShown(v: View, p: Port)
    requires Keyed(v) && Shaped(Shown(v)) && p in v.queues && v.queues[p] == []
    ensures Keyed(BlockView(v, p)) && Take(Shown(v), p) == Shown(BlockView(v, p))
  {
    assert v.current in Shown(v).threads;
    hide Shaped;
    ThreadsUpdate(v.states, v.pcs, v.current, Thr(RoundRobin.Blocked, Receiving(p)));
  }

  function PopView(v: View, p: Port): View
    requires Keyed(v) && p in v.queues && v.queues[p] != []
  {
    v.(queues := v.queues[p := v.queues[p][1..]], taken := v.taken[p := v.taken[p] + 1],
      pcs := v.pcs[v.current := User])
  }

  lemma PopChans(v: View, p: Port)
    requires Keyed(v) && p in v.queues && v.queues[p] != []
    ensures var v' := PopView(v, p);
            && v'.tables == v.tables && v'.current == v.current && v'.closed == v.closed
            && v'.queues.Keys == v.queues.Keys && v'.taken.Keys == v.queues.Keys && v'.sent.Keys == v.queues.Keys
            && Chans(v'.queues, v'.sent, v'.taken) ==
               Chans(v.queues, v.sent, v.taken)[p := Chan(v.queues[p][1..], v.sent[p], v.taken[p] + 1)]
  {
    hide Chans;
    ChansUpdate(v.queues, v.sent, v.taken, p, Chan(v.queues[p][1..], v.sent[p], v.taken[p] + 1));
  }

  lemma PopThreads(v: View, p: Port)
    requires Keyed(v) && p in v.queues && v.queues[p] != [] && v.current in v.states
    ensures var v' := PopView(v, p);
            && v'.pcs.Keys == v.states.Keys && v'.states.Keys == v.states.Keys
            && Threads(v'.states, v'.pcs) == Threads(v.states, v.pcs)[v.current := Thr(v.states[v.current], User)]
  {
    hide Threads;
    ThreadsUpdate(v.states, v.pcs, v.current, Thr(v.states[v.current], User));
  }

  lemma TakeFirst(s: Machine, p: Port)
    requires Shaped(s) && p in s.chans && s.chans[p].queue != []
    ensures var c := s.chans[p];
            Take(s, p) == Machine(s.chans[p := Chan(c.queue[1..], c.sent, c.taken + 1)],
                                  s.threads[s.current := Thr(s.threads[s.current].st, User)], s.tables, s.current,
                                    s.closed)
  {
    hide Shaped;
  }

  lemma PopShown(v: View, p: Port)
    requires Keyed(v) && Shaped(Shown(v)) && p in v.queues && v.queues[p] != []
    ensures Keyed(PopView(v, p)) && Take(Shown(v), p) == Shown(PopView(v, p))
  {
    assert v.current in Shown(v).threads && p in Shown(v).chans;
    assert Shown(v).chans[p] == Chan(v.queues[p], v.sent[p], v.taken[p]);
    assert Shown(v).threads[v.current].st == v.states[v.current];
    hide Shaped, Chans, Threads, Take, PopView;
    TakeFirst(Shown(v), p);
    PopChans(v, p);
    PopThreads(v, p);
  }

  lemma StateShown(v: View, t: Receiver, st: RoundRobin.State)
    requires Keyed(v) && t in v.states
    ensures SetState(Shown(v), t, st) == Shown(v.(states := v.states[t := st]))
  {
    ThreadsUpdate(v.states, v.pcs, t, Thr(st, v.pcs[t]));
  }

  predicate FullIn(v: View, p: Port?) { p != null && p in v.queues && |v.queues[p]| >= 12 }

  predicate CanSend(v: View, p: Port)
  {
    && Keyed(v) && p in v.queues && p.owner != null && p.owner in v.states
    && TableOf(v.current) in v.tables && TableOf(p.owner) in v.tables
    && |v.tables[TableOf(v.current)]| == 32 && |v.tables[TableOf(p.owner)]| == 32
  }

  /** What an accepted send by the current thread changes. */
  function SentView(v: View, p: Port, m: Message): (v': View)
    requires CanSend(v, p) && Fits(m)
    ensures Keyed(v')
  {
    var mine, theirs, h := v.tables[TableOf(v.current)], v.tables[TableOf(p.owner)], m.header.replyHandle;
    v.(queues := v.queues[p := v.queues[p] +
      [Body(Stamped(m, v.current.process.pid, DeliveredReply(mine, theirs, h)))]],
       states := v.states[p.owner := Woken(v.states[p.owner])],
       tables := v.tables[TableOf(p.owner) := DeliveredTable(mine, theirs, h)])
  }

  lemma ShapedSend(v: View, p: Port)
    requires Keyed(v) && Shaped(Shown(v)) && p in v.queues
    ensures CanSend(v, p)
  {
    var s := Shown(v);
    assert p in s.chans && p.owner in s.threads && s.current in s.threads;
    assert TableShaped(s, s.tables[TableOf(v.current)]) && TableShaped(s, s.tables[TableOf(p.owner)]);
  }

  /** A message as the history records it. */
  function PostedBy(v: View, p: Port, m: Message): Posted
    requires CanSend(v, p) && Fits(m)
  {
    var mine, theirs, h := v.tables[TableOf(v.current)], v.tables[TableOf(p.owner)], m.header.replyHandle;
    var obj := if 0 <= h < 32 && mine[h] != null && mine[h].isPort then mine[h] else null;
    Posted(Body(Stamped(m, v.current.process.pid, DeliveredReply(mine, theirs, h))), m, false, obj)
  }

  function Recorded(v: View, p: Port, m: Posted): (v': View)
    requires Keyed(v) && p in v.queues
    ensures Keyed(v')
  {
    v.(sent := v.sent[p := v.sent[p] + [m]])
  }

  /** With the history brought up to date, the new state is the machine's. */
  lemma SendShown(v: View, p: Port, m: Message)
    requires Keyed(v) && Shaped(Shown(v)) && p in v.queues && Fits(m) && CanSend(v, p)
    ensures UserSend(Shown(v), p, m) == Shown(Recorded(SentView(v, p, m), p, PostedBy(v, p, m)))
  {
    var table, posted := UserTable(Shown(v), p, m), UserPosted(Shown(v), p, m);
    TablesStay(Shown(v), p, m);
    TableShown(v, TableOf(p.owner), table);
    var v1 := v.(tables := v.tables[TableOf(p.owner) := table]);
    PostShown(v1, p, posted);
    hide Shaped, Post, Chans, Threads, DeliveredReply, DeliveredTable;
    assert PostView(v1, p, posted) == Recorded(SentView(v, p, m), p, PostedBy(v, p, m));
  }

  /** The machine's send, by the status the code returns. */
  lemma SendStep(v: View, handle: int, m: Message, size: nat, copyOk: bool, st: Status)
    requires Keyed(v) && Shaped(Shown(v)) && v.current in v.states && WellFormed(m)
    requires v.states[v.current] == RoundRobin.Running && v.pcs[v.current] == User
    requires var p := Target(Shown(v), v.current, handle);
             st == SendStatus(size, handle, p, FullIn(v, p), copyOk, m.header.payloadLength)
    ensures var s, p := Shown(v), Target(Shown(v), v.current, handle);
            if st == Ok then
              && p != null && Fits(m) && CanSend(v, p)
              && Step(s, Send(handle, m, size, copyOk)) == Shown(Recorded(SentView(v, p, m), p, PostedBy(v, p, m)))
            else Step(s, Send(handle, m, size, copyOk)) == s
  {
    var p := Target(Shown(v), v.current, handle);
    assert Shown(v).threads[v.current] == Thr(RoundRobin.Running, User);
    if st == Ok {
      ShapedSend(v, p);
      SendShown(v, p, m);
    }
  }

  /** What an accepted kernel message changes. */
  function KernelView(v: View, p: Port, m: Message): (v': View)
    requires CanSend(v, p) && Fits(m)
    ensures Keyed(v')
  {
    v.(queues := v.queues[p := v.queues[p] + [Body(Stamped(m, KERNEL_SENDER, -1))]],
       states := v.states[p.owner := Woken(v.states[p.owner])])
  }

  function StateView(v: View, t: Receiver, st: RoundRobin.State): (v': View)
    requires Keyed(v) && t in v.states
    ensures Keyed(v')
  {
    v.(states := v.states[t := st])
  }

  /** The machine's kernel message: the subscribed thread is woken too. */
  lemma KernelStep(v: View, t: Receiver, handle: int, m: Message)
    requires Keyed(v) && Shaped(Shown(v)) && t in v.states
    ensures var s, p := Shown(v), Target(Shown(v), t, handle);
            if p != null && Fits(m) && |s.chans[p].queue| < 12 then
              && CanSend(v, p)
              && var v' := Recorded(KernelView(v, p, m), p, KernelPosted(m));
                 t in v'.states && Step(s, KernelSend(t, handle, m)) == Shown(StateView(v', t, Woken(v'.states[t])))
            else Step(s, KernelSend(t, handle, m)) == s
  {
    var s, p := Shown(v), Target(Shown(v), t, handle);
    if p != null && Fits(m) && |s.chans[p].queue| < 12 {
      ShapedSend(v, p);
      var posted := KernelPosted(m);
      PostShown(v, p, posted);
      hide Shaped, Post, Chans, Threads;
      var v' := Recorded(KernelView(v, p, m), p, posted);
      assert PostView(v, p, posted) == v';
      StateShown(v', t, Woken(v'.states[t]));
    }
  }

  /** One pass of the receive loop as the code makes it, before the thread's place in it
      and the history are brought up to date. */
  function ReceiveView(v: View, p: Port): (v': View)
    requires Keyed(v) && p in v.queues && v.current in v.states
    ensures Keyed(v')
  {
    if v.queues[p] == [] then v.(states := v.states[v.current := RoundRobin.Blocked])
    else v.(queues := v.queues[p := v.queues[p][1..]])
  }

  /** Where the current thread resumes, and how many messages of `p` have been taken. */
  function MovedOn(v: View, p: Port, empty: bool): (v': View)
    requires Keyed(v) && p in v.queues && v.current in v.states
    ensures Keyed(v')
  {
    if empty then v.(pcs := v.pcs[v.current := Receiving(p)])
    else v.(pcs := v.pcs[v.current := User], taken := v.taken[p := v.taken[p] + 1])
  }

  lemma TakeShown(v: View, p: Port)
    requires Keyed(v) && Shaped(Shown(v)) && p in v.queues && v.current in v.states
    ensures Take(Shown(v), p) == Shown(MovedOn(ReceiveView(v, p), p, v.queues[p] == []))
  {
    hide Shaped, Take, Shown;
    if v.queues[p] == [] {
      BlockShown(v, p);
      assert BlockView(v, p) == MovedOn(ReceiveView(v, p), p, true);
    } else {
      PopShown(v, p);
      assert PopView(v, p) == MovedOn(ReceiveView(v, p), p, false);
    }
  }

  /** The machine's receive by the current thread. */
  lemma ReceiveStep(v: View, handle: int, copyOk: bool)
    requires Keyed(v) && Shaped(Shown(v)) && v.current in v.states
    requires v.states[v.current] == RoundRobin.Running && v.pcs[v.current] == User
    ensures var s, p := Shown(v), Target(Shown(v), v.current, handle);
            if p != null && p.owner.process == v.current.process then
              p in v.queues && Step(s, Receive(handle, copyOk)) ==
                Shown(MovedOn(ReceiveView(v, p), p, v.queues[p] == []))
            else Step(s, Receive(handle, copyOk)) == s
  {
    var s, p := Shown(v), Target(Shown(v), v.current, handle);
    assert s.threads[v.current] == Thr(RoundRobin.Running, User);
    if p != null { assert p in s.chans; TakeShown(v, p); }
    hide Take, MovedOn, ReceiveView;
  }

  lemma ResumeStep(v: View, copyOk: bool)
    requires Keyed(v) && Shaped(Shown(v)) && v.current in v.states
    ensures var s, pc := Shown(v), v.pcs[v.current];
            if v.states[v.current] == RoundRobin.Running && pc.Receiving? && pc.port in v.queues then
              Step(s, Resume(copyOk)) == Shown(MovedOn(ReceiveView(v, pc.port), pc.port, v.queues[pc.port] == []))
            else Step(s, Resume(copyOk)) == s
  {
    var s, pc := Shown(v), v.pcs[v.current];
    assert s.threads[v.current] == Thr(v.states[v.current], pc);
    if pc.Receiving? && pc.port in v.queues { TakeShown(v, pc.port); }
    hide Take, MovedOn, ReceiveView;
  }

  /** A receiver of port `p` gets the oldest accepted message not yet taken, and so what its
      sender put in. */
  predicate Got(s: Machine, p: Port?, out: Option<Delivered>)
  {
    && p != null && p in s.chans && s.chans[p].taken < |s.chans[p].sent|
    && var m := s.chans[p].sent[s.chans[p].taken];
       out == Some(m.msg) && Conveys(m.msg, m.source)
  }

  lemma PortLaws(s: Machine, p: Port)
    requires Inv(s) && p in s.chans
    ensures Shaped(s) && |s.chans[p].queue| == |s.chans[p].sent| - s.chans[p].taken <= 12
    ensures forall i :: 0 <= i < |s.chans[p].queue| ==> s.chans[p].queue[i] == s.chans[p].sent[s.chans[p].taken + i].msg
    ensures forall i :: 0 <= i < |s.chans[p].sent| ==> PostedOk(s.chans[p].sent[i])
    ensures forall i :: 0 <= i < |s.chans[p].sent| ==> Conveys(s.chans[p].sent[i].msg, s.chans[p].sent[i].source)
    ensures forall i :: 0 <= i < |s.chans[p].sent| ==>
              ReplyOk(TableOf(p.owner), s.tables[TableOf(p.owner)], s.closed, s.chans[p].sent[i])
    ensures !Lost(s, p.owner, p)
  {
    assert PortOk(s, p);
    hide Inv, ReplyOk, Lost, Conveys;
  }

  /** The front of a queue is the oldest accepted message not yet taken. */
  lemma Oldest(s: Machine, p: Port)
    requires Inv(s) && p in s.chans && s.chans[p].queue != []
    ensures Got(s, p, Some(s.chans[p].queue[0]))
  {
    assert PortOk(s, p);
    hide Inv, Conveys;
  }

  lemma WakeStep(v: View, t: Receiver)
    requires Keyed(v) && Shaped(Shown(v)) && t in v.states
    ensures Step(Shown(v), Wake(t)) == Shown(StateView(v, t, Woken(v.states[t])))
    ensures Step(Shown(v), Kill(t)) == Shown(StateView(v, t, RoundRobin.Terminated))
  {
    StateShown(v, t, Woken(v.states[t]));
    StateShown(v, t, RoundRobin.Terminated);
    assert Shown(v).threads[t] == Thr(v.states[t], v.pcs[t]);
    hide Shaped, SetState;
  }

  /** The current thread after a switch, if any. */
  function SwitchView(v: View, t: Receiver): (v': View)
    requires Keyed(v) && t in v.states && v.current in v.states
    ensures Keyed(v')
  {
    if v.states[t] != RoundRobin.Ready then v
    else
      var v1 := if v.states[v.current] == RoundRobin.Running then StateView(v, v.current, RoundRobin.Ready) else v;
      StateView(v1, t, RoundRobin.Running).(current := t)
  }

  lemma SwitchStep(v: View, t: Receiver)
    requires Keyed(v) && Shaped(Shown(v)) && t in v.states && v.current in v.states
    ensures Step(Shown(v), Switch(t)) == Shown(SwitchView(v, t))
  {
    var v1 := if v.states[v.current] == RoundRobin.Running then StateView(v, v.current, RoundRobin.Ready) else v;
    StateShown(v, v.current, RoundRobin.Ready);
    StateShown(v1, t, RoundRobin.Running);
    assert Shown(v).threads[t].st == v.states[t] && Shown(v).threads[v.current].st == v.states[v.current];
    hide Shaped, SetState, Chans, Threads;
  }

  function TableView(v: View, h: HandleTable, t: seq<Object?>, closed: set<(HandleTable, int)>): (v': View)
    requires Keyed(v)
    ensures Keyed(v')
  {
    v.(tables := v.tables[h := t], closed := closed)
  }

  lemma OpenStep(v: View, t: Receiver, obj: Object)
    requires Keyed(v) && Shaped(Shown(v)) && t in v.states
    ensures TableOf(t) in v.tables && |v.tables[TableOf(t)]| == 32
    ensures var h := TableOf(t); var free := FirstFree(v.tables[h]);
            Step(Shown(v), Open(t, obj)) ==
            if ObjectKnown(v.queues.Keys, obj) && free < 32
            then Shown(TableView(v, h, v.tables[h][free := obj], v.closed)) else Shown(v)
  {
    assert t in Shown(v).threads;
    assert TableShaped(Shown(v), v.tables[TableOf(t)]);
    hide Shaped, FirstFree;
  }

  lemma CloseStep(v: View, t: Receiver, i: int)
    requires Keyed(v) && Shaped(Shown(v)) && t in v.states
    ensures TableOf(t) in v.tables && |v.tables[TableOf(t)]| == 32
    ensures var h := TableOf(t);
            Step(Shown(v), Close(t, i)) ==
            if 0 <= i < 32 then Shown(TableView(v, h, v.tables[h][i := null], v.closed + {(h, i)})) else Shown(v)
  {
    assert t in Shown(v).threads;
    assert TableShaped(Shown(v), v.tables[TableOf(t)]);
    hide Shaped, FirstFree;
  }

  // ---------------------------------------------------------------------
  // The system
  // ---------------------------------------------------------------------

  /** No two ports share a message ring and no two tables an object list. */
  ghost predicate Apart(ports: set<Port>, tables: set<HandleTable>)
  {
    && (forall p, q :: p in ports && q in ports && p != q ==> p.msgbuf != q.msgbuf)
    && (forall h, g :: h in tables && g in tables && h != g ==> h.objlist != g.objlist)
  }

  /** The message rings and object lists of a system. */
  ghost function Arrays(ports: set<Port>, tables: set<HandleTable>): set<object>
  {
    (set p | p in ports :: p.msgbuf) + (set h | h in tables :: h.objlist)
  }

  /** A system in which no message has been sent: every pointer stays inside it. */
  ghost predicate Idle(ports: set<Port>, threads: set<Receiver>, tables: set<HandleTable>)
    reads ports, tables, Arrays(ports, tables)
  {
    && Apart(ports, tables)
    && (forall p :: p in ports ==> p.Valid() && p.count == 0 && p.owner != null && p.owner in threads)
    && (forall t :: t in threads ==> TableOf(t) in tables && t.process.pid > 0)
    && (forall h :: h in tables ==> h.Valid() && forall i :: 0 <= i < 32 ==> ObjectKnown(ports, h.objlist[i]))
  }

  lemma IdleInv(s: Machine)
    requires Shaped(s) && forall p :: p in s.chans ==> s.chans[p] == Chan([], [], 0)
    ensures Inv(s)
  {
    forall p | p in s.chans ensures PortOk(s, p) { hide Shaped; }
  }

  lemma InvShaped(s: Machine)
    requires Inv(s)
    ensures Shaped(s)
  {}

  class World {
    const ports: set<Port>
    const threads: set<Receiver>
    const tables: set<HandleTable>
    var current: Receiver
    var pcs: map<Receiver, Pc>

    ghost var sent: map<Port, seq<Posted>>
    ghost var taken: map<Port, nat>
    ghost var closed: set<(HandleTable, int)>

    /** Everything a step may read or write. */
    ghost function Repr(): set<object>
    {
      {this} + ports + threads + tables + Arrays(ports, tables)
    }

    ghost predicate PortsOk()
      reads ports, Arrays(ports, tables)
    {
      forall p :: p in ports ==> p.Valid()
    }

    ghost predicate TablesOk()
      reads tables, Arrays(ports, tables)
    {
      forall h :: h in tables ==> h.Valid()
    }

    ghost predicate Parts()
      reads Repr()
    {
      Apart(ports, tables) && pcs.Keys == threads && sent.Keys == ports && taken.Keys == ports && PortsOk() &&
        TablesOk()
    }

    ghost function Queues(): (m: map<Port, seq<Delivered>>)
      requires PortsOk()
      reads ports, Arrays(ports, tables)
      ensures m.Keys == ports
    {
      map p | p in ports :: p.Queue()
    }

    ghost function States(): (m: map<Receiver, RoundRobin.State>)
      reads threads
      ensures m.Keys == threads
    {
      map t | t in threads :: t.state
    }

    ghost function Tables(): (m: map<HandleTable, seq<Object?>>)
      reads tables, Arrays(ports, tables)
      ensures m.Keys == tables
    {
      map h | h in tables :: h.objlist[..]
    }

    ghost function See(): (v: View)
      requires Parts()
      reads Repr()
      ensures Keyed(v)
    {
      View(Queues(), sent, taken, States(), pcs, Tables(), current, closed)
    }

    /** The machine state this system is in. */
    ghost function Abs(): (s: Machine)
      requires Parts()
      reads Repr()
    {
      Shown(See())
    }

    ghost predicate Valid()
      reads Repr()
    {
      Parts() && Inv(Abs())
    }

    constructor (ports: set<Port>, threads: set<Receiver>, tables: set<HandleTable>, current: Receiver)
      requires Idle(ports, threads, tables) && current in threads
      ensures Valid() && this.ports == ports && this.threads == threads && this.tables == tables &&
              this.current == current
    {
      this.ports, this.threads, this.tables, this.current := ports, threads, tables, current;
      pcs := map t | t in threads :: User;
      sent := map p | p in ports :: [];
      taken := map p | p in ports :: 0;
      closed := {};
      new;
      hide Ring, Contents, Inv, Shaped, Bits.Bit, Shown;
      StartShaped();
      IdleInv(Abs());
    }

    lemma StartShaped()
      requires Idle(ports, threads, tables) && current in threads && Parts()
      requires forall p :: p in ports ==> sent[p] == [] && taken[p] == 0
      ensures Shaped(Abs()) && forall p :: p in Abs().chans ==> Abs().chans[p] == Chan([], [], 0)
    {
      var s := Abs();
      assert s.chans.Keys == ports;
      forall h | h in s.tables ensures TableShaped(s, s.tables[h]) {
        assert s.tables[h] == h.objlist[..];
      }
      forall p | p in s.chans ensures s.chans[p] == Chan([], [], 0) {
        assert p.Queue() == [];
      }
    }

    /** What Valid() gives the caller of a message call. */
    lemma Ready(t: Receiver, handle: int)
      requires Valid() && t in threads
      ensures TableOf(t) in tables && TableOf(t).Valid() && TableOf(t).objlist.Length == 32
      ensures Shaped(Abs()) && Abs().tables[TableOf(t)] == TableOf(t).objlist[..]
      ensures 0 <= handle < 32 && TableOf(t).objlist[handle] != null && TableOf(t).objlist[handle].port != null ==>
                var p := TableOf(t).objlist[handle].port;
                p in ports && p.Valid() && p.owner != null && p.owner in threads && TableOf(p.owner) in tables &&
                  TableOf(p.owner).Valid()
      ensures Target(Abs(), t, handle) == Endpoint(TableOf(t).objlist[..], handle)
    {
      var s := Abs();
      hide Inv;
      InvShaped(s);
      var h := TableOf(t);
      assert TableShaped(s, s.tables[h]);
      if 0 <= handle < 32 && h.objlist[handle] != null && h.objlist[handle].port != null {
        assert ObjectKnown(s.chans.Keys, s.tables[h][handle]);
      }
    }

    // What a step leaves alone: it touches at most one port, one thread and one table.

    twostate predicate OtherPorts(p: Port?)
      reads ports, Arrays(ports, tables)
    {
      forall q :: q in ports && q != p ==> unchanged(q) && unchanged(q.msgbuf)
    }

    twostate predicate OtherThreads(t: Receiver?)
      reads threads
    {
      forall u :: u in threads && u != t ==> unchanged(u)
    }

    twostate predicate OtherTables(h: HandleTable?)
      reads tables, Arrays(ports, tables)
    {
      forall g :: g in tables && g != h ==> unchanged(g) && unchanged(g.objlist)
    }

    twostate lemma PortsKept(p: Port?)
      requires old(PortsOk()) && OtherPorts(p) && (p != null ==> p.Valid())
      ensures PortsOk()
      ensures Queues() == if p != null && p in ports then old(Queues())[p := p.Queue()] else old(Queues())
      ensures p != null && p in ports && p.Queue() == old(p.Queue()) ==> Queues() == old(Queues())
    {
      hide Ring, Contents;
      forall q | q in ports && q != p ensures q.Valid() && q.Queue() == old(q.Queue()) {}
    }

    twostate lemma ThreadsKept(t: Receiver?)
      requires OtherThreads(t)
      ensures States() == if t != null && t in threads then old(States())[t := t.state] else old(States())
      ensures t != null && t in threads && t.state == old(t.state) ==> States() == old(States())
    {}

    twostate lemma TablesKept(h: HandleTable?)
      requires old(TablesOk()) && OtherTables(h) && (h != null ==> h.Valid())
      ensures TablesOk()
      ensures Tables() == if h != null && h in tables then old(Tables())[h := h.objlist[..]] else old(Tables())
      ensures h != null && h in tables && h.objlist[..] == old(h.objlist[..]) ==> Tables() == old(Tables())
    {
      hide Bits.Bit;
      forall g | g in tables && g != h ensures g.Valid() && g.objlist[..] == old(g.objlist[..]) {}
    }

    /** A step inside this object leaves every other one alone. */
    twostate lemma Untouched()
      requires old(PortsOk()) && old(TablesOk()) && OtherPorts(null) && OtherThreads(null) && OtherTables(null)
      ensures PortsOk() && TablesOk() && Queues() == old(Queues()) && States() == old(States()) &&
              Tables() == old(Tables())
    {
      hide Queues, States, Tables, PortsOk, TablesOk;
      PortsKept(null);
      ThreadsKept(null);
      TablesKept(null);
    }

    /** What the view shows of one port, its owner and two tables. */
    lemma SeenAt(p: Port)
      requires Parts() && CanSend(See(), p)
      ensures p in ports && p.Valid() && TableOf(p.owner).Valid() && TableOf(current).Valid()
      ensures See().queues[p] == p.Queue() && See().states[p.owner] == p.owner.state
      ensures See().tables[TableOf(p.owner)] == TableOf(p.owner).objlist[..]
      ensures See().tables[TableOf(current)] == TableOf(current).objlist[..]
    {
      hide Ring, Contents, Bits.Bit;
    }

    lemma TableAt(h: HandleTable)
      requires Parts() && h in tables
      ensures h.Valid()
    {}

    /** A send changes one queue, one thread state and one table, or nothing. */
    method SendFrame(handle: int, m: Message, size: nat, copyOk: bool, ghost p: Port?) returns (st: Status)
      requires Parts() && WellFormed(m) && TableOf(current) in tables
      requires p == Endpoint(TableOf(current).objlist[..], handle) && (p != null ==> CanSend(See(), p))
      modifies Footprint(p)
      ensures Parts()
      ensures st == SendStatus(size, handle, p, FullIn(old(See()), p), copyOk, m.header.payloadLength)
      ensures See() == if st == Ok then SentView(old(See()), p, m) else old(See())
    {
      hide Ring, Contents, DeliveredReply, DeliveredTable, Bits.Bit, Queues, States, Tables, PortsOk, TablesOk, Arrived;
      TableAt(TableOf(current));
      if p != null { SeenAt(p); }
      ghost var owner := if p == null then null else p.owner;
      ghost var table := if p == null then null else TableOf(p.owner);
      st := Ipc.Send(current.process, handle, m, size, copyOk);
      assert OtherPorts(p) && OtherTables(table) && OtherThreads(owner);
      PortsKept(p);
      ThreadsKept(owner);
      TablesKept(table);
    }

    ghost method Record(p: Port, m: Posted)
      requires Parts() && p in ports
      modifies this`sent
      ensures Parts() && See() == Recorded(old(See()), p, m)
    {
      hide Queues, States, Tables, PortsOk, TablesOk;
      sent := sent[p := sent[p] + [m]];
      Untouched();
    }

    /** _DWIPCSend by the current thread. */
    method Send(handle: int, m: Message, size: nat, copyOk: bool)
      requires Valid() && WellFormed(m)
      modifies Repr()
      ensures Valid() && Abs() == Step(old(Abs()), IpcRuns.Send(handle, m, size, copyOk))
    {
      hide Inv, Shaped, Parts, Shown, See, SentView, PostedBy, Recorded, Step, SendStatus, CanSend;
      ghost var s, v := Abs(), See();
      StepInv(s, IpcRuns.Send(handle, m, size, copyOk));
      InThreads(current);
      Names(current, handle);
      ghost var p := Endpoint(TableOf(current).objlist[..], handle);
      if current.state == RoundRobin.Running && pcs[current] == User {
        var st := SendFrame(handle, m, size, copyOk, p);
        SendStep(v, handle, m, size, copyOk, st);
        if st == Ok {
          Record(p, PostedBy(v, p, m));
        }
      } else {
        Outside(s, IpcRuns.Send(handle, m, size, copyOk));
      }
    }

    /** The kernel's SendMessage to a port of `t`'s process. */
    method KernelFrame(t: Receiver, handle: int, m: Message, ghost p: Port?) returns (st: Status)
      requires Parts() && WellFormed(m) && TableOf(t) in tables && TableOf(t).objlist.Length == 32
      requires 0 <= handle < 32 ==> TableOf(t).objlist[handle] != null
      requires 0 <= handle < 32 && TableOf(t).objlist[handle].port != null ==>
               TableOf(t).objlist[handle].port.owner != null
      requires p == Endpoint(TableOf(t).objlist[..], handle) && (p != null ==> CanSend(See(), p))
      modifies QueueFootprint(p)
      ensures Parts()
      ensures st == Ok <==> p != null && Fits(m) && |old(See()).queues[p]| < 12
      ensures See() == if st == Ok then KernelView(old(See()), p, m) else old(See())
    {
      hide Ring, Contents, Bits.Bit, Queues, States, Tables, Arrived;
      if p != null { SeenAt(p); }
      ghost var owner := if p == null then null else p.owner;
      st := SendMessage(t.process, handle, m);
      assert OtherPorts(p) && OtherTables(null) && OtherThreads(owner);
      PortsKept(p);
      ThreadsKept(owner);
      TablesKept(null);
    }

    /** WakeThread. */
    method WakeFrame(t: Receiver)
      requires Parts() && t in threads
      modifies t
      ensures Parts() && See() == StateView(old(See()), t, Woken(old(See()).states[t]))
    {
      hide Ring, Contents, Bits.Bit, Queues, Tables, PortsOk, TablesOk;
      t.Wake();
      PortsKept(null);
      ThreadsKept(t);
      TablesKept(null);
    }

    /** An interrupt relayed to thread `t`.  A free slot as handle is the caller's error. */
    method KernelSend(t: Receiver, handle: int, m: Message)
      requires Valid() && WellFormed(m)
      modifies Repr()
      ensures Valid() && Abs() == Step(old(Abs()), IpcRuns.KernelSend(t, handle, m))
    {
      hide Inv, Shaped, Parts, Shown, See, KernelView, StateView, Recorded, Step, CanSend;
      ghost var s, v := Abs(), See();
      StepInv(s, IpcRuns.KernelSend(t, handle, m));
      InThreads(t);
      if t !in threads {
        Absent(s, IpcRuns.KernelSend(t, handle, m));
        return;
      }
      Names(t, handle);
      Ready(t, handle);
      KernelStep(v, t, handle, m);
      ghost var p := Endpoint(TableOf(t).objlist[..], handle);
      if 0 <= handle < 32 && t.process.handles.objlist[handle] == null {
        return;
      }
      var st := KernelFrame(t, handle, m, p);
      if st == Ok {
        Record(p, KernelPosted(m));
        WakeFrame(t);
      }
    }

    /** _DWIPCReceive up to its blocking point. */
    method ReceiveFrame(handle: int, copyOk: bool, ghost p: Port?) returns (st: Status, out: Option<Delivered>)
      requires Parts() && current in threads && TableOf(current) in tables && TableOf(current).objlist.Length == 32
      requires 0 <= handle < 32 && TableOf(current).objlist[handle] != null &&
               TableOf(current).objlist[handle].port != null ==>
                 var q := TableOf(current).objlist[handle].port; q.Valid() && q.owner != null
      requires p == Endpoint(TableOf(current).objlist[..], handle) && (p != null ==> CanSend(See(), p))
      modifies current, PortOnly(p)
      ensures Parts()
      ensures st in {Ok, Bad, WouldBlock} <==> p != null && p.owner.process == current.process
      ensures See() == if st in {Ok, Bad, WouldBlock} then ReceiveView(old(See()), p) else old(See())
      ensures st == WouldBlock ==> old(See()).queues[p] == []
      ensures st in {Ok, Bad} ==> old(See()).queues[p] != []
      ensures st == Ok ==> out == Some(old(See()).queues[p][0])
    {
      hide Ring, Contents, Bits.Bit, Queues, Tables;
      if p != null { SeenAt(p); }
      st, out := ReceiveCall(current, handle, copyOk);
      assert OtherPorts(p) && OtherTables(null) && OtherThreads(current);
      PortsKept(p);
      ThreadsKept(current);
      TablesKept(null);
    }

    /** Another pass of the loop, by the thread that sleeps in it. */
    method ResumeFrame(copyOk: bool, p: Port) returns (st: Status, out: Option<Delivered>)
      requires Parts() && current in threads && p in ports
      modifies current, p
      ensures Parts() && See() == ReceiveView(old(See()), p)
      ensures st == WouldBlock <==> old(See()).queues[p] == []
      ensures st == Ok ==> out == Some(old(See()).queues[p][0])
    {
      hide Ring, Contents, Bits.Bit, Tables;
      assert See().queues[p] == p.Queue();
      hide Queues;
      st, out := p.Receive(current, copyOk);
      assert OtherPorts(p) && OtherTables(null) && OtherThreads(current);
      PortsKept(p);
      ThreadsKept(current);
      TablesKept(null);
    }

    method Enter(pc: Pc)
      requires Parts() && current in threads
      modifies this`pcs
      ensures Parts() && See() == old(See()).(pcs := old(pcs)[current := pc])
    {
      hide Queues, States, Tables, PortsOk, TablesOk;
      pcs := pcs[current := pc];
      Untouched();
    }

    ghost method Count(p: Port)
      requires Parts() && p in ports
      modifies this`taken
      ensures Parts() && See() == old(See()).(taken := old(taken)[p := old(taken)[p] + 1])
    {
      hide Queues, States, Tables, PortsOk, TablesOk;
      taken := taken[p := taken[p] + 1];
      Untouched();
    }

    /** The thread's place in the loop and the history. */
    method MoveOn(p: Port, empty: bool)
      requires Parts() && p in ports && current in threads
      modifies this`pcs, this`taken
      ensures Parts() && See() == MovedOn(old(See()), p, empty)
    {
      hide Queues, States, Tables, PortsOk, TablesOk;
      Enter(if empty then Receiving(p) else User);
      if !empty {
        Count(p);
      }
    }

    /** _DWIPCReceive by the current thread: it gets the oldest message not yet taken. */
    method Receive(handle: int, copyOk: bool) returns (st: Status, out: Option<Delivered>)
      requires Valid()
      modifies Repr()
      ensures Valid() && Abs() == Step(old(Abs()), IpcRuns.Receive(handle, copyOk))
      ensures st == Ok ==> Shaped(old(Abs())) && Got(old(Abs()), Target(old(Abs()), current, handle), out)
    {
      hide Inv, Shaped, Parts, Shown, See, MovedOn, ReceiveView, Step, CanSend, Got;
      ghost var s, v := Abs(), See();
      StepInv(s, IpcRuns.Receive(handle, copyOk));
      InThreads(current);
      Names(current, handle);
      Ready(current, handle);
      ghost var p := Endpoint(TableOf(current).objlist[..], handle);
      if current.state != RoundRobin.Running || pcs[current] != User {
        Outside(s, IpcRuns.Receive(handle, copyOk));
        return BadArgument, None;
      }
      ReceiveStep(v, handle, copyOk);
      st, out := ReceiveFrame(handle, copyOk, p);
      if st in {Ok, Bad, WouldBlock} {
        if st == Ok { Oldest(s, p); }
        MoveOn(TableOf(current).objlist[handle].port, st == WouldBlock);
      }
    }

    /** The thread in the receive loop runs again. */
    method Resume(copyOk: bool) returns (st: Status, out: Option<Delivered>)
      requires Valid()
      modifies Repr()
      ensures Valid() && Abs() == Step(old(Abs()), IpcRuns.Resume(copyOk))
      ensures st == Ok ==>
              old(current in pcs && pcs[current].Receiving?) && Got(old(Abs()), old(pcs[current].port), out)
    {
      hide Inv, Shaped, Parts, Shown, See, MovedOn, ReceiveView, Step, CanSend, Got;
      ghost var s, v := Abs(), See();
      StepInv(s, IpcRuns.Resume(copyOk));
      InThreads(current);
      ResumeStep(v, copyOk);
      if current.state != RoundRobin.Running || !pcs[current].Receiving? || pcs[current].port !in ports {
        return BadArgument, None;
      }
      var p := pcs[current].port;
      InPorts(p);
      st, out := ResumeFrame(copyOk, p);
      if st == Ok { Oldest(s, p); }
      MoveOn(p, st == WouldBlock);
    }

    lemma InPorts(p: Port)
      requires Valid() && p in ports
      ensures p in See().queues && p in Abs().chans && Abs().chans[p].queue == See().queues[p]
    {}

    /** WakeThread. */
    method Wake(t: Receiver)
      requires Valid()
      modifies Repr()
      ensures Valid() && Abs() == Step(old(Abs()), IpcRuns.Wake(t))
    {
      hide Inv, Shaped, Parts, Shown, See, StateView, Step;
      ghost var s, v := Abs(), See();
      StepInv(s, IpcRuns.Wake(t));
      InThreads(t);
      if t in threads {
        WakeStep(v, t);
        WakeFrame(t);
      } else {
        Absent(s, IpcRuns.Wake(t));
      }
    }

    method SetFrame(t: Receiver, st: RoundRobin.State)
      requires Parts() && t in threads
      modifies t
      ensures Parts() && See() == StateView(old(See()), t, st)
    {
      hide Ring, Contents, Bits.Bit, Queues, Tables, PortsOk, TablesOk;
      t.state := st;
      PortsKept(null);
      ThreadsKept(t);
      TablesKept(null);
    }

    /** DeleteThread. */
    method Kill(t: Receiver)
      requires Valid()
      modifies Repr()
      ensures Valid() && Abs() == Step(old(Abs()), IpcRuns.Kill(t))
    {
      hide Inv, Shaped, Parts, Shown, See, StateView, Step;
      ghost var s, v := Abs(), See();
      StepInv(s, IpcRuns.Kill(t));
      InThreads(t);
      if t in threads {
        WakeStep(v, t);
        SetFrame(t, RoundRobin.Terminated);
      } else {
        Absent(s, IpcRuns.Kill(t));
      }
    }

    /** ScheduleNext, having picked `t`. */
    method SwitchFrame(t: Receiver)
      requires Parts() && t in threads && current in threads
      modifies this`current, t, current
      ensures Parts() && See() == SwitchView(old(See()), t)
    {
      if t.state == RoundRobin.Ready {
        if current.state == RoundRobin.Running {
          SetFrame(current, RoundRobin.Ready);
        }
        SetFrame(t, RoundRobin.Running);
        Become(t);
      }
    }

    method Become(t: Receiver)
      requires Parts()
      modifies this`current
      ensures Parts() && See() == old(See()).(current := t)
    {
      hide Queues, States, Tables, PortsOk, TablesOk;
      current := t;
      Untouched();
    }

    method Switch(t: Receiver)
      requires Valid()
      modifies Repr()
      ensures Valid() && Abs() == Step(old(Abs()), IpcRuns.Switch(t))
    {
      hide Inv, Shaped, Parts, Shown, See, SwitchView, Step;
      ghost var s, v := Abs(), See();
      StepInv(s, IpcRuns.Switch(t));
      InThreads(current);
      InThreads(t);
      if t in threads {
        SwitchStep(v, t);
        SwitchFrame(t);
      } else {
        Absent(s, IpcRuns.Switch(t));
      }
    }

    /** AppendToHandleTable. */
    method AppendFrame(h: HandleTable, obj: Object) returns (index: int)
      requires Parts() && h in tables
      modifies h, h.objlist
      ensures Parts() && |old(See()).tables[h]| == 32
      ensures var t := old(See()).tables[h];
              if FirstFree(t) < 32 then
                index == FirstFree(t) && See() == TableView(old(See()), h, t[index := obj], closed)
              else index == -1 && See() == old(See())
    {
      hide Ring, Contents, Bits.Bit, Queues, FirstFree;
      assert See().tables[h] == h.objlist[..];
      hide Tables;
      index := h.Append(obj);
      assert OtherPorts(null) && OtherTables(h) && OtherThreads(null);
      PortsKept(null);
      ThreadsKept(null);
      TablesKept(h);
    }

    /** DeleteFromHandleTable. */
    method DeleteFrame(h: HandleTable, index: nat)
      requires Parts() && h in tables && index < 32
      modifies h, h.objlist, this`closed
      ensures Parts() && |old(See()).tables[h]| == 32
      ensures See() == TableView(old(See()), h, old(See()).tables[h][index := null], old(closed) + {(h, index)})
    {
      hide Ring, Contents, Bits.Bit, Queues;
      assert See().tables[h] == h.objlist[..];
      hide Tables;
      var _ := h.Delete(index);
      closed := closed + {(h, index)};
      assert OtherPorts(null) && OtherTables(h) && OtherThreads(null);
      PortsKept(null);
      ThreadsKept(null);
      TablesKept(h);
    }

    method Open(t: Receiver, obj: Object)
      requires Valid()
      modifies Repr()
      ensures Valid() && Abs() == Step(old(Abs()), IpcRuns.Open(t, obj))
    {
      hide Inv, Shaped, Parts, Shown, See, TableView, Step, FirstFree;
      ghost var s, v := Abs(), See();
      StepInv(s, IpcRuns.Open(t, obj));
      InThreads(t);
      if t !in threads {
        Absent(s, IpcRuns.Open(t, obj));
        return;
      }
      OpenStep(v, t, obj);
      Names(t, 0);
      if obj.port == null || obj.port in ports {
        var _ := AppendFrame(TableOf(t), obj);
      }
    }

    method Close(t: Receiver, index: int)
      requires Valid()
      modifies Repr()
      ensures Valid() && Abs() == Step(old(Abs()), IpcRuns.Close(t, index))
    {
      hide Inv, Shaped, Parts, Shown, See, TableView, Step, FirstFree;
      ghost var s, v := Abs(), See();
      StepInv(s, IpcRuns.Close(t, index));
      InThreads(t);
      if t !in threads {
        Absent(s, IpcRuns.Close(t, index));
        return;
      }
      Names(t, 0);
      CloseStep(v, t, index);
      if 0 <= index < 32 {
        DeleteFrame(TableOf(t), index);
      }
    }

    method Do(e: Event)
      requires Valid()
      modifies Repr()
      ensures Valid() && Abs() == Step(old(Abs()), e)
    {
      hide Parts, Inv, Step, Abs;
      match e
      case Send(handle, m, size, copyOk) =>
        if WellFormed(m) { Send(handle, m, size, copyOk); } else { Malformed(e); }
      case KernelSend(t, handle, m) =>
        if WellFormed(m) { KernelSend(t, handle, m); } else { Malformed(e); }
      case Receive(handle, copyOk) => var _, _ := Receive(handle, copyOk);
      case Resume(copyOk) => var _, _ := Resume(copyOk);
      case Switch(t) => Switch(t);
      case Wake(t) => Wake(t);
      case Kill(t) => Kill(t);
      case Open(t, obj) => Open(t, obj);
      case Close(t, index) => Close(t, index);
    }

    /** Any number of calls, by any threads in any order. */
    method Run(es: seq<Event>)
      requires Valid()
      modifies Repr()
      ensures Valid() && Abs() == IpcRuns.Run(old(Abs()), es)
      ensures forall p :: p in ports ==>
                p in old(sent) && p in sent && old(sent)[p] <= sent[p] && InOrder(es, sent[p][|old(sent)[p]|..])
    {
      forall p | p in ports
        ensures p in sent && p in Abs().chans && Abs().chans[p].sent == sent[p]
        ensures History(Abs(), IpcRuns.Run(Abs(), es), p)
        ensures InOrder(es, IpcRuns.Run(Abs(), es).chans[p].sent[|sent[p]|..])
      {
        SentHere(p);
        RunInv(Abs(), es, p);
      }
      RunSteps(es);
      forall p | p in ports ensures p in sent && p in Abs().chans && Abs().chans[p].sent == sent[p] { SentHere(p); }
    }

    /** What the view shows of the history of a port. */
    lemma SentHere(p: Port)
      requires Valid() && p in ports
      ensures p in sent && p in Abs().chans && Abs().chans[p].sent == sent[p]
    {
      hide Inv, Queues, States, Tables;
    }

    method RunSteps(es: seq<Event>)
      requires Valid()
      modifies Repr()
      ensures Valid() && Abs() == IpcRuns.Run(old(Abs()), es)
    {
      hide Parts, Inv, Step, Abs;
      var i := 0;
      while i < |es|
        invariant 0 <= i <= |es| && Valid() && IpcRuns.Run(Abs(), es[i..]) == IpcRuns.Run(old(Abs()), es)
      {
        assert es[i..][1..] == es[i + 1..];
        Do(es[i]);
        i := i + 1;
      }
    }

    /** What holds of the objects after every run. */
    lemma Laws(p: Port)
      requires Valid() && p in ports
      ensures p.Valid() && p.owner != null && p.owner in pcs && p in sent && p in taken
      ensures |p.Queue()| == |sent[p]| - taken[p] <= 12
      ensures forall i :: 0 <= i < |p.Queue()| ==> p.Queue()[i] == sent[p][taken[p] + i].msg
      ensures forall i :: 0 <= i < |sent[p]| ==> Conveys(sent[p][i].msg, sent[p][i].source)
      ensures forall i :: 0 <= i < |sent[p]| ==> PostedOk(sent[p][i])
      ensures forall i :: 0 <= i < |sent[p]| ==>
              ReplyOk(TableOf(p.owner), TableOf(p.owner).objlist[..], closed, sent[p][i])
      ensures !(p.owner.state == RoundRobin.Blocked && pcs[p.owner] == Receiving(p) && p.Queue() != [])
      ensures forall h :: h in tables ==> h.Valid()
    {
      hide Inv, Parts, Shown, See, PostedOk, ReplyOk, Ring, Contents, Bits.Bit, Shaped, Conveys;
      SeenPort(p);
      PortLaws(Abs(), p);
    }

    lemma SeenPort(p: Port)
      requires Valid() && p in ports
      ensures p.Valid() && p.owner != null && p.owner in pcs && p in sent && p in taken && TablesOk()
      ensures Shaped(Abs()) && p in Abs().chans && Abs().chans[p] == Chan(p.Queue(), sent[p], taken[p]) &&
              Abs().closed == closed
      ensures p.owner in Abs().threads && Abs().threads[p.owner] == Thr(p.owner.state, pcs[p.owner])
      ensures Abs().tables[TableOf(p.owner)] == TableOf(p.owner).objlist[..]
    {
      InvShaped(Abs());
      hide Inv, Ring, Contents, Bits.Bit, TableShaped;
      assert p in Abs().chans && p.owner in Abs().threads && TableOf(p.owner) in Abs().tables;
    }

    lemma Malformed(e: Event)
      requires Valid()
      requires (e.Send? || e.KernelSend?) && !WellFormed(e.m)
      ensures Step(Abs(), e) == Abs()
    {
      InvShaped(Abs());
    }

    lemma InThreads(t: Receiver)
      requires Valid()
      ensures current in threads && Shaped(Abs()) && Abs().threads.Keys == threads
      ensures t in threads ==>
              t in pcs && t in See().states && See().states[t] == t.state && Abs().threads[t] == Thr(t.state, pcs[t])
      ensures See().current == current && See().pcs == pcs && Abs().current == current
      ensures See().queues.Keys == ports && See().closed == closed
    {
      InvShaped(Abs());
      assert current in Abs().threads;
      hide Inv, Shaped, Ring, Contents, Bits.Bit;
    }

    /** What a handle of thread `t` names. */
    lemma Names(t: Receiver, handle: int)
      requires Valid() && t in threads
      ensures TableOf(t) in tables && TableOf(t).Valid() && TableOf(t).objlist.Length == 32 && Shaped(Abs())
      ensures var p := Endpoint(TableOf(t).objlist[..], handle);
              && Target(Abs(), t, handle) == p && Footprint(p) <= Repr()
              && (p != null ==>
                    p in ports && p in Abs().chans && CanSend(See(), p) && Abs().chans[p].queue == See().queues[p])
    {
      Ready(t, handle);
      hide Inv, Ring, Contents, Bits.Bit;
      var p := Endpoint(TableOf(t).objlist[..], handle);
      if p != null {
        ShapedSend(See(), p);
        FootprintIn(p);
      }
    }

    lemma FootprintIn(p: Port)
      requires p in ports && p.owner != null && p.owner in threads && TableOf(p.owner) in tables
      ensures Footprint(p) <= Repr() && QueueFootprint(p) <= Repr()
    {}
  }

  /** Threads of other systems are of no concern. */
  lemma Absent(s: Machine, e: Event)
    requires Shaped(s) && match e
                          case KernelSend(t, _, _) => t !in s.threads
                          case Switch(t) => t !in s.threads
                          case Wake(t) => t !in s.threads
                          case Kill(t) => t !in s.threads
                          case Open(t, _) => t !in s.threads
                          case Close(t, _) => t !in s.threads
                          case _ => false
    ensures Step(s, e) == s
  {}

  /** A thread that is not running its program makes no call. */
  lemma Outside(s: Machine, e: Event)
    requires Shaped(s) && (e.Send? || e.Receive?) && s.threads[s.current] != Thr(RoundRobin.Running, User)
    ensures Step(s, e) == s
  {}
}
