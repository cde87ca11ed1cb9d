/** Whole runs of the linked-list scheduler: any sequence of interrupts and system calls on
    a run queue is a run of RoundRobin, so a ready thread becomes current within its bound
    (sys/sched/schedule.c, sys/task/task.c, sys/ddk/ia32/isr.asm, sys/ddk/ia32/sysenter.asm). */
module SchedulerRuns {
  import opened RoundRobin
  import opened Scheduler
  import opened Wrappers

  /** What happens to the queue.  A wake-up, a deletion or an arrival takes place in an
      interrupt or in a system call that leaves by sysexit.  A fault names the main thread of
      the process that faulted. */
  datatype Op =
    | Tick
    | Yield
    | Block
    | Exit
    | Fault(t: Thread)
    | Wake(t: Thread, call: bool)
    | Kill(t: Thread, call: bool)
    | Admit(t: Thread, call: bool)

  predicate Names(op: Op) { op.Fault? || op.Wake? || op.Kill? || op.Admit? }

  function Touches(op: Op): set<Thread> { if Names(op) then {op.t} else {} }

  function TicksIn(op: Op): nat { if op.Tick? || op.Yield? then 1 else 0 }

  function TurnsIn(op: Op): nat { if op.Admit? then CpuTime(op.t.priority) + 1 else 0 }

  function TickCount(ops: seq<Op>): nat
  {
    if ops == [] then 0 else TickCount(ops[..|ops| - 1]) + TicksIn(ops[|ops| - 1])
  }

  function TurnCount(ops: seq<Op>): nat
  {
    if ops == [] then 0 else TurnCount(ops[..|ops| - 1]) + TurnsIn(ops[|ops| - 1])
  }

  /** Thread `id` is not deleted or terminated by this operation. */
  predicate Spares(op: Op, id: int) { op.Kill? || op.Fault? ==> op.t.id != id }

  // ---------------------------------------------------------------------
  // The event an operation is
  // ---------------------------------------------------------------------

  /** Where `t` stands in the trial order, -1 for nowhere. */
  predicate Stands(o: seq<Thread>, t: Thread, i: int)
  {
    if t in o then 0 <= i < |o| && o[i] == t else i == -1
  }

  function Core(e: Event): Event { if e.Call? then e.e else e }

  /** With the threads in trial order `o`, operation `op` is event `e`.  Waking a thread that is
      not listed makes a reschedule due, or does nothing, as Kill(-1) does. */
  predicate Means(o: seq<Thread>, op: Op, e: Event)
  {
    var c := Core(e);
    match op
    case Tick => e == RoundRobin.Tick
    case Yield => e == RoundRobin.Yield
    case Block => e == RoundRobin.Block
    case Exit => e == RoundRobin.Exit
    case Fault(t) => e.Fault? && Stands(o, t, e.i)
    case Wake(t, call) =>
      e.Call? == call && ((c.Wake? && Stands(o, t, c.i)) || (c == RoundRobin.Kill(-1) && t !in o))
    case Kill(t, call) => e.Call? == call && c.Kill? && Stands(o, t, c.i)
    case Admit(t, call) =>
      e.Call? == call && c.Add? && c.t.id == t.id && c.t.prio == t.priority && 0 <= c.at < |o|
  }

  /** The threads of `o` are those of the abstract ring. */
  predicate Mirrors(o: seq<Thread>, r: seq<Th>)
  {
    o != [] && |o| == |r| && forall k :: 0 <= k < |o| ==> o[k].id == r[k].id && o[k].priority == r[k].prio
  }

  /** The event takes the ticks and turns of the operation and ends no thread it spares. */
  lemma MeansCost(o: seq<Thread>, s: Sys, op: Op, e: Event)
    requires Mirrors(o, s.ring) && Means(o, op, e)
    ensures TicksOf(e) == TicksIn(op) && TurnsOf(e) == TurnsIn(op)
    ensures forall id :: Spares(op, id) ==> !Kills(s, e, id)
  {
    hide CpuTime;
    var c := Core(e);
    forall id | Spares(op, id) ensures !Kills(s, e, id) {
      assert Kills(s, e, id) <==> Kills(s, c, id);
    }
  }

  /** The queue in trial order and its abstract ring. */
  lemma Shown(q: RunQueue)
    requires q.Valid() && q.list != []
    ensures Mirrors(q.Order(), q.Abs().ring) && |q.Order()| == |q.Abs().ring| == |q.list|
    ensures q.current != null && q.Order()[|q.list| - 1] == q.current
    ensures forall t: Thread :: t in q.Order() <==> t in q.list
  {
    hide Rotate, RunQueue.Linked;
    RotateMembers(q.list, q.pos);
  }

  /** The operation stops thread `id`: it is current and blocks or exits, or it is listed and is
      deleted, or is the one a fault marks. */
  predicate Halts(o: seq<Thread>, op: Op, id: int)
  {
    match op
    case Block => o != [] && o[|o| - 1].id == id
    case Exit => o != [] && o[|o| - 1].id == id
    case Kill(t, _) => t in o && t.id == id
    case Fault(t) => t in o && t.id == id
    case _ => false
  }

  /** The operation wakes thread `id` or is its arrival. */
  predicate Wakes(op: Op, id: int) { (op.Wake? || op.Admit?) && op.t.id == id }

  /** The event stops the thread the operation stops, and rouses nobody but whom it wakes. */
  lemma MeansStops(o: seq<Thread>, s: Sys, op: Op, e: Event, id: int)
    requires Mirrors(o, s.ring) && Means(o, op, e)
    ensures Halts(o, op, id) ==> Stops(s, e, id)
    ensures !Wakes(op, id) ==> !Rouses(s, e, id)
  {}

  lemma ShownProper(q: RunQueue)
    requires q.Valid() && q.list != []
    ensures Proper(q.Abs())
  {
    Shown(q);
    RotateDistinct(q.list, q.pos);
    q.OnlyCurrent(q.Order(), q.Abs().ring);
    hide Rotate, RunQueue.Linked, Distinct, Views;
    ProperRing(q.Order(), q.Abs().ring);
  }

  lemma ProperRing(o: seq<Thread>, r: seq<Th>)
    requires Mirrors(o, r) && DistinctIds(o)
    ensures Distinct(r) && forall i :: 0 <= i < |o| - 1 ==> o[i] != o[|o| - 1]
  {
    forall i | 0 <= i < |o| - 1 ensures o[i].id != o[|o| - 1].id {}
  }

  // ---------------------------------------------------------------------
  // One operation
  // ---------------------------------------------------------------------

  /** A wake-up, deletion or arrival has been handled; leave the interrupt or the call. */
  method Leave(q: RunQueue, call: bool, ghost s: Sys, ghost c: Event) returns (ghost e: Event)
    requires q.Valid() && s.ring != [] && Quick(c) && q.Abs() == Handle(s, c)
    modifies q`current, q`needsResched, q`pos, q.list`state, q.list`quantum
    ensures q.Valid() && e.Call? == call && Core(e) == c && q.Abs() == Step(s, e)
  {
    hide Handle, Schedule, Drop;
    if call {
      e := Call(c);
      CallStep(s, c);
    } else {
      e := c;
      q.ReturnFromInterrupt(s, c);
    }
  }

  lemma CallStep(s: Sys, c: Event)
    requires s.ring != [] && Quick(c)
    ensures Step(s, Call(c)) == Handle(s, c)
  {}

  lemma NothingKilled(s: Sys)
    requires s.ring != []
    ensures Handle(s, RoundRobin.Kill(-1)) == s
  {}

  method DoWake(q: RunQueue, t: Thread, call: bool) returns (ghost e: Event)
    requires q.Valid() && q.list != []
    modifies q`current, q`needsResched, q`pos, q.list`state, q.list`quantum, t`state
    ensures q.Valid() && q.Abs() == Step(old(q.Abs()), e) && Means(old(q.Order()), Op.Wake(t, call), e)
    ensures t !in q.list ==> Core(e) == if old(t.state) == Running then RoundRobin.Kill(-1) else RoundRobin.Wake(-1)
  {
    hide Handle, Step, Views, Rotate, RunQueue.Linked, RunQueue.Abs;
    ghost var s := q.Abs();
    Shown(q);
    ghost var nothing := t !in q.list && t.state == Running;
    ghost var i := q.WakeThread(t);
    NothingKilled(s);
    e := Leave(q, call, s, if nothing then RoundRobin.Kill(-1) else RoundRobin.Wake(i));
  }

  method DoKill(q: RunQueue, t: Thread, call: bool) returns (ghost e: Event)
    requires q.Valid() && q.list != []
    modifies q, q.list, t
    ensures q.Valid() && q.list != [] && q.Abs() == Step(old(q.Abs()), e) && Means(old(q.Order()), Op.Kill(t, call), e)
    ensures forall u :: u in q.list ==> u in old(q.list)
  {
    hide Handle, Step, Views, Rotate, RunQueue.Linked, RunQueue.Abs;
    ghost var s, listed := q.Abs(), t in q.list;
    Shown(q);
    ghost var i := q.DeleteThread(t);
    NothingKilled(s);
    assert forall i :: 0 <= i < |q.list| ==> q.list[i] in old(q.list);
    e := Leave(q, call, s, RoundRobin.Kill(if listed then i else -1));
  }

  method DoAdmit(q: RunQueue, t: Thread, call: bool) returns (ghost e: Event)
    requires q.Valid() && q.list != [] && NewThread(q.list, t)
    modifies q, q.list, t
    ensures q.Valid() && q.list != [] && q.Abs() == Step(old(q.Abs()), e) && Means(old(q.Order()), Op.Admit(t, call), e)
    ensures forall u :: u in q.list ==> u in old(q.list) || u == t
  {
    hide Handle, Step, Views, Rotate, RunQueue.Linked, RunQueue.Abs;
    ghost var s, v, at := q.Abs(), t.View(), |q.list| - 1 - q.pos;
    Shown(q);
    q.Admit(t);
    assert forall u :: u in q.list ==> u in old(q.list) || u == t;
    e := Leave(q, call, s, Add(v, at));
  }

  /** The operations that leave by the interrupt's way out. */
  method DoInterrupt(q: RunQueue, op: Op) returns (ghost e: Event)
    requires q.Valid() && q.list != [] && (op.Tick? || op.Yield? || op.Block? || op.Fault?)
    modifies q`current, q`needsResched, q`pos, q.list`state, q.list`quantum, Touches(op)`state
    ensures q.Valid() && q.Abs() == Step(old(q.Abs()), e) && Means(old(q.Order()), op, e)
  {
    hide Handle, Step, Views, Rotate, RunQueue.Linked, RunQueue.Abs;
    ghost var s := q.Abs();
    Shown(q);
    if op.Tick? {
      e := RoundRobin.Tick;
      q.Tick();
    } else if op.Yield? {
      e := RoundRobin.Yield;
      q.YieldCurrentThread();
    } else if op.Block? {
      e := RoundRobin.Block;
      q.BlockThread();
    } else {
      ghost var i := q.Fault(op.t);
      e := RoundRobin.Fault(i);
    }
    q.ReturnFromInterrupt(s, e);
  }

  /** One operation is one event.  Only an exit with no other thread ready is the end: the
      kernel stays in the thread that has exited. */
  method Do(q: RunQueue, op: Op) returns (ok: bool, ghost e: Event)
    requires q.Valid() && q.list != [] && (op.Admit? ==> NewThread(q.list, op.t))
    modifies q, q.list, Touches(op)
    ensures !ok <==> op.Exit? && Pick(old(q.Abs().ring)[..|old(q.list)| - 1]) == None
    ensures ok ==> q.Valid() && q.list != [] && q.Abs() == Step(old(q.Abs()), e) && Means(old(q.Order()), op, e)
    ensures op.Wake? && op.t !in old(q.list) ==>
              Core(e) == if old(op.t.state) == Running then RoundRobin.Kill(-1) else RoundRobin.Wake(-1)
    ensures forall u :: u in q.list ==> u in old(q.list) || (op.Admit? && u == op.t)
  {
    hide Handle, Step, Pick, Views, Rotate, RunQueue.Linked, RunQueue.Abs;
    ok, e := true, RoundRobin.Exit;
    match op
    case Exit =>
      var was := q.current;
      Shown(q);
      q.Exit();
      ok := q.current != was;
    case Wake(t, call) => e := DoWake(q, t, call);
    case Kill(t, call) => e := DoKill(q, t, call);
    case Admit(t, call) => e := DoAdmit(q, t, call);
    case _ => e := DoInterrupt(q, op);
  }

  // ---------------------------------------------------------------------
  // Whole runs
  // ---------------------------------------------------------------------

  /** Every thread that arrives has an identifier of its own. */
  ghost predicate NewArrivals(list: seq<Thread>, ops: seq<Op>)
  {
    forall i :: 0 <= i < |ops| && ops[i].Admit? ==>
      && NewThread(list, ops[i].t)
      && forall j :: 0 <= j < i && ops[j].Admit? ==> ops[j].t.id != ops[i].t.id
  }

  predicate Arrives(op: Op, u: Thread) { op.Admit? && op.t == u }

  /** The threads the operations name. */
  function Named(ops: seq<Op>): set<Thread>
  {
    set i | 0 <= i < |ops| && Names(ops[i]) :: ops[i].t
  }

  lemma AllNamed(list: seq<Thread>, first: seq<Thread>, ops: seq<Op>, i: int)
    requires 0 <= i < |ops| && Known(list, first, ops[..i])
    ensures Touches(ops[i]) <= Named(ops)
    ensures forall u :: u in list ==> u in first || u in Named(ops)
  {
    forall u | u in list && u !in first ensures u in Named(ops) {
      var j :| 0 <= j < i && Arrives(ops[..i][j], u);
      assert ops[j].t == u;
    }
  }

  /** A listed thread was there from the start or has arrived. */
  ghost predicate Known(list: seq<Thread>, first: seq<Thread>, ops: seq<Op>)
  {
    forall u :: u in list ==> u in first || exists j :: 0 <= j < |ops| && Arrives(ops[j], u)
  }

  lemma RunNothing(s: Sys)
    ensures RoundRobin.Run(s, []) == s
  {}

  lemma RunAppend(s: Sys, es: seq<Event>, e: Event)
    requires RoundRobin.Run(s, es).ring != []
    ensures RoundRobin.Run(s, es + [e]) == Step(RoundRobin.Run(s, es), e)
  {
    assert (es + [e])[..|es|] == es;
  }

  lemma KnownAtFirst(first: seq<Thread>)
    ensures Known(first, first, [])
  {}

  lemma ArrivalIsNew(list: seq<Thread>, first: seq<Thread>, ops: seq<Op>, i: int)
    requires 0 <= i < |ops| && NewArrivals(first, ops) && Known(list, first, ops[..i]) && ops[i].Admit?
    ensures NewThread(list, ops[i].t)
  {
    forall k | 0 <= k < |list| ensures list[k].id != ops[i].t.id {
      var u := list[k];
      assert u in list;
      if u in first {
        var n :| 0 <= n < |first| && first[n] == u;
      }
    }
  }

  lemma StillKnown(list: seq<Thread>, list': seq<Thread>, first: seq<Thread>, ops: seq<Op>, i: int)
    requires 0 <= i < |ops| && Known(list, first, ops[..i])
    requires forall u :: u in list' ==> u in list || (ops[i].Admit? && u == ops[i].t)
    ensures Known(list', first, ops[..i + 1])
  {
    var before, after := ops[..i], ops[..i + 1];
    forall u | u in list' && u !in first ensures exists j :: 0 <= j < |after| && Arrives(after[j], u) {
      if u in list {
        var j :| 0 <= j < |before| && Arrives(before[j], u);
        assert Arrives(after[j], u);
      } else {
        assert Arrives(after[i], u);
      }
    }
  }

  /** What a run leaves behind: `orders[i]` is the trial order before operation `i`, which is
      event `es[i]`, and `hist[i]` the thread that is current after it. */
  ghost predicate Recorded(s0: Sys, first: seq<Thread>, ops: seq<Op>, es: seq<Event>, orders: seq<seq<Thread>>,
                           hist: seq<Thread>)
  {
    && |es| == |hist| <= |ops| && |orders| == |es| + 1
    && (forall i :: 0 <= i <= |es| ==> Before(s0, first, ops, es, orders, i))
    && (forall i :: 0 <= i < |es| ==> Took(ops, es, orders, hist, i))
  }

  ghost predicate Before(s0: Sys, first: seq<Thread>, ops: seq<Op>, es: seq<Event>, orders: seq<seq<Thread>>, i: int)
    requires 0 <= i <= |es| <= |ops| && i < |orders|
  {
    Mirrors(orders[i], RoundRobin.Run(s0, es[..i]).ring) && Known(orders[i], first, ops[..i])
  }

  ghost predicate Took(ops: seq<Op>, es: seq<Event>, orders: seq<seq<Thread>>, hist: seq<Thread>, i: int)
    requires 0 <= i < |es| == |hist| <= |ops| && |orders| == |es| + 1
  {
    && Means(orders[i], ops[i], es[i])
    && orders[i + 1] != [] && hist[i] == orders[i + 1][|orders[i + 1]| - 1]
  }

  /** Thread `id` has been current, or it waits with what is left of its bound. */
  ghost predicate Coming(s0: Sys, m0: int, s: Sys, hist: seq<Thread>, ops: seq<Op>, id: int)
    requires 0 <= m0 < |s0.ring|
  {
    || (exists k :: 0 <= k < |hist| && hist[k].id == id)
    || (exists m :: Waits(s, id, m) && Bound(s, m) + TickCount(ops) <= Bound(s0, m0) + TurnCount(ops))
  }

  lemma ComingStep(s0: Sys, m0: int, s: Sys, hist: seq<Thread>, t: Thread, ops: seq<Op>, op: Op, e: Event,
                   o: seq<Thread>, id: int)
    requires 0 <= m0 < |s0.ring| && Coming(s0, m0, s, hist, ops, id)
    requires Mirrors(o, s.ring) && Means(o, op, e) && Spares(op, id)
    requires var r := Step(s, e).ring; r != [] && r[|r| - 1].id == t.id
    ensures Coming(s0, m0, Step(s, e), hist + [t], ops + [op], id)
  {
    var hist' := hist + [t];
    MeansCost(o, s, op, e);
    if k :| 0 <= k < |hist| && hist[k].id == id {
      assert hist'[k].id == id;
    } else {
      var m :| Waits(s, id, m) && Bound(s, m) + TickCount(ops) <= Bound(s0, m0) + TurnCount(ops);
      hide Step, Kills, Means;
      var m' := StepProgress(s, e, id, m);
      assert (ops + [op])[..|ops|] == ops;
      if Dispatched(Step(s, e), id) { assert hist'[|hist|].id == id; }
    }
  }

  lemma {:induction false} ComingAt(s0: Sys, first: seq<Thread>, ops: seq<Op>, es: seq<Event>,
                                    orders: seq<seq<Thread>>, hist: seq<Thread>, id: int, m: int, n: nat)
    requires Recorded(s0, first, ops, es, orders, hist) && n <= |es| && Waits(s0, id, m)
    requires forall i :: 0 <= i < n ==> Spares(ops[i], id)
    ensures Coming(s0, m, RoundRobin.Run(s0, es[..n]), hist[..n], ops[..n], id)
  {
    if n == 0 {
      assert es[..0] == [] && hist[..0] == [] && ops[..0] == [];
    } else {
      ComingAt(s0, first, ops, es, orders, hist, id, m, n - 1);
      ComingNext(s0, first, ops, es, orders, hist, id, m, n - 1);
    }
  }

  lemma ComingNext(s0: Sys, first: seq<Thread>, ops: seq<Op>, es: seq<Event>, orders: seq<seq<Thread>>,
                   hist: seq<Thread>, id: int, m: int, k: nat)
    requires Recorded(s0, first, ops, es, orders, hist) && k < |es| == |hist| <= |ops|
    requires 0 <= m < |s0.ring| && Spares(ops[k], id)
    requires Coming(s0, m, RoundRobin.Run(s0, es[..k]), hist[..k], ops[..k], id)
    ensures Coming(s0, m, RoundRobin.Run(s0, es[..k + 1]), hist[..k + 1], ops[..k + 1], id)
  {
    hide Recorded, Coming, Means, Mirrors, RoundRobin.Run, Step, Spares, TickCount, TurnCount;
    RecordedAt(s0, first, ops, es, orders, hist, k);
    assert es[..k + 1] == es[..k] + [es[k]];
    assert hist[..k + 1] == hist[..k] + [hist[k]];
    assert ops[..k + 1] == ops[..k] + [ops[k]];
    RunAppend(s0, es[..k], es[k]);
    ComingStep(s0, m, RoundRobin.Run(s0, es[..k]), hist[..k], hist[k], ops[..k], ops[k], es[k], orders[k], id);
  }

  lemma RecordedAt(s0: Sys, first: seq<Thread>, ops: seq<Op>, es: seq<Event>, orders: seq<seq<Thread>>,
                   hist: seq<Thread>, k: nat)
    requires Recorded(s0, first, ops, es, orders, hist) && k < |es|
    ensures |es| == |hist| <= |ops| && |orders| == |es| + 1
    ensures Mirrors(orders[k], RoundRobin.Run(s0, es[..k]).ring) && RoundRobin.Run(s0, es[..k]).ring != []
    ensures Means(orders[k], ops[k], es[k])
    ensures var r := RoundRobin.Run(s0, es[..k + 1]).ring; r != [] && r[|r| - 1].id == hist[k].id
  {
    assert Before(s0, first, ops, es, orders, k) && Before(s0, first, ops, es, orders, k + 1);
    assert Took(ops, es, orders, hist, k);
    hide Recorded, Means, Known, RoundRobin.Run;
  }

  /** Thread `id` waits at place `m` at the start, and `n` operations hold as many ticks as its
      bound and the turns of those that arrive. */
  ghost predicate Due(s0: Sys, ops: seq<Op>, id: int, m: int, n: nat)
  {
    n <= |ops| && Waits(s0, id, m) && TickCount(ops[..n]) >= Bound(s0, m) + TurnCount(ops[..n])
  }

  ghost predicate AllSpare(ops: seq<Op>, id: int, n: nat) { forall i :: 0 <= i < n && i < |ops| ==> Spares(ops[i], id) }

  /** A thread that is due and spared has been current. */
  ghost predicate InTime(s0: Sys, ops: seq<Op>, hist: seq<Thread>, id: int, m: int, n: nat)
  {
    Due(s0, ops, id, m, n) && AllSpare(ops, id, n) ==> exists k :: 0 <= k < n && k < |hist| && hist[k].id == id
  }

  /** A thread that is ready and not idle at the start, at place `m`, has been current once `n`
      operations hold as many ticks as its bound and the turns of those that arrived, or at the
      latest when the run ends because nothing is ready. */
  lemma ServedWithin(s0: Sys, first: seq<Thread>, ops: seq<Op>, es: seq<Event>, orders: seq<seq<Thread>>,
                     hist: seq<Thread>, id: int, m: int, n: nat)
    requires Recorded(s0, first, ops, es, orders, hist) && Due(s0, ops, id, m, n) && AllSpare(ops, id, n)
    requires |es| < |ops| ==> Stuck(RoundRobin.Run(s0, es))
    ensures exists k :: 0 <= k < n && k < |hist| && hist[k].id == id
  {
    var l := if n <= |es| then n else |es|;
    ComingAt(s0, first, ops, es, orders, hist, id, m, l);
    var s := RoundRobin.Run(s0, es[..l]);
    assert es[..|es|] == es;
    if n > |es| { StuckWaits(s, id); }
    hide RoundRobin.Run, Recorded;
    BoundPositive(id);
    assert forall k :: 0 <= k < l ==> hist[..l][k] == hist[k];
  }

  lemma StuckWaits(s: Sys, id: int)
    requires Stuck(s)
    ensures forall m :: !Waits(s, id, m)
  {
    var r := s.ring[..|s.ring| - 1];
    assert FirstEligible(r) == |r|;
    assert forall m :: 0 <= m < |r| ==> r[m] == s.ring[m] && !Eligible(r[m]);
  }

  lemma BoundPositive(id: int)
    ensures forall s, m :: Waits(s, id, m) ==> Bound(s, m) >= 1
  {}

  /** A thread stopped by operation `j` and not woken up to operation `k` cannot run after it. */
  lemma {:induction false} OffAt(s0: Sys, first: seq<Thread>, ops: seq<Op>, es: seq<Event>, orders: seq<seq<Thread>>,
                                 hist: seq<Thread>, id: int, j: nat, k: nat)
    requires Recorded(s0, first, ops, es, orders, hist) && Proper(s0) && j <= k < |es|
    requires Halts(orders[j], ops[j], id) && forall i :: j < i <= k ==> !Wakes(ops[i], id)
    ensures Proper(RoundRobin.Run(s0, es[..k])) && Proper(RoundRobin.Run(s0, es[..k + 1]))
    ensures !Runnable(RoundRobin.Run(s0, es[..k + 1]), id)
    decreases k - j
  {
    hide Recorded, Means, Mirrors, RoundRobin.Run, Step, Halts, Wakes, Proper, Runnable, Stops, Rouses;
    RunProper(s0, es, k);
    RunProper(s0, es, k + 1);
    RunStep(s0, es, k);
    RecordedAt(s0, first, ops, es, orders, hist, k);
    var s := RoundRobin.Run(s0, es[..k]);
    MeansStops(orders[k], s, ops[k], es[k], id);
    RunnableExactly(s, es[k], id);
    if k > j {
      OffAt(s0, first, ops, es, orders, hist, id, j, k - 1);
    } else {
      NotBoth(s, es[k], id);
    }
  }

  lemma NotBoth(s: Sys, e: Event, id: int)
    ensures !(Stops(s, e, id) && Rouses(s, e, id))
  {}

  /** Operation `j` of the `n` made stopped thread `id`, and none after it up to `k` woke it. */
  ghost predicate Stopped(ops: seq<Op>, orders: seq<seq<Thread>>, n: int, id: int, j: int, k: int)
  {
    && 0 <= j <= k < n <= |ops| && n <= |orders|
    && Halts(orders[j], ops[j], id) && forall i :: j < i <= k ==> !Wakes(ops[i], id)
  }

  /** A stopped thread that is current has been so ever since: once it is not, it does not
      become current. */
  ghost predicate Off(ops: seq<Op>, orders: seq<seq<Thread>>, hist: seq<Thread>, id: int, j: int, k: int)
  {
    Stopped(ops, orders, |hist|, id, j, k) && hist[k].id == id ==> forall i :: j <= i <= k ==> hist[i].id == id
  }

  lemma StoppedBefore(ops: seq<Op>, orders: seq<seq<Thread>>, n: int, id: int, j: int, k: int)
    requires Stopped(ops, orders, n, id, j, k) && j < k
    ensures Stopped(ops, orders, n, id, j, k - 1) && 0 <= j < k < n
  {}

  /** It was current one operation earlier. */
  lemma WasCurrent(s0: Sys, first: seq<Thread>, ops: seq<Op>, es: seq<Event>, orders: seq<seq<Thread>>,
                   hist: seq<Thread>, id: int, j: nat, k: nat)
    requires Recorded(s0, first, ops, es, orders, hist) && Proper(s0) && j < k < |hist| == |es| <= |ops|
    requires Stopped(ops, orders, |hist|, id, j, k) && hist[k].id == id
    ensures hist[k - 1].id == id
  {
    hide Recorded, Runnable, Proper, Mirrors, Means, Halts, Wakes, RoundRobin.Run, Step;
    OffAt(s0, first, ops, es, orders, hist, id, j, k);
    RecordedAt(s0, first, ops, es, orders, hist, k);
    RecordedAt(s0, first, ops, es, orders, hist, k - 1);
    RunStep(s0, es, k);
    NotBack(RoundRobin.Run(s0, es[..k]), es[k]);
  }

  lemma {:induction false} StaysAway(s0: Sys, first: seq<Thread>, ops: seq<Op>, es: seq<Event>,
                                     orders: seq<seq<Thread>>, hist: seq<Thread>, id: int, j: int, k: int)
    requires Recorded(s0, first, ops, es, orders, hist) && Proper(s0) && |hist| == |es| <= |ops|
    ensures Off(ops, orders, hist, id, j, k)
    decreases k - j
  {
    hide Recorded, Proper;
    if Stopped(ops, orders, |hist|, id, j, k) && j < k && hist[k].id == id {
      StoppedBefore(ops, orders, |hist|, id, j, k);
      WasCurrent(s0, first, ops, es, orders, hist, id, j, k);
      StaysAway(s0, first, ops, es, orders, hist, id, j, k - 1);
    }
  }

  /** A thread that blocks stays current exactly when nothing else is ready. */
  lemma BlockedAt(s0: Sys, first: seq<Thread>, ops: seq<Op>, es: seq<Event>, orders: seq<seq<Thread>>,
                  hist: seq<Thread>, j: nat)
    requires Recorded(s0, first, ops, es, orders, hist) && Proper(s0) && j < |hist| == |es| <= |ops| && ops[j].Block?
    requires |orders| == |es| + 1
    ensures orders[j] != []
    ensures hist[j].id == orders[j][|orders[j]| - 1].id <==> Stuck(RoundRobin.Run(s0, es[..j]))
  {
    hide RoundRobin.Run, Step, Recorded, Stuck, Proper;
    RecordedAt(s0, first, ops, es, orders, hist, j);
    RunProper(s0, es, j);
    RunStep(s0, es, j);
    var s := RoundRobin.Run(s0, es[..j]);
    assert es[j] == RoundRobin.Block && orders[j][|orders[j]| - 1].id == s.ring[|s.ring| - 1].id;
    hide Means, Mirrors;
    GivesUpExactly(s, RoundRobin.Block);
  }

  /** Any sequence of operations is a run of RoundRobin, recorded operation by operation, up to
      an exit that leaves nothing to run.  In it every waiting thread becomes current within its
      bound; and a thread that has blocked, exited, been deleted or been marked by a fault does
      not become current again before it is woken.  The thread that blocks loses the processor
      exactly when another is ready. */
  method Run(q: RunQueue, ops: seq<Op>)
    returns (hist: seq<Thread>, ghost es: seq<Event>, ghost orders: seq<seq<Thread>>)
    requires q.Valid() && q.list != [] && NewArrivals(q.list, ops)
    modifies q, q.list, Named(ops)
    ensures Recorded(old(q.Abs()), old(q.list), ops, es, orders, hist) && orders[0] == old(q.Order())
    ensures |hist| < |ops| ==> ops[|hist|].Exit? && Stuck(RoundRobin.Run(old(q.Abs()), es))
    ensures |hist| == |ops| ==>
              && q.Valid() && q.list != [] && q.Abs() == RoundRobin.Run(old(q.Abs()), es)
              && orders[|hist|] == q.Order() && (hist != [] ==> hist[|hist| - 1] == q.current)
    ensures forall id, m, n: nat :: InTime(old(q.Abs()), ops, hist, id, m, n)
    ensures forall id, j, k :: Off(ops, orders, hist, id, j, k)
    ensures forall j :: 0 <= j < |hist| && ops[j].Block? ==>
              orders[j] != [] && (hist[j].id == orders[j][|orders[j]| - 1].id <==>
                                  Stuck(RoundRobin.Run(old(q.Abs()), es[..j])))
  {
    hide Recorded, Off, Stuck, Due, AllSpare, Proper, RoundRobin.Run, Mirrors, Means;
    ghost var s0, first := q.Abs(), q.list;
    ShownProper(q);
    hist, es, orders := RunAll(q, ops);
    RecordedSizes(s0, first, ops, es, orders, hist);
    forall id, m, n: nat ensures InTime(s0, ops, hist, id, m, n) {
      if Due(s0, ops, id, m, n) && AllSpare(ops, id, n) { ServedWithin(s0, first, ops, es, orders, hist, id, m, n); }
    }
    forall id, j, k ensures Off(ops, orders, hist, id, j, k) {
      StaysAway(s0, first, ops, es, orders, hist, id, j, k);
    }
    forall j | 0 <= j < |hist| && ops[j].Block?
      ensures orders[j] != [] && (hist[j].id == orders[j][|orders[j]| - 1].id <==> Stuck(RoundRobin.Run(s0, es[..j])))
    {
      BlockedAt(s0, first, ops, es, orders, hist, j);
    }
  }

  lemma RecordedSizes(s0: Sys, first: seq<Thread>, ops: seq<Op>, es: seq<Event>, orders: seq<seq<Thread>>,
                      hist: seq<Thread>)
    requires Recorded(s0, first, ops, es, orders, hist)
    ensures |es| == |hist| <= |ops| && |orders| == |es| + 1
  {}

  method RunAll(q: RunQueue, ops: seq<Op>)
    returns (hist: seq<Thread>, ghost es: seq<Event>, ghost orders: seq<seq<Thread>>)
    requires q.Valid() && q.list != [] && NewArrivals(q.list, ops)
    modifies q, q.list, Named(ops)
    ensures Recorded(old(q.Abs()), old(q.list), ops, es, orders, hist) && orders[0] == old(q.Order())
    ensures |hist| < |ops| ==> ops[|hist|].Exit? && Stuck(RoundRobin.Run(old(q.Abs()), es))
    ensures |hist| == |ops| ==>
              && q.Valid() && q.list != [] && q.Abs() == RoundRobin.Run(old(q.Abs()), es)
              && orders[|hist|] == q.Order() && (hist != [] ==> hist[|hist| - 1] == q.current)
  {
    hide Step, Pick, Views, Rotate, RunQueue.Linked, RunQueue.Abs, Means, Known, NewArrivals, Named, RoundRobin.Run,
         Recorded, Mirrors;
    ghost var s0, first := q.Abs(), q.list;
    hist, es, orders := [], [], [q.Order()];
    Shown(q);
    RecordedAtFirst(s0, first, ops, q.Order());
    RunNothing(s0);
    assert ops[..0] == [];
    KnownAtFirst(first);
    for i := 0 to |ops|
      invariant |hist| == |es| == i && |orders| == i + 1 && orders[0] == old(q.Order())
      invariant q.Valid() && q.list != [] && q.Abs() == RoundRobin.Run(s0, es) && orders[i] == q.Order()
      invariant Known(q.list, first, ops[..i]) && Recorded(s0, first, ops, es, orders, hist)
      invariant hist != [] ==> hist[i - 1] == q.current
    {
      if ops[i].Admit? { ArrivalIsNew(q.list, first, ops, i); }
      ghost var s, l := q.Abs(), q.list;
      Shown(q);
      AllNamed(q.list, first, ops, i);
      var ok, e := Do(q, ops[i]);
      if !ok {
        return;
      }
      StillKnown(l, q.list, first, ops, i);
      Shown(q);
      RunAppend(s0, es, e);
      KnownOrder(q.list, q.Order(), first, ops[..i + 1]);
      RecordedStep(s0, first, ops, es, orders, hist, e, q.Order(), q.current);
      hist, es, orders := hist + [q.current], es + [e], orders + [q.Order()];
    }
  }

  lemma KnownOrder(list: seq<Thread>, o: seq<Thread>, first: seq<Thread>, ops: seq<Op>)
    requires Known(list, first, ops) && forall t: Thread :: t in o <==> t in list
    ensures Known(o, first, ops)
  {}

  lemma RecordedAtFirst(s: Sys, first: seq<Thread>, ops: seq<Op>, o: seq<Thread>)
    requires Mirrors(o, s.ring) && forall t: Thread :: t in o <==> t in first
    ensures Recorded(s, first, ops, [], [o], [])
  {
    assert ops[..0] == [];
  }

  lemma RecordedStep(s0: Sys, first: seq<Thread>, ops: seq<Op>, es: seq<Event>, orders: seq<seq<Thread>>,
                     hist: seq<Thread>, e: Event, o: seq<Thread>, t: Thread)
    requires Recorded(s0, first, ops, es, orders, hist) && |es| < |ops|
    requires Means(orders[|es|], ops[|es|], e) && o != [] && t == o[|o| - 1]
    requires Mirrors(o, RoundRobin.Run(s0, es + [e]).ring) && Known(o, first, ops[..|es| + 1])
    ensures Recorded(s0, first, ops, es + [e], orders + [o], hist + [t])
  {
    hide Means, Mirrors, Known, RoundRobin.Run;
    var es', orders', hist' := es + [e], orders + [o], hist + [t];
    forall i | 0 <= i <= |es'| ensures Before(s0, first, ops, es', orders', i) {
      if i <= |es| {
        assert Before(s0, first, ops, es, orders, i) && es'[..i] == es[..i];
      } else {
        assert es'[..i] == es';
      }
    }
    forall i | 0 <= i < |es'| ensures Took(ops, es', orders', hist', i) {
      if i < |es| { assert Took(ops, es, orders, hist, i); }
    }
  }
}
