/** Round-robin scheduling as a transition system (sys/sched/schedule.c,
    sys/task/task.c, sys/time/timer.c).

    The ring lists the scheduled threads in the order SelectNextThread would try
    them: the successor of the current thread first, the current thread last. */
module RoundRobin {
  import opened Wrappers

  datatype State = Terminated | Ready | Running | Blocked

  const PRIORITY_IDLE: int := 0
  const U32_MAX: int := 0xFFFF_FFFF

  datatype Th = Th(id: int, st: State, q: int, prio: int)

  /** CPUTimeFromThreadPriority */
  function CpuTime(prio: int): (n: int)
    ensures 0 <= n <= 60
  {
    if prio == -1 then 0 else if prio == 1 then 1 else if prio == 2 then 12
    else if prio == 3 then 20 else if prio == 4 then 33 else 60
  }

  /** The scheduled threads in trial order, and the NeedsResched flag. */
  datatype Sys = Sys(ring: seq<Th>, resched: bool)

  predicate Eligible(t: Th) { t.st == Ready && t.prio != PRIORITY_IDLE }
  predicate EligibleIdle(t: Th) { t.st == Ready && t.prio == PRIORITY_IDLE }

  function FirstEligible(r: seq<Th>): (j: nat)
    ensures j <= |r| && (j < |r| ==> Eligible(r[j])) && forall i :: 0 <= i < j ==> !Eligible(r[i])
  {
    if r == [] then 0 else if Eligible(r[0]) then 0 else 1 + FirstEligible(r[1..])
  }

  function FirstIdle(r: seq<Th>): (j: nat)
    ensures j <= |r| && (j < |r| ==> EligibleIdle(r[j])) && forall i :: 0 <= i < j ==> !EligibleIdle(r[i])
  {
    if r == [] then 0 else if EligibleIdle(r[0]) then 0 else 1 + FirstIdle(r[1..])
  }

  /** SelectNextThread: the first ready thread that is not idle, else the first
      ready idle one. */
  function Pick(r: seq<Th>): Option<nat>
  {
    if FirstEligible(r) < |r| then Some(FirstEligible(r))
    else if FirstIdle(r) < |r| then Some(FirstIdle(r))
    else None
  }

  lemma {:induction false} FirstEligibleAt(r: seq<Th>, k: int)
    requires 0 <= k < |r| && Eligible(r[k]) && forall i :: 0 <= i < k ==> !Eligible(r[i])
    ensures FirstEligible(r) == k
  {
    if k > 0 { FirstEligibleAt(r[1..], k - 1); }
  }

  lemma {:induction false} FirstIdleAt(r: seq<Th>, k: int)
    requires 0 <= k < |r| && EligibleIdle(r[k]) && forall i :: 0 <= i < k ==> !EligibleIdle(r[i])
    ensures FirstIdle(r) == k
  {
    if k > 0 { FirstIdleAt(r[1..], k - 1); }
  }

  /** Nothing is picked only when nothing is ready. */
  lemma NothingReady(r: seq<Th>)
    requires forall i :: 0 <= i < |r| ==> !Eligible(r[i])
    ensures FirstEligible(r) == |r|
    ensures (forall i :: 0 <= i < |r| ==> !EligibleIdle(r[i])) ==> FirstIdle(r) == |r|
  {}

  /** A thread that is not ready, at the end of the ring, does not change the pick. */
  lemma PickInit(r: seq<Th>)
    requires r != [] && r[|r| - 1].st != Ready
    ensures Pick(r) == Pick(r[..|r| - 1])
  {
    var n := |r| - 1;
    var i := r[..n];
    if FirstEligible(i) < n { FirstEligibleAt(r, FirstEligible(i)); } else { NothingReady(r); }
    if FirstIdle(i) < n { FirstIdleAt(r, FirstIdle(i)); }
  }

  /** ScheduleNext.  Picking the current thread itself only refreshes its quantum. */
  function Schedule(s: Sys): Sys
  {
    if s.ring == [] then s
    else
      match Pick(s.ring)
      case None => s.(resched := false)
      case Some(j) => Sys(Dispatch(s.ring, j), false)
  }

  function Dispatch(r: seq<Th>, j: nat): (r': seq<Th>)
    requires j < |r|
    ensures |r'| == |r|
  {
    var n := |r| - 1;
    var chosen := r[j].(q := CpuTime(r[j].prio));
    if j == n then r[n := chosen]
    else
      var prev := if r[n].st == Running then r[n].(st := Ready) else r[n];
      r[j + 1..][n - j - 1 := prev] + r[..j] + [chosen.(st := Running)]
  }

  // ---------------------------------------------------------------------
  // Events
  // ---------------------------------------------------------------------

  /** What may happen while the kernel runs: the timer, a yield, the current thread blocking
      or exiting, a wake-up, another thread being killed, a new one arriving, and a fault in
      user code, which marks the main thread of the faulting process terminated and leaves it
      on the list (exception.c:41-48).  An index counts positions in the ring; one outside it
      stands for a thread that is not scheduled.  A yield raises the timer's interrupt
      (task.c:156), so it counts as a tick.  `Call` is a wake-up, a kill or an arrival inside
      a system call that leaves by sysexit: that way out does not look at NeedsResched, so a
      reschedule stays due until the next interrupt. */
  datatype Event =
    | Tick
    | Yield
    | Block
    | Wake(i: int)
    | Kill(i: int)
    | Exit
    | Fault(i: int)
    | Add(t: Th, at: int)
    | Call(e: Event)

  predicate NewId(r: seq<Th>, id: int) { forall i :: 0 <= i < |r| ==> r[i].id != id }

  /** PITCallback: `quantum-- == 0` with 32-bit wrap-around. */
  function TickQuantum(t: Th): Th { t.(q := if t.q == 0 then U32_MAX else t.q - 1) }

  /** That is one less, modulo 2^32. */
  lemma TickWraps(t: Th)
    requires 0 <= t.q <= U32_MAX
    ensures TickQuantum(t).q == (t.q + U32_MAX) % (U32_MAX + 1)
  {}

  /** The handler proper. */
  function Handle(s: Sys, e: Event): Sys
    requires s.ring != []
  {
    var n := |s.ring| - 1;
    match e
    case Tick => Sys(s.ring[n := TickQuantum(s.ring[n])], s.resched || s.ring[n].q == 0)
    case Yield => Sys(s.ring[n := TickQuantum(s.ring[n])], true)
    case Block => Sys(s.ring[n := s.ring[n].(st := Blocked)], true)
    case Wake(i) =>
      if !(0 <= i <= n) then s.(resched := true)
      else if s.ring[i].st != Running then Sys(s.ring[i := s.ring[i].(st := Ready)], true) else s
    case Kill(i) =>
      if i == n then s.(ring := s.ring[n := s.ring[n].(st := Terminated)])
      else if 0 <= i < n then s.(ring := s.ring[..i] + s.ring[i + 1..])
      else s
    case Exit => Sys(s.ring[n := s.ring[n].(st := Terminated)], true)
    case Fault(i) =>
      Sys(if 0 <= i <= n then s.ring[i := s.ring[i].(st := Terminated)] else s.ring, true)
    case Add(t, at) =>
      if 0 <= at <= n && NewId(s.ring, t.id)
      then s.(ring := s.ring[..at] + [t.(st := Ready)] + s.ring[at..]) else s
    case Call(c) => if Quick(c) then Handle(s, c) else s
  }

  predicate Quick(e: Event) { e.Wake? || e.Kill? || e.Add? }

  /** An event, then the reschedule on the way out of an interrupt if one is due
      (isr.asm:53).  The exiting thread is unlinked from the ring. */
  function Step(s: Sys, e: Event): Sys
    requires s.ring != []
  {
    var h := Handle(s, e);
    var s' := if h.resched && h.ring != [] && !e.Call? then Schedule(h) else h;
    if e == Exit && Pick(h.ring).Some? then s'.(ring := Drop(s'.ring, h.ring[|h.ring| - 1].id)) else s'
  }

  function Drop(r: seq<Th>, id: int): seq<Th>
  {
    if r == [] then [] else if r[0].id == id then r[1..] else [r[0]] + Drop(r[1..], id)
  }

  // ---------------------------------------------------------------------
  // Waiting time
  // ---------------------------------------------------------------------

  /** The ticks the threads of `r` may take, one turn each. */
  function Turns(r: seq<Th>): nat
  {
    if r == [] then 0 else CpuTime(r[0].prio) + 1 + Turns(r[1..])
  }

  predicate Distinct(r: seq<Th>) { forall i, j :: 0 <= i < j < |r| ==> r[i].id != r[j].id }

  /** Thread `id` waits at position `m`: ready, not idle, not current. */
  ghost predicate Waits(s: Sys, id: int, m: int)
  {
    && 0 <= m < |s.ring| - 1 && s.ring[m].id == id && Eligible(s.ring[m])
    && Distinct(s.ring) && 0 <= s.ring[|s.ring| - 1].q
  }

  /** Ticks that may pass before the thread at `m` runs: the rest of the current
      turn and a full turn for everyone ahead. */
  function Bound(s: Sys, m: int): int
    requires 0 <= m < |s.ring|
  {
    s.ring[|s.ring| - 1].q + 1 + Turns(s.ring[..m])
  }

  predicate Dispatched(s: Sys, id: int)
  {
    s.ring != [] && s.ring[|s.ring| - 1].id == id && s.ring[|s.ring| - 1].st == Running
  }

  lemma {:induction false} TurnsConcat(a: seq<Th>, b: seq<Th>)
    ensures Turns(a + b) == Turns(a) + Turns(b)
  {
    if a == [] {
      assert a + b == b;
    } else {
      TurnsConcat(a[1..], b);
      assert (a + b)[1..] == a[1..] + b;
    }
  }

  /** Turns depend on priorities only. */
  lemma {:induction false} TurnsSame(a: seq<Th>, b: seq<Th>)
    requires |a| == |b| && forall i :: 0 <= i < |a| ==> a[i].prio == b[i].prio
    ensures Turns(a) == Turns(b)
  {
    if a != [] { TurnsSame(a[1..], b[1..]); }
  }

  /** A dispatch while `m` waits: either its turn has come, or it moves up. */
  lemma DispatchAdvances(r: seq<Th>, m: int)
    requires 0 <= m < |r| - 1 && Eligible(r[m]) && Distinct(r)
    ensures Pick(r) == Some(FirstEligible(r)) && FirstEligible(r) <= m
    ensures var j := FirstEligible(r);
            var r' := Dispatch(r, j);
            && Distinct(r') && r[j].id != r[|r| - 1].id
            && r'[|r'| - 1].id == r[j].id && r'[|r'| - 1].st == Running
            && r'[|r'| - 1].q == CpuTime(r'[|r'| - 1].prio)
            && r'[|r'| - 1].prio == r[j].prio && r'[|r| - j - 2].id == r[|r| - 1].id
            && (j < m ==> (r'[m - j - 1] == r[m] && CpuTime(r[j].prio) + 1 + Turns(r'[..m - j - 1]) <= Turns(r[..m])))
  {
    hide Turns, CpuTime, Distinct, FirstEligible;
    var j := FirstEligible(r);
    DispatchDistinct(r, j);
    assert r[j].id != r[|r| - 1].id by { ApartIds(r, j, |r| - 1); }
    if j < m {
      TurnsSplit(r, j, m);
      DispatchTurns(r, j, m);
    }
  }

  lemma ApartIds(r: seq<Th>, i: int, j: int)
    requires 0 <= i < j < |r| && Distinct(r)
    ensures r[i].id != r[j].id
  {}

  lemma DispatchTurns(r: seq<Th>, j: int, m: int)
    requires 0 <= j < m < |r| - 1
    ensures Turns(Dispatch(r, j)[..m - j - 1]) == Turns(r[j + 1..m])
  {
    hide Turns, CpuTime;
    TurnsSame(Dispatch(r, j)[..m - j - 1], r[j + 1..m]);
  }

  lemma TurnsSplit(r: seq<Th>, j: int, m: int)
    requires 0 <= j < m <= |r|
    ensures Turns(r[..m]) == Turns(r[..j]) + CpuTime(r[j].prio) + 1 + Turns(r[j + 1..m])
  {
    TurnsConcat(r[..j], r[j..m]);
    assert r[..j] + r[j..m] == r[..m];
    assert r[j..m][0] == r[j] && r[j..m][1..] == r[j + 1..m];
  }

  lemma DispatchDistinct(r: seq<Th>, j: int)
    requires 0 <= j < |r| - 1 && Distinct(r)
    ensures Distinct(Dispatch(r, j))
  {
    var r' := Dispatch(r, j);
    var n := |r| - 1;
    forall i | 0 <= i < |r'| ensures r'[i].id == r[if i < n - j then j + 1 + i else i - (n - j)].id {}
    forall i, k | 0 <= i < k < |r'| ensures r'[i].id != r'[k].id {
      var a := if i < n - j then j + 1 + i else i - (n - j);
      var b := if k < n - j then j + 1 + k else k - (n - j);
      assert r'[i].id == r[a].id && r'[k].id == r[b].id && a != b;
    }
  }

  /** Dropping a thread behind position `m` disturbs neither `m` nor those ahead. */
  lemma {:induction false} DropBehind(r: seq<Th>, k: int)
    requires 0 <= k < |r| && Distinct(r)
    ensures Drop(r, r[k].id) == r[..k] + r[k + 1..]
  {
    if k > 0 {
      var t := r[1..];
      assert Distinct(t) && t[k - 1] == r[k];
      DropBehind(t, k - 1);
      hide Distinct, Drop;
      assert t[..k - 1] == r[1..k] && t[k..] == r[k + 1..];
      assert [r[0]] + (r[1..k] + r[k + 1..]) == r[..k] + r[k + 1..];
    }
  }

  /** What one step does to a waiting thread: `ticks` have passed, `turns` have been
      added to those ahead of it. */
  ghost predicate Progress(s: Sys, m: int, s': Sys, m': int, id: int, ticks: int, turns: int)
  {
    0 <= m < |s.ring| && Waits(s', id, m') && Bound(s', m') + ticks <= Bound(s, m) + turns
  }

  predicate Kills(s: Sys, e: Event, id: int)
  {
    || ((e.Kill? || e.Fault?) && 0 <= e.i < |s.ring| && s.ring[e.i].id == id)
    || (e.Call? && Kills(s, e.e, id))
  }

  /** The ring after a dispatch; an exiting thread has been unlinked. */
  function AfterDispatch(r: seq<Th>, exit: bool): seq<Th>
    requires FirstEligible(r) < |r|
  {
    var r' := Dispatch(r, FirstEligible(r));
    if exit then Drop(r', r[|r| - 1].id) else r'
  }

  /** A dispatch serves the waiting thread or moves it up. */
  lemma DispatchProgress(s: Sys, r: seq<Th>, id: int, m: int, exit: bool, ticks: int) returns (m': int)
    requires Waits(s, id, m) && |r| == |s.ring| && Eligible(r[m]) && ticks <= s.ring[|s.ring| - 1].q + 1
    requires forall i :: 0 <= i < |r| ==> r[i].id == s.ring[i].id && r[i].prio == s.ring[i].prio
    ensures FirstEligible(r) < |r| && Pick(r) == Some(FirstEligible(r))
    ensures var s' := Sys(AfterDispatch(r, exit), false);
            Dispatched(s', id) || Progress(s, m, s', m', id, ticks, 0)
  {
    hide Pick, FirstEligible, Drop, Turns, Dispatch, Distinct, AfterDispatch, CpuTime;
    SameIds(s.ring, r);
    DispatchAdvances(r, m);
    TurnsSame(r[..m], s.ring[..m]);
    var j := FirstEligible(r);
    AfterDispatchShape(r, exit, m);
    m' := m - j - 1;
    if j < m {
      var ring, r' := AfterDispatch(r, exit), Dispatch(r, j);
      assert Turns(ring[..m']) == Turns(r'[..m']);
      RingProgress(s, ring, id, m, m', ticks);
    }
  }

  lemma SameIds(a: seq<Th>, b: seq<Th>)
    requires |a| == |b| && Distinct(a) && forall i :: 0 <= i < |a| ==> b[i].id == a[i].id
    ensures Distinct(b)
  {}

  lemma RingProgress(s: Sys, ring: seq<Th>, id: int, m: int, m': int, ticks: int)
    requires Waits(s, id, m) && ticks <= s.ring[|s.ring| - 1].q + 1 && 0 <= m' < m && m' < |ring| - 1
    requires Distinct(ring) && ring[m'].id == id && Eligible(ring[m'])
    requires var last := ring[|ring| - 1];
             last.q == CpuTime(last.prio) && CpuTime(last.prio) + 1 + Turns(ring[..m']) <= Turns(s.ring[..m])
    ensures Progress(s, m, Sys(ring, false), m', id, ticks, 0)
  {
    hide Distinct, Turns, CpuTime;
  }

  /** Unlinking the exiting thread leaves everything ahead of it in place. */
  lemma AfterDispatchShape(r: seq<Th>, exit: bool, m: int)
    requires 0 <= m < |r| - 1 && Distinct(r) && FirstEligible(r) <= m
    requires var r' := Dispatch(r, FirstEligible(r));
             Distinct(r') && r'[|r| - FirstEligible(r) - 2].id == r[|r| - 1].id
    ensures var r' := Dispatch(r, FirstEligible(r));
            var ring := AfterDispatch(r, exit);
            var m' := m - FirstEligible(r) - 1;
            && Distinct(ring) && |ring| >= 1 && ring[|ring| - 1] == r'[|r| - 1]
            && (m' >= 0 ==> m' < |ring| - 1 && ring[..m'] == r'[..m'] && ring[m'] == r'[m'])
  {
    hide FirstEligible, Dispatch, Distinct, Drop;
    var r', k := Dispatch(r, FirstEligible(r)), |r| - FirstEligible(r) - 2;
    if exit {
      DropBehind(r', k);
      DropDistinct(r', k);
    }
  }

  lemma DropDistinct(r: seq<Th>, k: int)
    requires 0 <= k < |r| && Distinct(r)
    ensures Distinct(r[..k] + r[k + 1..])
  {
    var t := r[..k] + r[k + 1..];
    forall i | 0 <= i < |t| ensures t[i] == r[if i < k then i else i + 1] {}
  }

  function TicksOf(e: Event): nat { if e == Tick || e == Yield then 1 else 0 }

  /** An arrival may take one turn ahead of the waiting thread. */
  function TurnsOf(e: Event): nat
  {
    if e.Add? then CpuTime(e.t.prio) + 1 else if e.Call? && e.e.Add? then CpuTime(e.e.t.prio) + 1 else 0
  }

  /** A wake-up, a kill or an arrival leaves the thread waiting. */
  lemma QuickProgress(s: Sys, e: Event, id: int, m: int) returns (m': int)
    requires Waits(s, id, m) && Quick(e) && !Kills(s, e, id)
    ensures Progress(s, m, Handle(s, e), m', id, 0, TurnsOf(e))
  {
    hide Turns, CpuTime;
    var h, n := Handle(s, e), |s.ring| - 1;
    if e.Kill? && 0 <= e.i < n {
      m' := KillProgress(s, e.i, id, m);
    } else if e.Add? && h != s {
      m' := AddProgress(s, e.t.(st := Ready), e.at, id, m);
    } else {
      m' := m;
      HandleKeeps(s, e, id, m);
      hide Handle, Distinct;
      TurnsSame(h.ring[..m], s.ring[..m]);
    }
  }

  /** Every event either serves the waiting thread, or leaves it waiting with a
      bound that a tick has lowered and only an arrival has raised. */
  lemma StepProgress(s: Sys, e: Event, id: int, m: int) returns (m': int)
    requires Waits(s, id, m) && !Kills(s, e, id)
    ensures Dispatched(Step(s, e), id) || Progress(s, m, Step(s, e), m', id, TicksOf(e), TurnsOf(e))
  {
    if e.Call? {
      m' := CallProgress(s, e, id, m);
    } else if Quick(e) {
      m' := QuickStep(s, e, id, m);
    } else {
      m' := SlowStep(s, e, id, m);
    }
  }

  lemma CallProgress(s: Sys, e: Event, id: int, m: int) returns (m': int)
    requires Waits(s, id, m) && e.Call? && !Kills(s, e, id)
    ensures Progress(s, m, Step(s, e), m', id, TicksOf(e), TurnsOf(e))
  {
    hide Turns, CpuTime, Distinct;
    m' := m;
    if Quick(e.e) { m' := QuickProgress(s, e.e, id, m); }
  }

  /** In an interrupt a reschedule that was due takes place on the way out. */
  lemma QuickStep(s: Sys, e: Event, id: int, m: int) returns (m': int)
    requires Waits(s, id, m) && Quick(e) && !Kills(s, e, id)
    ensures Dispatched(Step(s, e), id) || Progress(s, m, Step(s, e), m', id, TicksOf(e), TurnsOf(e))
  {
    hide Pick, Dispatch, Drop, Turns, FirstEligible, CpuTime, AfterDispatch, Handle, Distinct;
    var h := Handle(s, e);
    var m1 := QuickProgress(s, e, id, m);
    m' := m1;
    if h.resched {
      m' := DispatchProgress(h, h.ring, id, m1, false, 0);
      StepDispatches(s, e);
    } else {
      assert Step(s, e) == h;
    }
  }

  lemma SlowStep(s: Sys, e: Event, id: int, m: int) returns (m': int)
    requires Waits(s, id, m) && !Quick(e) && !e.Call? && !Kills(s, e, id)
    ensures Dispatched(Step(s, e), id) || Progress(s, m, Step(s, e), m', id, TicksOf(e), TurnsOf(e))
  {
    hide Pick, Dispatch, Drop, Turns, FirstEligible, CpuTime, AfterDispatch;
    var h := Handle(s, e);
    HandleKeeps(s, e, id, m);
    hide Handle, Distinct;
    if h.resched {
      m' := DispatchProgress(s, h.ring, id, m, e == Exit, TicksOf(e));
      StepDispatches(s, e);
    } else {
      m' := m;
      TurnsSame(h.ring[..m], s.ring[..m]);
      assert Step(s, e) == h;
    }
  }

  lemma StepDispatches(s: Sys, e: Event)
    requires s.ring != [] && Handle(s, e).resched && Handle(s, e).ring != [] && !e.Call?
    requires var r := Handle(s, e).ring; FirstEligible(r) < |r| && Pick(r) == Some(FirstEligible(r))
    ensures Step(s, e) == Sys(AfterDispatch(Handle(s, e).ring, e == Exit), false)
  {
    hide Handle, Dispatch, Drop, FirstEligible;
  }

  /** No handler but a kill moves threads, and none touches a waiting one. */
  lemma HandleKeeps(s: Sys, e: Event, id: int, m: int)
    requires Waits(s, id, m) && !Kills(s, e, id)
    requires !e.Call? && !(e.Kill? && 0 <= e.i < |s.ring| - 1) && (e.Add? ==> Handle(s, e) == s)
    ensures var h, n := Handle(s, e), |s.ring| - 1;
            && |h.ring| == |s.ring| && h.ring[m].id == id && Eligible(h.ring[m]) && Distinct(h.ring)
            && (forall i :: 0 <= i < |h.ring| ==> h.ring[i].id == s.ring[i].id && h.ring[i].prio == s.ring[i].prio)
            && (Quick(e) ==> h.ring[n].q == s.ring[n].q)
            && (h.resched ==> TicksOf(e) <= s.ring[n].q + 1)
            && (!h.resched ==> e != Exit && 0 <= h.ring[n].q && h.ring[n].q + TicksOf(e) <= s.ring[n].q)
  {}

  lemma KillProgress(s: Sys, i: int, id: int, m: int) returns (m': int)
    requires Waits(s, id, m) && 0 <= i < |s.ring| - 1 && i != m
    ensures Progress(s, m, s.(ring := s.ring[..i] + s.ring[i + 1..]), m', id, 0, 0)
  {
    hide Turns;
    var r := s.ring[..i] + s.ring[i + 1..];
    DropDistinct(s.ring, i);
    hide Distinct;
    if i < m {
      m' := m - 1;
      TurnsSplit(s.ring, i, m);
      TurnsConcat(s.ring[..i], s.ring[i + 1..m]);
      assert r[..m - 1] == s.ring[..i] + s.ring[i + 1..m];
    } else {
      m' := m;
      assert r[..m] == s.ring[..m];
    }
  }

  lemma AddProgress(s: Sys, t: Th, at: int, id: int, m: int) returns (m': int)
    requires Waits(s, id, m) && 0 <= at < |s.ring| && NewId(s.ring, t.id)
    ensures Progress(s, m, s.(ring := s.ring[..at] + [t] + s.ring[at..]), m', id, 0, CpuTime(t.prio) + 1)
  {
    hide Turns, CpuTime;
    var r := s.ring[..at] + [t] + s.ring[at..];
    AddDistinct(s.ring, t, at);
    hide Distinct;
    if at <= m {
      m' := m + 1;
      TurnsSplit(r, at, m + 1);
      TurnsConcat(s.ring[..at], s.ring[at..m]);
      assert s.ring[..m] == s.ring[..at] + s.ring[at..m];
      assert r[..at] == s.ring[..at] && r[at + 1..m + 1] == s.ring[at..m];
    } else {
      m' := m;
      assert r[..m] == s.ring[..m];
    }
  }

  lemma AddDistinct(r: seq<Th>, t: Th, at: int)
    requires 0 <= at < |r| && Distinct(r) && NewId(r, t.id)
    ensures Distinct(r[..at] + [t] + r[at..])
  {
    var u := r[..at] + [t] + r[at..];
    forall i | 0 <= i < |u| ensures u[i] == if i < at then r[i] else if i == at then t else r[i - 1] {}
  }

  // ---------------------------------------------------------------------
  // Whole runs
  // ---------------------------------------------------------------------

  function Run(s: Sys, es: seq<Event>): Sys
    decreases |es|
  {
    if es == [] then s
    else
      var r := Run(s, es[..|es| - 1]);
      if r.ring == [] then r else Step(r, es[|es| - 1])
  }

  function Ticks(es: seq<Event>): nat
  {
    if es == [] then 0 else TicksOf(es[0]) + Ticks(es[1..])
  }

  /** The turns of the threads arriving during the run. */
  function Arrivals(es: seq<Event>): nat
  {
    if es == [] then 0 else TurnsOf(es[0]) + Arrivals(es[1..])
  }

  /** No event of the run, up to the moment the thread is served, kills it. */
  ghost predicate Spared(s: Sys, es: seq<Event>, id: int)
    decreases |es|
  {
    es == [] || s.ring == [] || Dispatched(s, id) ||
    (!Kills(s, es[0], id) && Spared(Step(s, es[0]), es[1..], id))
  }

  /** The thread is dispatched by some event of the run. */
  ghost predicate Served(s: Sys, es: seq<Event>, id: int)
    decreases |es|
  {
    es != [] && s.ring != [] && (Dispatched(Step(s, es[0]), id) || Served(Step(s, es[0]), es[1..], id))
  }

  /** Bounded waiting: in every run a ready, non-idle thread is dispatched before
      `Bound` ticks have passed, plus a turn for each thread that arrives. */
  lemma {:induction false} BoundedWaiting(s: Sys, es: seq<Event>, id: int, m: int)
    requires Waits(s, id, m) && Spared(s, es, id) && Ticks(es) >= Bound(s, m) + Arrivals(es)
    ensures Served(s, es, id)
    decreases |es|
  {
    var s' := Step(s, es[0]);
    var m' := StepProgress(s, es[0], id, m);
    if !Dispatched(s', id) {
      assert !Dispatched(s, id);
      BoundedWaiting(s', es[1..], id, m');
    }
  }

  /** The bound is one full turn for the current thread and everyone ahead. */
  lemma BoundIsTurns(s: Sys, id: int, m: int)
    requires Waits(s, id, m) && s.ring[|s.ring| - 1].q <= CpuTime(s.ring[|s.ring| - 1].prio)
    ensures Bound(s, m) <= Turns([s.ring[|s.ring| - 1]] + s.ring[..m])
  {
    TurnsConcat([s.ring[|s.ring| - 1]], s.ring[..m]);
    assert Turns([s.ring[|s.ring| - 1]]) == CpuTime(s.ring[|s.ring| - 1].prio) + 1 by {
      assert [s.ring[|s.ring| - 1]][1..] == [];
    }
  }

  // ---------------------------------------------------------------------
  // Who can run
  // ---------------------------------------------------------------------

  /** No two threads share an identifier, and only the current one is running. */
  ghost predicate Proper(s: Sys)
  {
    s.ring != [] && Distinct(s.ring) && forall i :: 0 <= i < |s.ring| - 1 ==> s.ring[i].st != Running
  }

  predicate RunnableAt(s: Sys, id: int, m: int)
  {
    0 <= m < |s.ring| && s.ring[m].id == id && (s.ring[m].st == Ready || s.ring[m].st == Running)
  }

  /** Thread `id` is scheduled and ready or running. */
  ghost predicate Runnable(s: Sys, id: int) { exists m :: RunnableAt(s, id, m) }

  predicate Named(s: Sys, i: int, id: int) { 0 <= i < |s.ring| && s.ring[i].id == id }

  /** The event takes the processor away from thread `id` for good: it blocks or exits, or it is
      killed, or it is the one a fault marks. */
  predicate Stops(s: Sys, e: Event, id: int)
  {
    match e
    case Block => Named(s, |s.ring| - 1, id)
    case Exit => Named(s, |s.ring| - 1, id)
    case Kill(i) => Named(s, i, id)
    case Fault(i) => Named(s, i, id)
    case Call(c) => c.Kill? && Named(s, c.i, id)
    case _ => false
  }

  /** The event wakes thread `id` up, or is its arrival. */
  predicate Rouses(s: Sys, e: Event, id: int)
  {
    match e
    case Wake(i) => Named(s, i, id)
    case Add(t, at) => t.id == id && 0 <= at < |s.ring| && NewId(s.ring, id)
    case Call(c) => (c.Wake? || c.Add?) && Rouses(s, c, id)
    case _ => false
  }

  predicate CanRun(t: Th) { t.st == Ready || t.st == Running }

  /** Where the thread at place `m` after a dispatch was before it. */
  function Came(n: int, j: int, m: int): int { if m < n - j then j + 1 + m else m - (n - j) }

  lemma DispatchAt(r: seq<Th>, j: int, m: int)
    requires 0 <= j < |r| - 1 && r[j].st == Ready && 0 <= m < |r|
    requires forall i :: 0 <= i < |r| - 1 ==> r[i].st != Running
    ensures var r', i := Dispatch(r, j), Came(|r| - 1, j, m);
            && 0 <= i < |r| && r'[m].id == r[i].id && (CanRun(r'[m]) <==> CanRun(r[i]))
            && (m < |r| - 1 ==> r'[m].st != Running)
  {}

  lemma DispatchKeeps(s: Sys, j: int, id: int)
    requires Proper(s) && 0 <= j < |s.ring| - 1 && s.ring[j].st == Ready
    ensures var s' := Sys(Dispatch(s.ring, j), false);
            Proper(s') && (Runnable(s', id) <==> Runnable(s, id))
  {
    var s', n := Sys(Dispatch(s.ring, j), false), |s.ring| - 1;
    DispatchDistinct(s.ring, j);
    hide Distinct, Dispatch;
    forall m | 0 <= m <= n
      ensures s'.ring[m].id == s.ring[Came(n, j, m)].id && (CanRun(s'.ring[m]) <==> CanRun(s.ring[Came(n, j, m)]))
      ensures m < n ==> s'.ring[m].st != Running
    {
      DispatchAt(s.ring, j, m);
    }
    forall m | RunnableAt(s', id, m) ensures RunnableAt(s, id, Came(n, j, m)) {}
    forall m | RunnableAt(s, id, m) ensures RunnableAt(s', id, if m <= j then n - j + m else m - j - 1) {
      var k := if m <= j then n - j + m else m - j - 1;
      assert Came(n, j, k) == m;
    }
  }

  /** A reschedule changes who runs, not who can. */
  lemma ScheduleKeeps(s: Sys, id: int)
    requires Proper(s)
    ensures Proper(Schedule(s)) && (Runnable(Schedule(s), id) <==> Runnable(s, id))
  {
    hide FirstEligible, FirstIdle;
    var s', n := Schedule(s), |s.ring| - 1;
    if Pick(s.ring).Some? && Pick(s.ring).value < n {
      DispatchKeeps(s, Pick(s.ring).value, id);
    } else {
      SameIds(s.ring, s'.ring);
      hide Distinct;
      forall m ensures RunnableAt(s', id, m) <==> RunnableAt(s, id, m) {}
    }
  }

  /** Unlinking a thread takes it, and nobody else, off the ring. */
  lemma UnlinkKeeps(s: Sys, k: int, id: int)
    requires Proper(s) && 0 <= k < |s.ring| - 1
    ensures var s' := s.(ring := s.ring[..k] + s.ring[k + 1..]);
            Proper(s') && (Runnable(s', id) <==> Runnable(s, id) && s.ring[k].id != id)
  {
    DropDistinct(s.ring, k);
    var s' := s.(ring := s.ring[..k] + s.ring[k + 1..]);
    if s.ring[k].id != id {
      forall m | RunnableAt(s, id, m) ensures RunnableAt(s', id, if m < k then m else m - 1) {}
    }
    forall m | RunnableAt(s', id, m) ensures RunnableAt(s, id, if m < k then m else m + 1) && s.ring[k].id != id {
      var i := if m < k then m else m + 1;
      if i < k { ApartIds(s.ring, i, k); } else { ApartIds(s.ring, k, i); }
    }
  }

  /** A change to the state of the thread at `k`. */
  lemma SetKeeps(s: Sys, k: int, t: Th, id: int)
    requires Proper(s) && 0 <= k < |s.ring| && t.id == s.ring[k].id && (t.st == Running ==> k == |s.ring| - 1)
    ensures var s' := s.(ring := s.ring[k := t]);
            && Proper(s')
            && (Runnable(s', id) <==>
                  if t.id == id then t.st == Ready || t.st == Running else Runnable(s, id))
  {
    var s' := s.(ring := s.ring[k := t]);
    SameIds(s.ring, s'.ring);
    forall m | 0 <= m < |s.ring| && m != k ensures s.ring[m].id != t.id {
      if m < k { ApartIds(s.ring, m, k); } else { ApartIds(s.ring, k, m); }
    }
    hide Distinct;
    if t.id == id {
      if t.st == Ready || t.st == Running { assert RunnableAt(s', id, k); }
    } else {
      forall m ensures RunnableAt(s', id, m) <==> RunnableAt(s, id, m) {}
    }
  }

  lemma ArriveKeeps(s: Sys, t: Th, at: int, id: int)
    requires Proper(s) && 0 <= at < |s.ring| && NewId(s.ring, t.id) && t.st == Ready
    ensures var s' := s.(ring := s.ring[..at] + [t] + s.ring[at..]);
            Proper(s') && (Runnable(s', id) <==> Runnable(s, id) || t.id == id)
  {
    AddDistinct(s.ring, t, at);
    hide Distinct;
    var s' := s.(ring := s.ring[..at] + [t] + s.ring[at..]);
    if t.id == id { assert RunnableAt(s', id, at); }
    forall m | RunnableAt(s, id, m) ensures RunnableAt(s', id, if m < at then m else m + 1) {}
    forall m | RunnableAt(s', id, m) && m != at ensures RunnableAt(s, id, if m < at then m else m - 1) {}
  }

  /** At which place thread `id` is, if it can run. */
  lemma NamedRunnable(s: Sys, i: int, id: int)
    requires Proper(s) && Named(s, i, id)
    ensures Runnable(s, id) <==> s.ring[i].st == Ready || s.ring[i].st == Running
  {
    if s.ring[i].st == Ready || s.ring[i].st == Running { assert RunnableAt(s, id, i); }
    forall m | RunnableAt(s, id, m) ensures m == i {
      if m < i { ApartIds(s.ring, m, i); } else if i < m { ApartIds(s.ring, i, m); }
    }
  }

  lemma FlagKeeps(s: Sys, flag: bool, id: int)
    requires Proper(s)
    ensures Proper(s.(resched := flag)) && (Runnable(s.(resched := flag), id) <==> Runnable(s, id))
  {
    forall m ensures RunnableAt(s.(resched := flag), id, m) <==> RunnableAt(s, id, m) {}
  }

  lemma HandleRunnable(s: Sys, e: Event, id: int)
    requires Proper(s)
    ensures Proper(Handle(s, e))
    ensures Runnable(Handle(s, e), id) <==> (Runnable(s, id) && !Stops(s, e, id)) || Rouses(s, e, id)
  {
    hide Proper, Runnable, Distinct;
    assert s.ring != [] by { ProperRing(s); }
    var n, h := |s.ring| - 1, Handle(s, e);
    match e
    case Tick =>
      SetKeeps(s, n, TickQuantum(s.ring[n]), id);
      FlagKeeps(s.(ring := h.ring), h.resched, id);
      if s.ring[n].id == id { NamedRunnable(s, n, id); }
    case Yield =>
      SetKeeps(s, n, TickQuantum(s.ring[n]), id);
      FlagKeeps(s.(ring := h.ring), h.resched, id);
      if s.ring[n].id == id { NamedRunnable(s, n, id); }
    case Block =>
      SetKeeps(s, n, s.ring[n].(st := Blocked), id);
      FlagKeeps(s.(ring := h.ring), true, id);
    case Wake(i) =>
      if 0 <= i <= n && s.ring[i].st != Running { SetKeeps(s, i, s.ring[i].(st := Ready), id); }
      if Named(s, i, id) { NamedRunnable(s, i, id); }
      FlagKeeps(s.(ring := h.ring), h.resched, id);
    case Kill(i) =>
      if i == n {
        SetKeeps(s, n, s.ring[n].(st := Terminated), id);
      } else if 0 <= i < n {
        UnlinkKeeps(s, i, id);
      }
    case Exit =>
      SetKeeps(s, n, s.ring[n].(st := Terminated), id);
      FlagKeeps(s.(ring := h.ring), true, id);
    case Fault(i) =>
      if 0 <= i <= n { SetKeeps(s, i, s.ring[i].(st := Terminated), id); }
      FlagKeeps(s.(ring := h.ring), true, id);
    case Add(t, at) =>
      if 0 <= at <= n && NewId(s.ring, t.id) { ArriveKeeps(s, t.(st := Ready), at, id); }
    case Call(c) =>
      if Quick(c) { HandleRunnable(s, c, id); }
  }

  lemma ProperRing(s: Sys)
    requires Proper(s)
    ensures s.ring != []
  {}

  /** Who can run after an event: whoever could and was not stopped, and whoever was roused. */
  lemma RunnableExactly(s: Sys, e: Event, id: int)
    requires Proper(s)
    ensures Proper(Step(s, e))
    ensures Runnable(Step(s, e), id) <==> (Runnable(s, id) && !Stops(s, e, id)) || Rouses(s, e, id)
  {
    HandleRunnable(s, e, id);
    var h := Handle(s, e);
    if h.resched && !e.Call? { ScheduleKeeps(h, id); }
    if e == Exit && Pick(h.ring).Some? {
      ExitKeeps(s, id);
    }
    hide Handle, Schedule, Proper, Runnable, Stops, Rouses;
  }

  /** Where a switch leaves a current thread that was not ready. */
  lemma SwitchPlace(s: Sys)
    requires Proper(s) && Pick(s.ring).Some? && s.ring[|s.ring| - 1].st != Ready
    ensures var j, n, s' := Pick(s.ring).value, |s.ring| - 1, Schedule(s);
            && j < n && |s'.ring| == n + 1 && s'.ring[n - j - 1].id == s.ring[n].id && s'.ring[n].st == Running
            && s'.ring[n].id != s.ring[n].id
  {
    var j, n := Pick(s.ring).value, |s.ring| - 1;
    assert s.ring[j].st == Ready && j < n;
    ApartIds(s.ring, j, n);
    hide Distinct, Proper, Pick;
  }

  lemma ExitKeeps(s: Sys, id: int)
    requires Proper(s) && Pick(Handle(s, Exit).ring).Some?
    ensures Proper(Step(s, Exit)) && (Runnable(Step(s, Exit), id) <==> Runnable(s, id) && !Stops(s, Exit, id))
  {
    var h, n := Handle(s, Exit), |s.ring| - 1;
    HandleRunnable(s, Exit, id);
    SwitchPlace(h);
    ScheduleKeeps(h, id);
    var k, s' := n - Pick(h.ring).value - 1, Schedule(h);
    DropBehind(s'.ring, k);
    hide Distinct, Drop, Pick, Runnable, Stops, Schedule, Proper;
    UnlinkKeeps(s', k, id);
  }

  /** No event of the run rouses the thread. */
  ghost predicate NeverRoused(s: Sys, es: seq<Event>, id: int)
  {
    forall k :: 0 <= k < |es| ==> !Rouses(Run(s, es[..k]), es[k], id)
  }

  ghost predicate NeverStopped(s: Sys, es: seq<Event>, id: int)
  {
    forall k :: 0 <= k < |es| ==> !Stops(Run(s, es[..k]), es[k], id)
  }

  lemma RunStep(s: Sys, es: seq<Event>, k: nat)
    requires k < |es| && Proper(Run(s, es[..k]))
    ensures Run(s, es[..k + 1]) == Step(Run(s, es[..k]), es[k])
  {
    assert es[..k + 1][..k] == es[..k];
  }

  lemma RunStart(s: Sys, es: seq<Event>)
    ensures Run(s, es[..0]) == s
  {
    assert es[..0] == [];
  }

  lemma {:induction false} RunProper(s: Sys, es: seq<Event>, k: nat)
    requires Proper(s) && k <= |es|
    ensures Proper(Run(s, es[..k]))
  {
    hide Run, Step, Proper, Runnable, Rouses, Stops;
    RunStart(s, es);
    if k > 0 {
      RunProper(s, es, k - 1);
      RunStep(s, es, k - 1);
      RunnableExactly(Run(s, es[..k - 1]), es[k - 1], 0);
    }
  }

  /** A thread that cannot run does not run until it is roused. */
  lemma {:induction false} StaysOff(s: Sys, es: seq<Event>, id: int, k: nat)
    requires Proper(s) && !Runnable(s, id) && NeverRoused(s, es, id) && k <= |es|
    ensures !Runnable(Run(s, es[..k]), id) && !Dispatched(Run(s, es[..k]), id)
  {
    hide Run, Step, Proper, Runnable, Rouses, Stops, Dispatched;
    RunStart(s, es);
    if k > 0 {
      StaysOff(s, es, id, k - 1);
      RunProper(s, es, k - 1);
      RunStep(s, es, k - 1);
      assert !Rouses(Run(s, es[..k - 1]), es[k - 1], id);
      RunnableExactly(Run(s, es[..k - 1]), es[k - 1], id);
    }
    if Dispatched(Run(s, es[..k]), id) { DispatchedRuns(Run(s, es[..k]), id); }
  }

  lemma DispatchedRuns(s: Sys, id: int)
    requires Dispatched(s, id)
    ensures Runnable(s, id)
  {
    assert RunnableAt(s, id, |s.ring| - 1);
  }

  /** A thread that can run can run until it is stopped. */
  lemma {:induction false} StaysOn(s: Sys, es: seq<Event>, id: int, k: nat)
    requires Proper(s) && Runnable(s, id) && NeverStopped(s, es, id) && k <= |es|
    ensures Runnable(Run(s, es[..k]), id)
  {
    hide Run, Step, Proper, Runnable, Rouses, Stops;
    RunStart(s, es);
    if k > 0 {
      StaysOn(s, es, id, k - 1);
      RunProper(s, es, k - 1);
      RunStep(s, es, k - 1);
      assert !Stops(Run(s, es[..k - 1]), es[k - 1], id);
      RunnableExactly(Run(s, es[..k - 1]), es[k - 1], id);
    }
  }

  /** Blocking, exiting, being killed or marked by a fault: in every run the thread is not
      dispatched again before it is roused. */
  lemma OffUntilRoused(s: Sys, e: Event, es: seq<Event>, id: int, k: nat)
    requires Proper(s) && Stops(s, e, id) && NeverRoused(Step(s, e), es, id) && k <= |es|
    ensures !Dispatched(Run(Step(s, e), es[..k]), id) && !Runnable(Run(Step(s, e), es[..k]), id)
  {
    RunnableExactly(s, e, id);
    assert !Rouses(s, e, id);
    StaysOff(Step(s, e), es, id, k);
  }

  /** A wake-up rouses even a thread that a fault has marked terminated. */
  lemma FaultThenWake(s: Sys, i: int, k: int, id: int)
    requires Proper(s) && Named(s, i, id) && Named(Step(s, Fault(i)), k, id)
    ensures !Runnable(Step(s, Fault(i)), id) && Runnable(Step(Step(s, Fault(i)), Wake(k)), id)
  {
    hide Step, Runnable, Proper;
    RunnableExactly(s, Fault(i), id);
    RunnableExactly(Step(s, Fault(i)), Wake(k), id);
  }

  /** A roused thread that is not idle waits its turn, unless it is current already: it is
      dispatched within its bound. */
  lemma ServedOnceRoused(s: Sys, e: Event, es: seq<Event>, id: int, m: int)
    requires Proper(s) && Rouses(s, e, id) && Named(Step(s, e), m, id) && m < |Step(s, e).ring| - 1
    requires Step(s, e).ring[m].prio != PRIORITY_IDLE && 0 <= Step(s, e).ring[|Step(s, e).ring| - 1].q
    requires Spared(Step(s, e), es, id) && Ticks(es) >= Bound(Step(s, e), m) + Arrivals(es)
    ensures Served(Step(s, e), es, id)
  {
    RunnableExactly(s, e, id);
    var s' := Step(s, e);
    hide Step;
    NamedRunnable(s', m, id);
    BoundedWaiting(s', es, id, m);
  }

  /** Nothing but the current thread is ready. */
  predicate Stuck(s: Sys) { s.ring != [] && Pick(s.ring[..|s.ring| - 1]) == None }

  /** A thread that cannot run is current after an event only if it was current before it. */
  lemma NotBack(s: Sys, e: Event)
    requires Proper(s)
    ensures var s' := Step(s, e);
            && s'.ring != []
            && var last := s'.ring[|s'.ring| - 1];
               !Runnable(s', last.id) ==> last.id == s.ring[|s.ring| - 1].id
  {
    RunnableExactly(s, e, 0);
    HandleRunnable(s, e, 0);
    HandleLast(s, e);
    var h, s' := Handle(s, e), Step(s, e);
    if h.resched && !e.Call? && Pick(h.ring).Some? {
      SwitchedTo(s, e);
      hide Step;
      assert RunnableAt(s', s'.ring[|s'.ring| - 1].id, |s'.ring| - 1);
    } else {
      hide Distinct, Pick, Handle;
      assert s'.ring == h.ring;
    }
  }

  /** No handler makes another thread current. */
  lemma HandleLast(s: Sys, e: Event)
    requires s.ring != []
    ensures Handle(s, e).ring != []
    ensures var r := Handle(s, e).ring; r[|r| - 1].id == s.ring[|s.ring| - 1].id
  {}

  /** After a switch the current thread is running, or it was current and ready. */
  lemma SwitchedTo(s: Sys, e: Event)
    requires Proper(s) && Proper(Handle(s, e)) && Handle(s, e).resched && !e.Call? && Pick(Handle(s, e).ring).Some?
    ensures var r := Step(s, e).ring; r != [] && (r[|r| - 1].st == Running || r[|r| - 1].st == Ready)
  {
    var h := Handle(s, e);
    assert h.ring[Pick(h.ring).value].st == Ready;
    if e == Exit { SwitchPlace(h); DroppedLast(h); }
  }

  predicate Current(s: Sys, id: int) { s.ring != [] && s.ring[|s.ring| - 1].id == id }

  /** The current thread is not left READY by the event, and its turn is over: it yields, blocks
      or exits, or a tick finds its quantum used up or a reschedule due. */
  predicate TurnOver(s: Sys, e: Event)
    requires s.ring != []
  {
    var last := s.ring[|s.ring| - 1];
    match e
    case Block => true
    case Exit => true
    case Yield => last.st != Ready
    case Tick => last.st != Ready && (s.resched || last.q == 0)
    case _ => false
  }

  /** At the end of its turn the current thread loses the processor exactly if another thread is
      ready. */
  lemma GivesUpExactly(s: Sys, e: Event)
    requires Proper(s) && TurnOver(s, e)
    ensures Current(Step(s, e), s.ring[|s.ring| - 1].id) <==> Stuck(s)
  {
    hide Handle, Pick, Schedule, Drop, TurnOver, Step;
    GivesUpHandle(s, e);
    HandleRunnable(s, e, 0);
    StepIs(s, e);
    var h := Handle(s, e);
    PickInit(h.ring);
    hide Proper;
    AfterSwitch(h, e == Exit);
  }

  /** A switch away from a thread that is not ready. */
  lemma AfterSwitch(h: Sys, exit: bool)
    requires Proper(h) && h.ring[|h.ring| - 1].st != Ready
    ensures var r, last := Schedule(h).ring, h.ring[|h.ring| - 1].id;
            Current(Sys(if exit && Pick(h.ring).Some? then Drop(r, last) else r, false), last) <==> Pick(h.ring) == None
  {
    hide Pick, Schedule, Drop;
    if Pick(h.ring).Some? {
      SwitchPlace(h);
      DroppedLast(h);
    } else {
      ScheduleNobody(h);
    }
  }

  /** Before the end of its turn a tick leaves it current. */
  lemma TickStays(s: Sys)
    requires Proper(s) && !s.resched && s.ring[|s.ring| - 1].q > 0
    ensures Current(Step(s, Tick), s.ring[|s.ring| - 1].id)
  {}

  lemma StepIs(s: Sys, e: Event)
    requires s.ring != [] && Handle(s, e).ring != [] && !e.Call? && (e == Exit ==> Handle(s, e).resched)
    ensures var h := Handle(s, e);
            Step(s, e).ring ==
              if !h.resched then h.ring
              else if e == Exit && Pick(h.ring).Some? then Drop(Schedule(h).ring, h.ring[|h.ring| - 1].id)
              else Schedule(h).ring
  {
    hide Handle, Pick, Schedule, Drop;
  }

  lemma ScheduleNobody(s: Sys)
    requires Pick(s.ring) == None
    ensures Schedule(s).ring == s.ring
  {}

  lemma GivesUpHandle(s: Sys, e: Event)
    requires s.ring != [] && TurnOver(s, e)
    ensures var h, n := Handle(s, e), |s.ring| - 1;
            && |h.ring| == n + 1 && h.ring[..n] == s.ring[..n] && h.ring[n].st != Ready && h.ring[n].id == s.ring[n].id
            && h.resched && !e.Call?
  {}

  /** Unlinking the thread that has exited does not change who is current. */
  lemma DroppedLast(h: Sys)
    requires Proper(h) && Pick(h.ring).Some? && h.ring[|h.ring| - 1].st != Ready
    ensures var r, d := Schedule(h).ring, Drop(Schedule(h).ring, h.ring[|h.ring| - 1].id);
            r != [] && d != [] && d[|d| - 1] == r[|r| - 1]
  {
    SwitchPlace(h);
    ScheduleKeeps(h, 0);
    hide Distinct, Drop, Schedule, Pick;
    DropBehind(Schedule(h).ring, |h.ring| - 2 - Pick(h.ring).value);
  }

  /** A system call that leaves by sysexit keeps the processor. */
  lemma CallStays(s: Sys, e: Event)
    requires Proper(s)
    ensures var r := Step(s, Call(e)).ring; r != [] && r[|r| - 1].id == s.ring[|s.ring| - 1].id
  {
    HandleLast(s, Call(e));
  }
}
