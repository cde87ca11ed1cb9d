/** The scheduler's linked thread list (sys/sched/schedule.c), the thread state
    changes (sys/task/task.c), the exit system call (sys/syscall/syscall.c) and the
    timer callback (sys/time/timer.c), proved to refine the transition system of
    RoundRobin: after each operation the list, read from the successor of the
    current thread around to the current thread, is what RoundRobin computes. */
module Scheduler {
  import opened RoundRobin
  import opened Wrappers

  class Thread {
    const id: int
    const priority: int
    var state: State
    var quantum: int
    var next: Thread?

    constructor (id: int, priority: int)
      ensures this.id == id && this.priority == priority && next == null && state == Ready
    {
      this.id := id;
      this.priority := priority;
      state := Ready;
      quantum := 0;
      next := null;
    }

    ghost function View(): Th
      reads `state, `quantum
    {
      Th(id, state, quantum, priority)
    }
  }

  ghost function Views(ts: seq<Thread>): (r: seq<Th>)
    reads ts
    ensures |r| == |ts| && forall i :: 0 <= i < |ts| ==> r[i] == ts[i].View()
  {
    seq(|ts|, i requires 0 <= i < |ts| reads ts => ts[i].View())
  }

  // ---------------------------------------------------------------------
  // Lists and rotations
  // ---------------------------------------------------------------------

  /** The list from the successor of position `p` around to `p` itself. */
  function Rotate(list: seq<Thread>, p: int): (r: seq<Thread>)
    requires 0 <= p < |list|
    ensures |r| == |list| && r[|r| - 1] == list[p]
  {
    list[p + 1..] + list[..p + 1]
  }

  ghost predicate DistinctIds(list: seq<Thread>)
  {
    forall i, j :: 0 <= i < j < |list| ==> list[i].id != list[j].id
  }

  function Follower(list: seq<Thread>, i: int): Thread?
    requires 0 <= i < |list|
  {
    if i + 1 < |list| then list[i + 1] else null
  }

  ghost predicate NextAt(list: seq<Thread>, i: int)
    reads list`next
  {
    0 <= i < |list| ==> list[i].next == Follower(list, i)
  }

  ghost predicate Chained(list: seq<Thread>)
    reads list`next
  {
    forall i :: 0 <= i < |list| ==> NextAt(list, i)
  }

  /** Where the `k`-th thread of a rotation sits in the list. */
  function Place(n: int, p: int, k: int): (i: int)
    requires 0 <= p < n && 0 <= k < n
    ensures 0 <= i < n
  {
    if p + 1 + k < n then p + 1 + k else p + 1 + k - n
  }

  lemma RotateAt(list: seq<Thread>, p: int, k: int)
    requires 0 <= p < |list| && 0 <= k < |list|
    ensures Rotate(list, p)[k] == list[Place(|list|, p, k)]
  {}

  lemma RotateDistinct(list: seq<Thread>, p: int)
    requires 0 <= p < |list| && DistinctIds(list)
    ensures DistinctIds(Rotate(list, p))
  {
    var o, n := Rotate(list, p), |list|;
    forall i, k | 0 <= i < k < n ensures o[i].id != o[k].id {
      RotateAt(list, p, i);
      RotateAt(list, p, k);
      var a, b := Place(n, p, i), Place(n, p, k);
      assert a != b;
    }
  }

  lemma RotateMembers(list: seq<Thread>, p: int)
    requires 0 <= p < |list|
    ensures forall t: Thread :: t in Rotate(list, p) <==> t in list
    ensures forall i :: 0 <= i < |list| ==> Rotate(list, p)[i] in list
  {
    assert list == list[..p + 1] + list[p + 1..];
  }

  /** Rotating a rotation. */
  lemma RotateAgain(list: seq<Thread>, p: int, j: int)
    requires 0 <= p < |list| && 0 <= j < |list|
    ensures var p' := Place(|list|, p, j);
            && list[p'] == Rotate(list, p)[j]
            && Rotate(list, p') == Rotate(list, p)[j + 1..] + Rotate(list, p)[..j + 1]
  {
    var n, p' := |list|, Place(|list|, p, j);
    var a, b := Rotate(list, p'), Rotate(list, p)[j + 1..] + Rotate(list, p)[..j + 1];
    forall i | 0 <= i < n ensures a[i] == b[i] {
      RotateAt(list, p', i);
      RotateAt(list, p, Place(n, j, i));
    }
  }

  function Without(list: seq<Thread>, q: int): (r: seq<Thread>)
    requires 0 <= q < |list|
    ensures |r| == |list| - 1
  {
    list[..q] + list[q + 1..]
  }

  /** Unlinking the thread at rotation position `i`, not the last. */
  lemma RotateWithout(list: seq<Thread>, p: int, i: int)
    requires 0 <= p < |list| && 0 <= i < |list| - 1
    ensures var q := Place(|list|, p, i);
            && q != p
            && Rotate(Without(list, q), if q < p then p - 1 else p) == Without(Rotate(list, p), i)
  {
    var n, q := |list|, Place(|list|, p, i);
    var l', p' := Without(list, q), if q < p then p - 1 else p;
    var a, b := Rotate(l', p'), Without(Rotate(list, p), i);
    forall k | 0 <= k < n - 1 ensures a[k] == b[k] {
      RotateAt(l', p', k);
      RotateAt(list, p, if k < i then k else k + 1);
    }
  }

  /** Unlinking the current thread leaves the others in trial order. */
  lemma RotateWithoutLast(list: seq<Thread>, p: int)
    requires 0 <= p < |list| && |list| > 1
    ensures var n := |list|;
            Rotate(Without(list, p), if p > 0 then p - 1 else n - 2) == Rotate(list, p)[..n - 1]
  {}

  lemma WithoutOk(list: seq<Thread>, q: int)
    requires 0 <= q < |list| && DistinctIds(list)
    ensures DistinctIds(Without(list, q)) && list[q] !in Without(list, q)
  {
    var w := Without(list, q);
    forall i | 0 <= i < |w| ensures w[i] == list[if i < q then i else i + 1] && w[i] != list[q] {}
  }

  // ---------------------------------------------------------------------
  // What Pick finds
  // ---------------------------------------------------------------------

  /** The first `k` threads of the ring hold no pick but, at `f` if `f >= 0`, an
      idle one to fall back on. */
  ghost predicate Scanned(r: seq<Th>, k: int, f: int)
  {
    && 0 <= k <= |r| && f < k
    && (forall i :: 0 <= i < k ==> !Eligible(r[i]))
    && (f < 0 ==> forall i :: 0 <= i < k ==> !EligibleIdle(r[i]))
    && (f >= 0 ==> FirstIdle(r) == f)
  }

  lemma ScanStep(r: seq<Th>, k: int, f: int)
    requires Scanned(r, k, f) && k < |r|
    ensures Eligible(r[k]) ==> Pick(r) == Some(k)
    ensures !Eligible(r[k]) ==> Scanned(r, k + 1, if f < 0 && EligibleIdle(r[k]) then k else f)
  {
    if Eligible(r[k]) { FirstEligibleAt(r, k); }
    if f < 0 && EligibleIdle(r[k]) { FirstIdleAt(r, k); }
  }

  lemma ScanEnd(r: seq<Th>, f: int)
    requires Scanned(r, |r|, f)
    ensures Pick(r) == if f < 0 then None else Some(f)
  {
    NothingReady(r);
  }

  class RunQueue {
    var threadList: Thread?
    var current: Thread?
    var needsResched: bool

    /** The linked list, head first, and where the current thread is in it. */
    ghost var list: seq<Thread>
    ghost var pos: int

    /** The chain of `next` pointers from the head is finite and acyclic. */
    ghost predicate Linked()
      reads `threadList, `list, list`next
    {
      && (list == [] <==> threadList == null)
      && (list != [] ==> threadList == list[0])
      && DistinctIds(list) && Chained(list)
    }

    /** The current thread is listed, and only it may be RUNNING. */
    ghost predicate Valid()
      reads this, list
    {
      && Linked()
      && (if list == [] then current == null else 0 <= pos < |list| && current == list[pos])
      && forall t :: t in list && t.state == Running ==> t == current
    }

    ghost function Order(): seq<Thread>
      requires list != [] ==> 0 <= pos < |list|
      reads this
    {
      if list == [] then [] else Rotate(list, pos)
    }

    /** The abstract state of RoundRobin. */
    ghost function Abs(): Sys
      requires list != [] ==> 0 <= pos < |list|
      reads this, Order()
    {
      Sys(Views(Order()), needsResched)
    }

    constructor ()
      ensures Valid() && list == [] && fresh(this)
    {
      threadList, current, needsResched := null, null, false;
      list, pos := [], 0;
    }

    /** The scan that starts after the current thread starts after position `p`. */
    ghost predicate ScansFrom(p: int)
      reads this, current
    {
      && 0 <= p < |list| && current != null
      && (if current.next != null then current.next else threadList) == if p + 1 < |list| then list[p + 1] else list[0]
    }

    /** Following `next`, and wrapping to the head, walks the rotation. */
    lemma WalkOrder(p: int, k: int)
      requires Linked() && 0 <= p < |list| && 0 <= k < |list|
      ensures var o := Rotate(list, p);
              (if o[k].next != null then o[k].next else threadList) == if k + 1 < |o| then o[k + 1] else o[0]
    {
      hide Rotate, DistinctIds;
      var n, i := |list|, Place(|list|, p, k);
      RotateAt(list, p, k);
      RotateAt(list, p, if k + 1 < n then k + 1 else 0);
      assert NextAt(list, i);
    }

    /** The circular scan of SelectNextThread ends, and finds what Pick describes. */
    method FindNext(ghost p: int) returns (r: Thread?, ghost j: int)
      requires Linked() && ScansFrom(p)
      ensures r == null ==> Pick(Views(Rotate(list, p))) == None
      ensures r != null ==> 0 <= j < |list| && Pick(Views(Rotate(list, p))) == Some(j) && r == Rotate(list, p)[j]
    {
      ghost var o := Rotate(list, p);
      ghost var ring := Views(o);
      var start := if current.next != null then current.next else threadList;
      RotateAt(list, p, 0);
      RotateDistinct(list, p);
      assert Scanned(ring, 0, -1);
      hide Rotate, DistinctIds, Chained, Scanned, Views, Pick;
      var t := start;
      var idle: Thread? := null;
      ghost var k, f := 0, -1;
      var first := true;
      while first || t != start
        invariant 0 <= k <= |o| && f < k && (first <==> k == 0)
        invariant t == if k < |o| then o[k] else o[0]
        invariant ring == Views(o) && Scanned(ring, k, f)
        invariant if f < 0 then idle == null else idle == o[f]
        decreases |o| - k
      {
        assert ring[k] == t.View();
        ScanStep(ring, k, f);
        if t.state != Blocked && t.state != Terminated && t.state != Running {
          if t.priority == PRIORITY_IDLE {
            if idle == null {
              idle := t;
              f := k;
            }
          } else {
            return t, k;
          }
        }
        WalkOrder(p, k);
        t := if t.next != null then t.next else threadList;
        k := k + 1;
        first := false;
      }
      Apart(o, 0, k);
      ScanEnd(ring, f);
      return idle, f;
    }

    /** SelectNextThread: the pick, with a fresh quantum. */
    method SelectNextThread(ghost p: int, ghost o: seq<Thread>, ghost ring: seq<Th>) returns (r: Thread?, ghost j: int)
      requires Linked() && (list != [] ==> ScansFrom(p) && o == Rotate(list, p) && ring == Views(o))
      modifies list`quantum
      ensures list == [] ==> r == null
      ensures list != [] && r == null ==> Pick(ring) == None && Views(o) == ring
      ensures r != null ==> 0 <= j < |list| == |o| == |ring| && Pick(ring) == Some(j) && r == o[j]
      ensures r != null ==> Views(o) == ring[j := Refreshed(ring[j])]
    {
      hide Pick;
      if threadList == null {
        return null, 0;
      }
      r, j := FindNext(p);
      if r != null {
        RotateMembers(list, p);
        RotateDistinct(list, p);
        hide Rotate;
        r.quantum := CpuTime(r.priority);
        AllApart(o);
      }
    }

    /** ScheduleNext, from any current thread, listed or just unlinked. */
    method ScheduleFrom(ghost p: int, ghost o: seq<Thread>, ghost ring: seq<Th>)
      requires Linked() && (list != [] ==> ScansFrom(p) && o == Rotate(list, p) && ring == Views(o))
      requires current != null && current.state == Running ==> current in list
      modifies `current, `needsResched, `pos, list`state, list`quantum
      ensures list == [] ==> unchanged(this)
      ensures list != [] ==> !needsResched
      ensures list != [] && Pick(ring) == None ==> current == old(current) && pos == old(pos) && Views(o) == ring
      ensures list != [] && Pick(ring) != None ==>
                var j := Pick(ring).value;
                && j < |list| && pos == Place(|list|, p, j) && current == o[j]
                && Switched(o, ring, Views(o), j, old(current))
    {
      hide Rotate, Pick, DistinctIds, Chained, CpuTime, Switched, Views;
      if threadList == null {
        return;
      }
      var prev := current;
      RotateMembers(list, p);
      RotateDistinct(list, p);
      var next, j := SelectNextThread(p, o, ring);
      needsResched := false;
      if next == null {
        current := prev;
        return;
      }
      pos := Place(|list|, p, j);
      SwitchTo(prev, next, o, ring, j);
      current := next;
    }

    lemma ScansFromCurrent()
      requires Valid() && list != []
      ensures ScansFrom(pos)
    {
      assert NextAt(list, pos);
    }

    /** ScheduleNext with the current thread on the list. */
    method ScheduleNext()
      requires Valid()
      modifies `current, `needsResched, `pos, list`state, list`quantum
      ensures Valid()
      ensures Abs() == Schedule(old(Abs()))
    {
      hide Chained, Pick, Dispatch, Switched, Views, Rotate, DistinctIds, CpuTime;
      ghost var o, ring, p := Order(), Abs().ring, pos;
      if threadList != null {
        ScansFromCurrent();
        OnlyCurrentRuns();
      }
      ScheduleFrom(p, o, ring);
      if list != [] && Pick(ring) != None {
        Scheduled(p, o, ring, Pick(ring).value);
      } else if list != [] {
        OnlyRunner();
      }
    }

    lemma OnlyRunner()
      requires Linked() && 0 <= pos < |list| && current == list[pos]
      requires var o := Order(); forall i :: 0 <= i < |o| && Views(o)[i].st == Running ==> o[i] == current
      ensures Valid()
    {
      RotateMembers(list, pos);
      forall t | t in list && t.state == Running ensures t == current {
        var i :| 0 <= i < |Order()| && Order()[i] == t;
        assert Views(Order())[i].st == Running;
      }
    }

    lemma OnlyCurrentRuns()
      requires Valid() && list != []
      ensures var o := Order(); forall i :: 0 <= i < |o| && Views(o)[i].st == Running ==> o[i] == current
    {
      RotateMembers(list, pos);
    }

    lemma Scheduled(p: int, o: seq<Thread>, ring: seq<Th>, j: int)
      requires Linked() && 0 <= p < |list| == |ring| && o == Rotate(list, p) && 0 <= j < |o|
      requires pos == Place(|list|, p, j) && current == o[j]
      requires Switched(o, ring, Views(o), j, o[|o| - 1])
      requires forall i :: 0 <= i < |o| && ring[i].st == Running ==> o[i] == o[|o| - 1]
      ensures Valid() && Abs().ring == Dispatch(ring, j)
    {
      RotateAgain(list, p, j);
      RotateDistinct(list, p);
      RotateMembers(list, p);
      hide Rotate, Chained, DistinctIds, Switched, CpuTime, Dispatch;
      SwitchedRunning(o, ring, j, o[|o| - 1]);
      SwitchedRing(o, ring, Views(o), j);
      ViewsRotate(o, j);
    }

    /** RemoveThreadFromScheduler; false is STATUS_NOT_FOUND.  The thread unlinked
        keeps its own `next`. */
    method RemoveThreadFromScheduler(t: Thread) returns (ok: bool, ghost q: int)
      requires Linked()
      modifies `threadList, `list, list`next
      ensures Linked()
      ensures ok <==> t in old(list)
      ensures !ok ==> list == old(list)
      ensures ok ==> 0 <= q < |old(list)| && old(list)[q] == t && list == Without(old(list), q)
      ensures t.next == old(t.next)
      ensures forall u :: u in old(list) ==> u.View() == old(u.View())
    {
      hide Chained;
      ok, q := false, 0;
      if threadList == null {
        return;
      }
      if t == threadList {
        WithoutOk(list, 0);
        ChainedTail(list);
        ChainedAt(list, 0);
        threadList := threadList.next;
        list := Without(list, 0);
        return true, 0;
      }
      var iter := threadList;
      ghost var k := 0;
      ChainedAt(list, 0);
      while iter.next != null
        invariant unchanged(this) && unchanged(list)
        invariant 0 <= k < |list| && iter == list[k] && t !in list[..k + 1] && NextAt(list, k)
        decreases |list| - k
      {
        assert iter.next == list[k + 1];
        ChainedAt(list, k + 1);
        if iter.next == t {
          WithoutOk(list, k + 1);
          ChainedAll(list);
          AllApart(list);
          label L:
          iter.next := t.next;
          forall i | 0 <= i < |list| && i != k ensures NextAt(list, i) {
            assert old@L(NextAt(list, i));
          }
          ChainedWithout(list, k);
          list := Without(list, k + 1);
          return true, k + 1;
        }
        iter := iter.next;
        k := k + 1;
      }
      assert list[..k + 1] == list;
    }

    /** AddThreadToScheduler: the new thread goes to the end of the list, and becomes
        the current one when it is the first. */
    method AddThreadToScheduler(t: Thread)
      requires Linked() && NewThread(list, t)
      modifies `threadList, `current, `list, list`next, t`state, t`next
      ensures Linked()
      ensures list == old(list) + [t] && t.state == Ready
      ensures current == if old(list) == [] then t else old(current)
    {
      t.state := Ready;
      t.next := null;
      assert t !in list;
      if threadList == null {
        list := list + [t];
        threadList := t;
        current := t;
        return;
      }
      hide Chained;
      var iter := threadList;
      ghost var k := 0;
      ChainedAt(list, 0);
      while iter.next != null
        invariant 0 <= k < |list| && iter == list[k] && NextAt(list, k)
        modifies {}
        decreases |list| - k
      {
        ChainedAt(list, k + 1);
        iter := iter.next;
        k := k + 1;
      }
      ChainedAll(list);
      AllApart(list);
      label L:
      iter.next := t;
      forall i | 0 <= i < |list| - 1 ensures NextAt(list, i) {
        assert old@L(NextAt(list, i));
      }
      ChainedAppend(list, t);
      list := list + [t];
    }

    // -------------------------------------------------------------------
    // The handlers, as RoundRobin's events
    // -------------------------------------------------------------------

    /** The thread `t` of the list, and no other, is at one place of the rotation. */
    lemma PlaceOf(t: Thread) returns (i: int)
      requires Linked() && 0 <= pos < |list| && t in list
      ensures 0 <= i < |list| && Order()[i] == t && Alone(Order(), i)
      ensures t == list[pos] ==> i == |list| - 1
      ensures forall q :: 0 <= q < |list| && list[q] == t ==> q == Place(|list|, pos, i)
    {
      RotateMembers(list, pos);
      RotateDistinct(list, pos);
      AllApart(list);
      hide Rotate, Chained, DistinctIds;
      var o := Rotate(list, pos);
      i :| 0 <= i < |o| && o[i] == t;
      RotateAt(list, pos, i);
      AllApart(o);
    }

    /** PITCallback. */
    method Tick()
      requires Valid() && list != []
      modifies `needsResched, current`quantum
      ensures Valid()
      ensures Abs() == Handle(old(Abs()), RoundRobin.Tick)
    {
      hide Rotate, Linked, Views;
      ghost var o, before := Order(), Abs().ring;
      ghost var i := PlaceOf(current);
      if current.quantum == 0 {
        needsResched := true;
      }
      current.quantum := if current.quantum == 0 then U32_MAX else current.quantum - 1;
      OneChanged(o, before, i);
    }

    /** YieldCurrentThread: a reschedule is asked for, then the timer's handler runs. */
    method YieldCurrentThread()
      requires Valid() && list != []
      modifies `needsResched, current`quantum
      ensures Valid()
      ensures Abs() == Handle(old(Abs()), Yield)
    {
      hide Rotate, Linked, Views;
      ghost var o, before := Order(), Abs().ring;
      SameViews(o, before);
      needsResched := true;
      Tick();
    }

    /** BlockThread, on the current thread as the kernel calls it. */
    method BlockThread()
      requires Valid() && list != []
      modifies `needsResched, current`state
      ensures Valid()
      ensures Abs() == Handle(old(Abs()), Block)
      ensures current == old(current) && current.state == Blocked && needsResched
    {
      hide Rotate, Linked, Views;
      ghost var o, before := Order(), Abs().ring;
      ghost var i := PlaceOf(current);
      current.state := Blocked;
      needsResched := true;
      OneChanged(o, before, i);
    }

    /** WakeThread; a thread that is not scheduled only makes a reschedule due. */
    method WakeThread(t: Thread) returns (ghost i: int)
      requires Valid() && list != []
      modifies `needsResched, t`state
      ensures Valid()
      ensures t in list ==> 0 <= i < |list| && Order()[i] == t
      ensures t !in list ==> i == -1
      ensures Abs() == if t !in list && old(t.state) == Running then old(Abs()) else Handle(old(Abs()), Wake(i))
      ensures t.state == if old(t.state) == Running then Running else Ready
    {
      hide Rotate, Views, Handle, Linked;
      ghost var o, s, was := Order(), Abs(), t.state;
      OnlyCurrent(o, s.ring);
      i := -1;
      if t in list {
        i := PlaceOf(t);
      }
      if t.state != Running {
        t.state := Ready;
        needsResched := true;
      }
      Woken(o, s, i, was);
    }

    /** Who is RUNNING, read off the ring. */
    lemma OnlyCurrent(o: seq<Thread>, ring: seq<Th>)
      requires Valid() && list != [] && o == Order() && ring == Abs().ring
      ensures |o| == |ring| == |list| && forall k :: 0 <= k < |o| ==>
                o[k] in list && o[k].View() == ring[k] && (ring[k].st == Running ==> o[k] == current)
      ensures forall t: Thread :: t in o <==> t in list
    {
      hide Rotate, Linked;
      RotateMembers(list, pos);
    }

    /** The state after one thread has been made ready, or none of the list. */
    lemma Woken(o: seq<Thread>, s: Sys, i: int, was: State)
      requires Linked() && list != [] && 0 <= pos < |list| && current == list[pos] && o == Order()
      requires |s.ring| == |o| == |list| && forall t: Thread :: t in o <==> t in list
      requires forall k :: 0 <= k < |o| && k != i ==>
                 o[k].View() == s.ring[k] && (s.ring[k].st == Running ==> o[k] == current)
      requires 0 <= i < |o| ==>
                 && was == s.ring[i].st && (was == Running ==> o[i] == current)
                 && o[i].View() == if was == Running then s.ring[i] else s.ring[i].(st := Ready)
      requires needsResched == (s.resched || was != Running)
      ensures Valid()
      ensures Abs() == if !(0 <= i < |o|) && was == Running then s else Handle(s, Wake(i))
    {
      hide Rotate, Handle, Linked;
      WakeIs(s, i);
      if 0 <= i < |o| { OneChanged(o, s.ring, i); } else { SameViews(o, s.ring); }
      hide Views;
      forall t | t in list && t.state == Running ensures t == current {
        var k :| 0 <= k < |o| && o[k] == t;
        if k == i { assert o[k].View().st == Running; } else { assert o[k].View() == s.ring[k]; }
      }
    }

    /** Unlinking a thread that is not the current one. */
    method Unlink(t: Thread) returns (ok: bool, ghost i: int)
      requires Valid() && t != current
      modifies `threadList, `list, `pos, list`next
      ensures Valid()
      ensures ok <==> t in old(list)
      ensures forall u :: u in list ==> u in old(list)
      ensures !ok ==> Abs() == old(Abs())
      ensures ok ==>
                var r := old(Abs().ring);
                0 <= i < |r| - 1 < |old(Order())| && old(Order())[i] == t &&
                  Abs() == old(Abs()).(ring := r[..i] + r[i + 1..])
    {
      hide Rotate, Linked, Views, Without, Place, Alone, Abs, Order;
      ghost var o, before, p, l := Order(), Abs().ring, pos, list;
      OrderIs();
      AbsIs();
      i := 0;
      if t in list {
        i := PlaceOf(t);
      }
      ghost var q;
      ok, q := RemoveThreadFromScheduler(t);
      SameViews(o, before);
      if ok {
        RotateWithout(l, p, i);
        pos := if q < p then p - 1 else p;
        WithoutAt(l, q, p);
        ViewsWithout(o, before, i);
      }
      OrderIs();
      AbsIs();
    }

    lemma OrderIs()
      requires Valid()
      ensures |Order()| == |list| && (list != [] ==> Order() == Rotate(list, pos))
      ensures forall k :: 0 <= k < |list| ==> Order()[k] in list && Views(Order())[k] == Order()[k].View()
    {
      if list != [] { RotateMembers(list, pos); }
    }

    method Terminate(t: Thread) returns (ghost i: int)
      requires Valid()
      modifies t`state
      ensures Valid() && t.state == Terminated
      ensures t in list ==>
                var r := old(Abs().ring);
                && 0 <= i < |r| == |list| == |Order()| && Order()[i] == t && (t == current <==> i == |r| - 1)
                && Alone(Order(), i) && Abs() == old(Abs()).(ring := r[i := r[i].(st := Terminated)])
      ensures t !in list ==> Abs() == old(Abs())
    {
      hide Rotate, Linked, Views, Place;
      ghost var o, before := Order(), Abs().ring;
      if list != [] { RotateMembers(list, pos); }
      i := 0;
      if t in list {
        i := PlaceOf(t);
      }
      t.state := Terminated;
      if t in list {
        OneChanged(o, before, i);
      } else {
        SameViews(o, before);
      }
    }

    /** DeleteThread: the current thread is only marked, any other is unlinked. */
    method DeleteThread(t: Thread) returns (ghost i: int)
      requires Valid()
      modifies `threadList, `list, `pos, list`next, t`state
      ensures Valid()
      ensures t in old(list) ==>
                0 <= i < |old(list)| && old(Order())[i] == t && Abs() == Handle(old(Abs()), Kill(i))
      ensures t !in old(list) ==> Abs() == old(Abs())
      ensures forall u :: u in list ==> u in old(list)
      ensures t.state == Terminated
    {
      hide Linked, Handle, Abs, Order;
      ghost var s := Abs();
      i := Terminate(t);
      if t in list {
        KillIs(s, i);
      }
      if current == t {
        return;
      }
      var ok, k := Unlink(t);
      if ok {
        assert k == i;
        CutSame(s.ring, i, s.ring[i].(st := Terminated));
      }
    }

    /** A fault in user code (exception.c:41-48), after the process is gone: its main thread is
        marked terminated and a reschedule is due. */
    method Fault(main: Thread) returns (ghost i: int)
      requires Valid() && list != []
      modifies main`state, `needsResched
      ensures Valid()
      ensures if main in list then 0 <= i < |list| && Order()[i] == main else i == -1
      ensures Abs() == Handle(old(Abs()), RoundRobin.Fault(i))
      ensures main.state == Terminated && needsResched
    {
      hide Linked, Rotate, Views;
      i := Terminate(main);
      if main !in list { i := -1; }
      FlagOnly();
      needsResched := true;
    }

    lemma FlagOnly()
      requires Valid() && list != []
      ensures |Abs().ring| == |list| == |Order()| && Abs() == Sys(Views(Order()), needsResched)
    {}

    /** The way out of an interrupt: reschedule if one is due.  Leaving a system call by
        sysexit does nothing more. */
    method ReturnFromInterrupt(ghost s: Sys, ghost e: Event)
      requires Valid() && s.ring != [] && e != RoundRobin.Exit && !e.Call? && Abs() == Handle(s, e)
      modifies `current, `needsResched, `pos, list`state, list`quantum
      ensures Valid()
      ensures Abs() == Step(s, e)
    {
      hide Linked, Views, Schedule, Handle, Rotate;
      if needsResched {
        if list == [] { ScheduleEmpty(Abs()); }
        ScheduleNext();
      }
    }

    /** InitSchedulerState: false is STATUS_RETRY.  Everyone gets a full turn, and the
        current thread a tick more. */
    method InitSchedulerState() returns (ok: bool)
      requires Valid()
      modifies list`state, list`quantum
      ensures Valid()
      ensures ok <==> list != []
      ensures ok ==> Abs().ring == Started(old(Abs().ring))
    {
      hide Chained, DistinctIds, Rotate, Views, CpuTime;
      ghost var before := Abs().ring;
      if threadList == null {
        return false;
      }
      ResetAll();
      current.state := Running;
      current.quantum := current.quantum + 1;
      ok := true;
      StartedViews(before);
    }

    method ResetAll()
      requires Linked()
      modifies list`state, list`quantum
      ensures forall t :: t in list ==> t.state == Ready && t.quantum == CpuTime(t.priority)
    {
      hide Chained, DistinctIds, CpuTime;
      var t := threadList;
      ghost var k := 0;
      while t != null
        invariant 0 <= k <= |list| && t == if k < |list| then list[k] else null
        invariant forall i :: 0 <= i < k ==> list[i].state == Ready && list[i].quantum == CpuTime(list[i].priority)
        decreases |list| - k
      {
        t.quantum := CpuTime(t.priority);
        t.state := Ready;
        ChainedAt(list, k);
        t := t.next;
        k := k + 1;
      }
    }

    /** A listed thread that is ready and not idle waits, in RoundRobin's sense, so
        BoundedWaiting applies to it. */
    lemma ReadyWaits(t: Thread) returns (m: int)
      requires Valid() && t in list && t != current && t.state == Ready && t.priority != PRIORITY_IDLE
      requires current.quantum >= 0
      ensures Waits(Abs(), t.id, m)
    {
      hide Chained, DistinctIds, Rotate, Distinct;
      m := PlaceOf(t);
      var last := PlaceOf(current);
      OthersIdle(list, Abs());
      assert Abs().ring[m] == t.View() && Abs().ring[last] == current.View();
    }

    lemma StartedViews(before: seq<Th>)
      requires Linked() && 0 <= pos < |list| && current == list[pos] && |before| == |list|
      requires forall i :: 0 <= i < |list| ==> before[i].id == Order()[i].id && before[i].prio == Order()[i].priority
      requires forall t :: t in list && t != current ==> t.state == Ready && t.quantum == CpuTime(t.priority)
      requires current.state == Running && current.quantum == CpuTime(current.priority) + 1
      ensures Abs().ring == Started(before)
    {
      RotateMembers(list, pos);
      var i := PlaceOf(current);
    }

    /** A thread enters the running system. */
    method Admit(t: Thread)
      requires Valid() && NewThread(list, t)
      modifies `threadList, `current, `list, `pos, list`next, t`state, t`next
      ensures Valid() && list == old(list) + [t]
      ensures old(list) != [] ==>
                Abs() == Handle(old(Abs()), Add(old(t.View()), |old(list)| - 1 - old(pos)))
    {
      hide Rotate, Linked, Views, Handle, Abs, Distinct, NewId;
      ghost var l, o, s, v := list, Order(), Abs(), t.View();
      assert s == Sys(Views(o), needsResched) by { AbsIs(); }
      if list == [] {
        pos := 0;
      } else {
        RotateMembers(list, pos);
      }
      assert forall k :: 0 <= k < |o| ==> s.ring[k] == o[k].View();
      AddThreadToScheduler(t);
      if l != [] { Admitted(s, l, o, v, t); }
    }

    lemma Admitted(s: Sys, l: seq<Thread>, o: seq<Thread>, v: Th, t: Thread)
      requires Valid() && l != [] && list == l + [t] && 0 <= pos < |l| && o == Rotate(l, pos)
      requires |s.ring| == |o| && (forall k :: 0 <= k < |o| ==> s.ring[k] == o[k].View()) && s.resched == needsResched
      requires t.View() == v.(st := Ready) && forall k :: 0 <= k < |o| ==> o[k].id != t.id
      ensures Abs() == Handle(s, Add(v, |l| - 1 - pos))
    {
      AbsIs();
      hide Rotate, Linked, Views, Handle, Abs, Distinct, NewId;
      RotateAppend(l, pos, t);
      SameViews(o, s.ring);
      AddIs(s, o, v, t, |l| - 1 - pos);
    }

    lemma AbsIs()
      requires Valid()
      ensures Abs() == Sys(Views(Order()), needsResched)
    {}

    /** The current thread, marked terminated and off the list but still current. */
    method Detach() returns (ghost p: int)
      requires Valid() && list != []
      modifies `threadList, `list, `needsResched, list`next, current`state
      ensures Linked() && current.state == Terminated && needsResched
      ensures list == Without(old(list), old(pos)) && current !in list
      ensures forall i :: 0 <= i < |list| ==> list[i] in old(list)
      ensures list != [] ==>
                && ScansFrom(p) && Rotate(list, p) == old(Order())[..|list|]
                && Views(Rotate(list, p)) == old(Abs().ring)[..|list|]
    {
      hide Rotate, Linked, Views, Without, Place, Order;
      ghost var l, o, before, n := list, Order(), Abs().ring, |list| - 1;
      OthersApart(o, before);
      var ok, q := RemoveThreadFromScheduler(current);
      current.state := Terminated;
      needsResched := true;
      p := if pos > 0 then pos - 1 else n - 1;
      WithoutSub(l, pos);
      if list != [] {
        RotateWithoutLast(l, pos);
        DetachedScan(l, p);
        SameViews(o[..n], before[..n]);
      }
    }

    lemma OthersApart(o: seq<Thread>, before: seq<Th>)
      requires Valid() && list != [] && o == Order() && before == Abs().ring
      ensures current in list && |o| == |before| == |list| && Order() == Rotate(list, pos)
      ensures current.next == Follower(list, pos) && current !in Without(list, pos)
      ensures forall q :: 0 <= q < |list| && list[q] == current ==> q == pos
      ensures forall k :: 0 <= k < |list| - 1 ==> o[k] in list && o[k] != current && o[k].View() == before[k]
    {
      assert NextAt(list, pos);
      RotateMembers(list, pos);
      var i := PlaceOf(current);
      AllApart(list);
    }

    lemma DetachedScan(l: seq<Thread>, p: int)
      requires Linked() && 0 <= pos < |l| && list == Without(l, pos) && list != [] && current != null
      requires current.next == Follower(l, pos) && p == if pos > 0 then pos - 1 else |l| - 2
      ensures ScansFrom(p)
    {}

    /** The exit system call: the current thread is unlinked, then the scheduler
        switches away from it for good, unless nothing else is ready. */
    method Exit()
      requires Valid() && list != []
      modifies `threadList, `list, `pos, `current, `needsResched, list
      ensures var others := old(Abs().ring)[..|old(list)| - 1];
              if Pick(others) == None then
                current == old(current) && current.state == Terminated && list == Without(old(list), old(pos))
              else
                Valid() && list != [] && current != old(current) && Abs() == Step(old(Abs()), RoundRobin.Exit)
      ensures forall u :: u in list ==> u in old(list)
    {
      hide Rotate, Views, Pick, Step, Linked, Switched, Without, Place, Distinct;
      ghost var l, s := list, Abs();
      OthersIdle(l, s);
      assert current in l;
      var p := Detach();
      assert list == [] ==> s.ring[..|list|] == [];
      assert Pick([]) == None by { PickNone(); }
      ghost var o, ring := [], s.ring[..|list|];
      if list != [] {
        o := Rotate(list, p);
      }
      assert ring == old(Abs().ring)[..|old(list)| - 1] by { WithoutLength(l, old(pos)); }
      label L:
      ScheduleFrom(p, o, ring);
      assert Pick(ring) == None ==> current == old@L(current);
      if Pick(ring) != None {
        Exited(s, p, o, ring, Pick(ring).value, old@L(current));
      }
    }

    lemma OthersIdle(l: seq<Thread>, s: Sys)
      requires Valid() && list != [] && l == list && s == Abs()
      ensures |s.ring| == |l| && Distinct(s.ring)
      ensures forall i :: 0 <= i < |l| - 1 ==> s.ring[i].st != Running
    {
      OthersApart(Order(), s.ring);
      RotateDistinct(list, pos);
    }

    lemma Exited(s: Sys, p: int, o: seq<Thread>, ring: seq<Th>, j: int, prev: Thread)
      requires Linked() && 0 <= p < |list| == |ring| && o == Rotate(list, p) && 0 <= j < |o|
      requires |s.ring| == |ring| + 1 && ring == s.ring[..|ring|] && Pick(ring) == Some(j) && Distinct(s.ring)
      requires pos == Place(|list|, p, j) && current == o[j] && !needsResched && prev !in o
      requires Switched(o, ring, Views(o), j, prev)
      requires forall i :: 0 <= i < |ring| ==> ring[i].st != Running
      ensures Valid() && Abs() == Step(s, RoundRobin.Exit)
    {
      hide Views, Pick, Step, Chained, DistinctIds, Switched, CpuTime, Distinct;
      ExitedOrder(p, o, j);
      hide Rotate, Linked;
      SwitchedRunning(o, ring, j, prev);
      ViewsRotate(o, j);
      ExitStep(s, j);
      SwitchedExit(o, ring, Views(o), j, prev);
    }

    lemma ExitedOrder(p: int, o: seq<Thread>, j: int)
      requires Linked() && 0 <= p < |list| && o == Rotate(list, p) && 0 <= j < |o|
      requires pos == Place(|list|, p, j)
      ensures 0 <= pos < |list| && list[pos] == o[j] && DistinctIds(o)
      ensures Order() == o[j + 1..] + o[..j + 1]
      ensures forall t :: t in list ==> t in o
    {
      RotateAgain(list, p, j);
      RotateMembers(list, p);
      RotateDistinct(list, p);
    }
  }

  lemma ScheduleEmpty(s: Sys)
    requires s.ring == []
    ensures Schedule(s) == s
  {}

  /** The ring InitSchedulerState leaves. */
  ghost function Started(r: seq<Th>): (r': seq<Th>)
    requires r != []
  {
    seq(|r|, i requires 0 <= i < |r| =>
      if i < |r| - 1 then r[i].(st := Ready, q := CpuTime(r[i].prio))
      else r[i].(st := Running, q := CpuTime(r[i].prio) + 1))
  }

  lemma PickNone()
    ensures Pick([]) == None
  {}

  lemma SwitchedExit(o: seq<Thread>, before: seq<Th>, after: seq<Th>, j: int, prev: Thread)
    requires |before| == |after| == |o| && 0 <= j < |o| && DistinctIds(o)
    requires prev !in o && Switched(o, before, after, j, prev)
    ensures after[j + 1..] + after[..j + 1] == before[j + 1..] + before[..j] + [Refreshed(before[j]).(st := Running)]
  {
    AllApart(o);
  }

  /** What RoundRobin's exit comes to. */
  lemma ExitStep(s: Sys, j: int)
    requires s.ring != [] && Distinct(s.ring) && Pick(s.ring[..|s.ring| - 1]) == Some(j)
    ensures 0 <= j < |s.ring| - 1
    ensures var r := s.ring[..|s.ring| - 1];
            Step(s, Exit) == Sys(r[j + 1..] + r[..j] + [Refreshed(r[j]).(st := Running)], false)
  {
    var r, n := s.ring, |s.ring| - 1;
    var h := r[n := r[n].(st := Terminated)];
    assert h[..n] == r[..n];
    PickInit(h);
    PickRange(r[..n], j);
    SameIds(r, h);
    ExitStepIs(s, h, j);
    DispatchDrop(h, j);
    hide Pick, Distinct, Drop, Step, Dispatch, CpuTime;
    var others := r[..n];
    assert h[j + 1..n] == others[j + 1..] && h[..j] == others[..j] && h[j] == others[j];
  }

  lemma PickRange(r: seq<Th>, j: int)
    requires Pick(r) == Some(j)
    ensures 0 <= j < |r|
  {}

  lemma ExitStepIs(s: Sys, h: seq<Th>, j: int)
    requires s.ring != [] && h == s.ring[|s.ring| - 1 := s.ring[|s.ring| - 1].(st := Terminated)]
    requires 0 <= j < |h| && Pick(h) == Some(j)
    ensures Step(s, Exit) == Sys(Drop(Dispatch(h, j), h[|h| - 1].id), false)
  {
    hide Pick, Drop, Dispatch;
    assert Handle(s, Exit) == Sys(h, true);
  }

  lemma DispatchDrop(h: seq<Th>, j: int)
    requires 0 <= j < |h| - 1 && Distinct(h) && h[|h| - 1].st == Terminated
    ensures var n := |h| - 1;
            Drop(Dispatch(h, j), h[n].id) == h[j + 1..n] + h[..j] + [Refreshed(h[j]).(st := Running)]
  {
    var n, d := |h| - 1, Dispatch(h, j);
    DispatchDistinct(h, j);
    hide Distinct, CpuTime, Drop;
    assert d[n - j - 1] == h[n];
    DropBehind(d, n - j - 1);
    assert d[..n - j - 1] == h[j + 1..n];
    assert d[n - j..] == h[..j] + [Refreshed(h[j]).(st := Running)];
  }

  lemma RotateAppend(list: seq<Thread>, p: int, t: Thread)
    requires 0 <= p < |list|
    ensures var o, at := Rotate(list, p), |list| - 1 - p;
            Rotate(list + [t], p) == o[..at] + [t] + o[at..]
  {}

  lemma AddIs(s: Sys, o: seq<Thread>, v: Th, t: Thread, at: int)
    requires 0 <= at < |o| && s.ring == Views(o) && t.View() == v.(st := Ready)
    requires forall i :: 0 <= i < |o| ==> o[i].id != t.id
    ensures s.(ring := Views(o[..at] + [t] + o[at..])) == Handle(s, Add(v, at))
  {
    assert NewId(s.ring, v.id);
    assert Views(o[..at] + [t] + o[at..]) == s.ring[..at] + [v.(st := Ready)] + s.ring[at..];
  }

  lemma CutSame(r: seq<Th>, i: int, t: Th)
    requires 0 <= i < |r|
    ensures r[i := t][..i] + r[i := t][i + 1..] == r[..i] + r[i + 1..]
  {}

  lemma WakeIs(s: Sys, i: int)
    requires s.ring != []
    ensures Handle(s, Wake(i)) ==
            if !(0 <= i < |s.ring|) then s.(resched := true)
            else if s.ring[i].st != Running then Sys(s.ring[i := s.ring[i].(st := Ready)], true) else s
  {}

  lemma KillIs(s: Sys, i: int)
    requires 0 <= i < |s.ring|
    ensures var n := |s.ring| - 1;
            && (i == n ==> Handle(s, Kill(i)) == s.(ring := s.ring[n := s.ring[n].(st := Terminated)]))
            && (i < n ==> Handle(s, Kill(i)) == s.(ring := s.ring[..i] + s.ring[i + 1..]))
  {}

  lemma SameViews(o: seq<Thread>, before: seq<Th>)
    requires |o| == |before| && forall k :: 0 <= k < |o| ==> o[k].View() == before[k]
    ensures Views(o) == before
  {}

  lemma WithoutLength(list: seq<Thread>, q: int)
    requires 0 <= q < |list|
    ensures |Without(list, q)| == |list| - 1
  {}

  lemma WithoutAt(list: seq<Thread>, q: int, p: int)
    requires 0 <= q < |list| && 0 <= p < |list| && p != q
    ensures Without(list, q)[if q < p then p - 1 else p] == list[p]
    ensures forall i :: 0 <= i < |list| - 1 ==> Without(list, q)[i] in list
  {}

  lemma WithoutSub(list: seq<Thread>, q: int)
    requires 0 <= q < |list|
    ensures forall i :: 0 <= i < |list| - 1 ==> Without(list, q)[i] in list
  {}

  lemma ViewsWithout(o: seq<Thread>, before: seq<Th>, i: int)
    requires 0 <= i < |o| && before == Views(o)
    ensures Views(Without(o, i)) == before[..i] + before[i + 1..]
  {}

  ghost predicate Alone(o: seq<Thread>, i: int)
    requires 0 <= i < |o|
  {
    forall k :: 0 <= k < |o| && k != i ==> o[k] != o[i]
  }

  lemma OneChanged(o: seq<Thread>, before: seq<Th>, i: int)
    requires 0 <= i < |o| == |before| && forall k :: 0 <= k < |o| && k != i ==> o[k].View() == before[k]
    ensures Views(o) == before[i := o[i].View()]
  {}

  /** Identifiers are never reused (task.c:49). */
  ghost predicate NewThread(list: seq<Thread>, t: Thread)
  {
    forall i :: 0 <= i < |list| ==> list[i].id != t.id
  }

  lemma ChainedAppend(list: seq<Thread>, t: Thread)
    requires list != [] && t.next == null && list[|list| - 1].next == t
    requires forall i :: 0 <= i < |list| - 1 ==> NextAt(list, i)
    ensures Chained(list + [t])
  {
    var w := list + [t];
    forall i | 0 <= i < |w| ensures NextAt(w, i) {
      if i < |list| - 1 { assert NextAt(list, i); }
    }
  }

  lemma ChainedAt(list: seq<Thread>, i: int)
    requires Chained(list) && 0 <= i < |list|
    ensures NextAt(list, i)
  {}

  lemma ChainedAll(list: seq<Thread>)
    requires Chained(list)
    ensures forall i :: 0 <= i < |list| ==> NextAt(list, i)
  {}

  lemma ChainedTail(list: seq<Thread>)
    requires Chained(list) && list != []
    ensures Chained(Without(list, 0))
  {
    var w := Without(list, 0);
    forall i | 0 <= i < |w| ensures NextAt(w, i) { assert NextAt(list, i + 1); }
  }

  /** Unlinking position `k + 1` by redirecting position `k`. */
  lemma ChainedWithout(list: seq<Thread>, k: int)
    requires 0 <= k < |list| - 1 && list[k].next == Follower(list, k + 1)
    requires forall i :: 0 <= i < |list| && i != k ==> NextAt(list, i)
    ensures Chained(Without(list, k + 1))
  {
    var w := Without(list, k + 1);
    forall i | 0 <= i < |w| ensures NextAt(w, i) {
      assert w[i] == list[if i <= k then i else i + 1];
      if i < k { assert NextAt(list, i); } else if i > k { assert NextAt(list, i + 1); }
    }
  }

  /** A switch in rotation order is RoundRobin's Dispatch. */
  lemma SwitchedRing(o: seq<Thread>, before: seq<Th>, after: seq<Th>, j: int)
    requires |before| == |after| == |o| && 0 <= j < |o| && DistinctIds(o)
    requires Switched(o, before, after, j, o[|o| - 1])
    ensures after[j + 1..] + after[..j + 1] == Dispatch(before, j)
  {
    AllApart(o);
    hide DistinctIds, CpuTime;
    var a, b := after[j + 1..] + after[..j + 1], Dispatch(before, j);
    forall i | 0 <= i < |o| ensures a[i] == b[i] {}
  }

  lemma ViewsRotate(o: seq<Thread>, j: int)
    requires 0 <= j < |o|
    ensures Views(o[j + 1..] + o[..j + 1]) == Views(o)[j + 1..] + Views(o)[..j + 1]
  {}

  /** After a switch only the thread switched to runs. */
  lemma SwitchedRunning(o: seq<Thread>, before: seq<Th>, j: int, prev: Thread?)
    requires |before| == |o| && 0 <= j < |o| && Switched(o, before, Views(o), j, prev)
    requires forall i :: 0 <= i < |o| && before[i].st == Running ==> o[i] == prev
    ensures forall t :: t in o && t.state == Running ==> t == o[j]
  {
    forall i | 0 <= i < |o| && o[i].state == Running ensures o[i] == o[j] {
      assert Views(o)[i] == SwitchView(o[i], before[i], o[j], prev);
    }
  }

  /** The switch itself; nothing happens when the thread picked is the current one. */
  method SwitchTo(prev: Thread, next: Thread, ghost o: seq<Thread>, ghost ring: seq<Th>, ghost j: int)
    requires 0 <= j < |o| == |ring| && next == o[j] && DistinctIds(o)
    requires prev.state == Running ==> prev in o
    requires Views(o) == ring[j := Refreshed(ring[j])]
    modifies o`state, o`quantum
    ensures Switched(o, ring, Views(o), j, prev)
  {
    AllApart(o);
    hide DistinctIds, CpuTime;
    if prev != next {
      if prev.state == Running {
        prev.state := Ready;
      }
      next.state := Running;
      next.quantum := CpuTime(next.priority);
    }
  }

  function Refreshed(t: Th): Th { t.(q := CpuTime(t.prio)) }

  /** The views after a switch from `prev` to the thread at `j`. */
  ghost predicate Switched(o: seq<Thread>, before: seq<Th>, after: seq<Th>, j: int, prev: Thread?)
    requires |before| == |after| == |o| && 0 <= j < |o|
  {
    forall i :: 0 <= i < |o| ==> after[i] == SwitchView(o[i], before[i], o[j], prev)
  }

  ghost function SwitchView(t: Thread, before: Th, next: Thread, prev: Thread?): Th
  {
    if t == next then
      Refreshed(before).(st := if t == prev then before.st else Running)
    else if t == prev && before.st == Running then before.(st := Ready)
    else before
  }

  lemma AllApart(o: seq<Thread>)
    requires DistinctIds(o)
    ensures forall i, k :: 0 <= i < k < |o| ==> o[i] != o[k]
  {}

  lemma Apart(o: seq<Thread>, i: int, k: int)
    requires DistinctIds(o) && 0 <= i < k
    ensures k < |o| ==> o[i] != o[k]
  {}
}
