/** The IDE driver's sector cache (base/idedrv/rw.c): sixteen slots, rotating
    replacement, invalidated by writes.  Each request is one step. */
module SectorCache {

  type Sector = seq<int>

  /** A request's address, exactly as given: the cache compares these. */
  datatype Key = Key(bus: int, master: int, lba: nat)

  /** The sector the drive is asked for: bus and drive reduced to one bit, the address
      to 28 bits (PrepareDriveForRW). */
  datatype Phys = Phys(secondary: bool, slave: bool, sector: nat)

  function PhysOf(k: Key): Phys { Phys(k.bus != 0, k.master != 0, k.lba % 0x1000_0000) }

  datatype Entry = Entry(valid: bool, key: Key, data: Sector)

  function Filled(b: int): Sector { seq(512, _ => b) }

  function Zeroed(): Entry { Entry(false, Key(0, 0, 0), Filled(0)) }

  type Disk = map<Phys, Sector>

  function At(d: Disk, p: Phys): Sector { if p in d then d[p] else Filled(0) }

  datatype Sys = Sys(slots: seq<Entry>, next: int, disk: Disk)

  /** How the drive takes a write: stored; refused before any data was sent; or failed
      after it, leaving `left` in the sector. */
  datatype Outcome = Stored | Refused | Failed(left: Sector)

  datatype Event = Read(k: Key, ok: bool) | Write(k: Key, data: Sector, outcome: Outcome)

  datatype Reply = Got(data: Sector) | Done | BugCheck | HardwareFailure

  // ---------------------------------------------------------------------
  // The cached and the plain drive
  // ---------------------------------------------------------------------

  predicate Holds(e: Entry, k: Key) { e.valid && e.key == k }

  function Find(c: seq<Entry>, k: Key): (i: nat)
    ensures i <= |c| && (i < |c| ==> Holds(c[i], k)) && forall j :: 0 <= j < i ==> !Holds(c[j], k)
  {
    if c == [] then 0 else if Holds(c[0], k) then 0 else 1 + Find(c[1..], k)
  }

  function Load(s: Sys, k: Key, data: Sector): Sys
    requires Shaped(s)
  {
    s.(slots := s.slots[s.next := Entry(true, k, data)], next := if s.next + 1 >= 16 then 0 else s.next + 1)
  }

  function Invalidate(c: seq<Entry>, k: Key): (r: seq<Entry>)
    ensures |r| == |c| && forall i :: 0 <= i < |c| ==> r[i] == if c[i].key == k then Zeroed() else c[i]
  {
    seq(|c|, i requires 0 <= i < |c| => if c[i].key == k then Zeroed() else c[i])
  }

  predicate Shaped(s: Sys) { |s.slots| == 16 && 0 <= s.next < 16 }

  function Step(s: Sys, e: Event): (Sys, Reply)
    requires Shaped(s)
  {
    match e
    case Read(k, ok) =>
      if Find(s.slots, k) < 16 then (s, Got(s.slots[Find(s.slots, k)].data))
      else if !ok then (s, BugCheck)
      else (Load(s, k, At(s.disk, PhysOf(k))), Got(At(s.disk, PhysOf(k))))
    case Write(k, data, outcome) =>
      match outcome
      case Stored => (s.(slots := Invalidate(s.slots, k), disk := s.disk[PhysOf(k) := data]), Done)
      case Refused => (s, BugCheck)
      case Failed(left) => (s.(disk := s.disk[PhysOf(k) := left]), HardwareFailure)
  }

  /** The same requests served by the drive alone. */
  function PlainStep(d: Disk, e: Event): (Disk, Reply)
  {
    match e
    case Read(k, ok) => (d, if ok then Got(At(d, PhysOf(k))) else BugCheck)
    case Write(k, data, outcome) =>
      match outcome
      case Stored => (d[PhysOf(k) := data], Done)
      case Refused => (d, BugCheck)
      case Failed(left) => (d[PhysOf(k) := left], HardwareFailure)
  }

  lemma StepShaped(s: Sys, e: Event)
    requires Shaped(s)
    ensures Shaped(Step(s, e).0)
  {}

  function Replies(s: Sys, es: seq<Event>): (r: seq<Reply>)
    requires Shaped(s)
    ensures |r| == |es|
    decreases |es|
  {
    if es == [] then [] else StepShaped(s, es[0]); [Step(s, es[0]).1] + Replies(Step(s, es[0]).0, es[1..])
  }

  function PlainReplies(d: Disk, es: seq<Event>): (r: seq<Reply>)
    ensures |r| == |es|
    decreases |es|
  {
    if es == [] then [] else [PlainStep(d, es[0]).1] + PlainReplies(PlainStep(d, es[0]).0, es[1..])
  }

  // ---------------------------------------------------------------------
  // Coherence
  // ---------------------------------------------------------------------

  predicate SlotOk(s: Sys, i: int)
    requires 0 <= i < |s.slots|
  {
    s.slots[i].valid ==> s.slots[i].data == At(s.disk, PhysOf(s.slots[i].key))
  }

  /** Every valid slot equals the sector it names. */
  predicate Coherent(s: Sys)
  {
    forall i :: 0 <= i < |s.slots| ==> SlotOk(s, i)
  }

  /** No key is cached twice. */
  predicate NoDuplicates(c: seq<Entry>)
  {
    forall i, j :: 0 <= i < j < |c| && c[i].valid && c[j].valid ==> c[i].key != c[j].key
  }

  /** Replacement and invalidation never cache a key twice, whatever fails. */
  lemma StepNoDuplicates(s: Sys, e: Event)
    requires Shaped(s) && NoDuplicates(s.slots)
    ensures NoDuplicates(Step(s, e).0.slots)
  {
    match e
    case Read(k, ok) =>
      if Find(s.slots, k) == 16 {
        forall i | 0 <= i < 16 && s.slots[i].valid ensures s.slots[i].key != k { assert !Holds(s.slots[i], k); }
      }
    case Write(k, data, outcome) =>
  }

  /** A slot that names the written sector under another address, or any slot that names
      it after a failed write, is left alone. */
  predicate Survives(e: Entry, k: Key, outcome: Outcome)
  {
    e.valid && PhysOf(e.key) == PhysOf(k) && (outcome.Stored? ==> e.key != k)
  }

  /** A write keeps the cache coherent exactly when no surviving slot for the same sector
      disagrees with what the write left there. */
  lemma WriteCoherentExactly(s: Sys, k: Key, data: Sector, outcome: Outcome)
    requires Shaped(s) && Coherent(s) && !outcome.Refused?
    ensures var left := if outcome.Stored? then data else outcome.left;
            Coherent(Step(s, Write(k, data, outcome)).0) <==>
            (forall i :: 0 <= i < 16 && Survives(s.slots[i], k, outcome) ==> s.slots[i].data == left)
  {
    var s' := Step(s, Write(k, data, outcome)).0;
    var left := if outcome.Stored? then data else outcome.left;
    if Coherent(s') {
      forall i | 0 <= i < 16 && Survives(s.slots[i], k, outcome) ensures s.slots[i].data == left {
        assert SlotOk(s', i);
      }
    }
    if forall i :: 0 <= i < 16 && Survives(s.slots[i], k, outcome) ==> s.slots[i].data == left {
      forall i | 0 <= i < 16 ensures SlotOk(s', i) {
        assert SlotOk(s, i);
        assert Survives(s.slots[i], k, outcome) ==> s.slots[i].data == left;
      }
    }
  }

  // ---------------------------------------------------------------------
  // Whole runs
  // ---------------------------------------------------------------------

  /** A client that reads addresses of `read` and writes addresses of `written`, on a drive
      that fails half-way through a write at most at addresses of `risky` and cannot read at
      most at addresses of `flaky`. */
  datatype Client = Client(read: set<Key>, written: set<Key>, risky: set<Key>, flaky: set<Key>)

  predicate Allowed(es: seq<Event>, c: Client)
  {
    forall i :: 0 <= i < |es| ==> AllowedEvent(es[i], c)
  }

  predicate AllowedEvent(e: Event, c: Client)
  {
    match e
    case Read(k, ok) => k in (if ok then c.read else c.flaky)
    case Write(k, _, outcome) => if outcome.Failed? then k in c.risky else k in c.written
  }

  /** No sector is written under an address other than the one it is read under, none that is
      read can be left half written, and no address is read now with success, now without. */
  predicate Clean(c: Client)
  {
    && (forall r, w :: r in c.read && w in c.written && PhysOf(r) == PhysOf(w) ==> r == w)
    && (forall r, f :: r in c.read && f in c.risky ==> PhysOf(r) != PhysOf(f))
    && c.read !! c.flaky
  }

  predicate Injective(keys: set<Key>)
  {
    forall a, b :: a in keys && b in keys && PhysOf(a) == PhysOf(b) ==> a == b
  }

  predicate CachedIn(c: seq<Entry>, keys: set<Key>)
  {
    forall i :: 0 <= i < |c| && c[i].valid ==> c[i].key in keys
  }

  lemma StepMatches(s: Sys, e: Event, c: Client)
    requires Shaped(s) && Coherent(s) && CachedIn(s.slots, c.read) && AllowedEvent(e, c) && Clean(c)
    ensures var (s', r) := Step(s, e);
            && Shaped(s') && Coherent(s') && CachedIn(s'.slots, c.read)
            && (s'.disk, r) == PlainStep(s.disk, e)
  {
    var (s', r) := Step(s, e);
    match e
    case Read(k, ok) =>
      if Find(s.slots, k) < 16 {
        assert SlotOk(s, Find(s.slots, k));
      } else {
        forall i | 0 <= i < 16 ensures SlotOk(s', i) { assert SlotOk(s, i); }
      }
    case Write(k, data, outcome) =>
      if !outcome.Refused? { WriteCoherentExactly(s, k, data, outcome); }
  }

  lemma {:induction false} RunMatches(s: Sys, es: seq<Event>, c: Client)
    requires Shaped(s) && Coherent(s) && CachedIn(s.slots, c.read) && Allowed(es, c) && Clean(c)
    ensures Replies(s, es) == PlainReplies(s.disk, es)
    decreases |es|
  {
    if es != [] {
      assert AllowedEvent(es[0], c);
      StepMatches(s, es[0], c);
      RunMatches(Step(s, es[0]).0, es[1..], c);
    }
  }

  /** The driver just started. */
  predicate Empty(s: Sys)
  {
    Shaped(s) && forall i :: 0 <= i < 16 ==> !s.slots[i].valid
  }

  /** Read a sector, write it under another address or fail to write it, read it again. */
  lemma AliasShows(s: Sys, a: Key, b: Key, fails: bool) returns (es: seq<Event>)
    requires Empty(s) && PhysOf(a) == PhysOf(b) && (fails || a != b)
    ensures Replies(s, es) != PlainReplies(s.disk, es)
    ensures Allowed(es, Client({a}, if fails then {} else {b}, if fails then {b} else {}, {}))
  {
    var v := At(s.disk, PhysOf(a));
    var d := if v == Filled(0) then Filled(1) else Filled(0);
    assert d != v by { assert Filled(0)[0] != Filled(1)[0]; }
    es := [Read(a, true), Write(b, d, if fails then Failed(d) else Stored), Read(a, true)];
    var s1 := Step(s, es[0]).0;
    assert s1.slots[s.next] == Entry(true, a, v);
    var s2 := Step(s1, es[1]).0;
    assert s2.slots[s.next] == Entry(true, a, v);
    var i := Find(s2.slots, a);
    assert Holds(s2.slots[s.next], a);
    assert i < 16 && s2.slots[i].data == v by {
      assert s2.slots[i].valid && s2.slots[i].key == a;
      assert i == s.next;
    }
    var t1, t2 := es[1..], es[1..][1..];
    assert t1[0] == es[1] && t2[0] == es[2] && t2[1..] == [];
    assert Replies(s, es)[2] == Replies(s1, t1)[1] == Replies(s2, t2)[0] == Got(v);
    var d1 := PlainStep(s.disk, es[0]).0;
    var d2 := PlainStep(d1, es[1]).0;
    assert PlainReplies(s.disk, es)[2] == PlainReplies(d1, t1)[1] == PlainReplies(d2, t2)[0] == Got(d);
  }

  /** Read a sector, then fail to read it: the cache answers all the same. */
  lemma HiddenError(s: Sys, a: Key) returns (es: seq<Event>)
    requires Empty(s)
    ensures Replies(s, es) != PlainReplies(s.disk, es) && Allowed(es, Client({a}, {}, {}, {a}))
  {
    es := [Read(a, true), Read(a, false)];
    var s1 := Step(s, es[0]).0;
    assert Holds(s1.slots[s.next], a);
    var t := es[1..];
    assert t[0] == es[1] && t[1..] == [];
    assert Replies(s, es)[1] == Replies(s1, t)[0] && Replies(s1, t)[0].Got?;
    assert PlainReplies(s.disk, es)[1] == PlainReplies(s.disk, t)[0] == BugCheck;
  }

  /** The cached driver answers every run of the client as the plain drive would, if and
      only if the client is clean. */
  lemma CacheTransparentExactly(s: Sys, c: Client)
    requires Empty(s)
    ensures (forall es :: Allowed(es, c) ==> Replies(s, es) == PlainReplies(s.disk, es)) <==> Clean(c)
  {
    if Clean(c) {
      forall es | Allowed(es, c) ensures Replies(s, es) == PlainReplies(s.disk, es) {
        RunMatches(s, es, c);
      }
    } else {
      var es := UncleanShows(s, c);
    }
  }

  lemma UncleanShows(s: Sys, c: Client) returns (es: seq<Event>)
    requires Empty(s) && !Clean(c)
    ensures Allowed(es, c) && Replies(s, es) != PlainReplies(s.disk, es)
  {
    var small: Client;
    if k :| k in c.read && k in c.flaky {
      es := HiddenError(s, k);
      small := Client({k}, {}, {}, {k});
    } else {
      var a, b, fails :| a in c.read && b in (if fails then c.risky else c.written) && PhysOf(a) == PhysOf(b) &&
        (fails || a != b);
      es := AliasShows(s, a, b, fails);
      small := Client({a}, if fails then {} else {b}, if fails then {b} else {}, {});
    }
    forall i | 0 <= i < |es| ensures AllowedEvent(es[i], c) { assert AllowedEvent(es[i], small); }
  }

  /** A client of one set of addresses, on a drive that never fails, is clean
      exactly when no two of them name the same sector. */
  lemma CleanExactly(keys: set<Key>)
    ensures Clean(Client(keys, keys, {}, {})) <==> Injective(keys)
    ensures forall risky :: Clean(Client(keys, keys, risky, {})) && risky <= keys ==> risky == {}
  {
    forall risky | Clean(Client(keys, keys, risky, {})) && risky <= keys ensures risky == {} {
      if f :| f in risky { assert f in keys && PhysOf(f) == PhysOf(f); }
    }
  }

  /** Bus and drive 0 or 1 and 28-bit addresses are never confused. */
  lemma NormalKeysInjective(keys: set<Key>)
    requires forall k :: k in keys ==> k.bus in {0, 1} && k.master in {0, 1} && k.lba < 0x1000_0000
    ensures Injective(keys)
  {
    forall a, b | a in keys && b in keys && PhysOf(a) == PhysOf(b) ensures a == b {
      assert a.lba % 0x1000_0000 == a.lba && b.lba % 0x1000_0000 == b.lba;
    }
  }

  // ---------------------------------------------------------------------
  // How long a sector stays cached
  // ---------------------------------------------------------------------

  /** The request goes to the drive and its sector into the cache. */
  predicate Misses(s: Sys, e: Event) { e.Read? && e.ok && forall i :: 0 <= i < |s.slots| ==> !Holds(s.slots[i], e.k) }

  /** The request is a write that replaces sector `k`. */
  predicate Replaces(e: Event, k: Key) { e.Write? && e.outcome.Stored? && e.k == k }

  /** The misses that spare slot `i`. */
  function Spares(s: Sys, i: int): int { if i >= s.next then i - s.next else i - s.next + 16 }

  function After(s: Sys, es: seq<Event>): (r: Sys)
    requires Shaped(s)
    ensures Shaped(r)
    decreases |es|
  {
    if es == [] then s else StepShaped(s, es[0]); After(Step(s, es[0]).0, es[1..])
  }

  function MissCount(s: Sys, es: seq<Event>): nat
    requires Shaped(s)
    decreases |es|
  {
    if es == [] then 0
    else StepShaped(s, es[0]); (if Misses(s, es[0]) then 1 else 0) + MissCount(Step(s, es[0]).0, es[1..])
  }

  /** A cached sector leaves its slot exactly when it is replaced on disk or a miss finds the
      rotation at that slot; every other miss brings the rotation one slot nearer. */
  lemma {:induction false} SlotKeptExactly(s: Sys, e: Event, i: int, k: Key)
    requires Shaped(s) && 0 <= i < 16 && Holds(s.slots[i], k)
    ensures var s' := Step(s, e).0;
            && Shaped(s')
            && (Holds(s'.slots[i], k) <==> !Replaces(e, k) && !(Misses(s, e) && Spares(s, i) == 0))
            && (Holds(s'.slots[i], k) ==>
                  s'.slots[i] == s.slots[i] && Spares(s', i) == Spares(s, i) - if Misses(s, e) then 1 else 0)
  {
    if e.Read? {
      assert Find(s.slots, e.k) < 16 <==> exists j :: 0 <= j < 16 && Holds(s.slots[j], e.k);
    }
  }

  /** So it stays for as many misses as the rotation is away. */
  lemma {:induction false} StaysCached(s: Sys, es: seq<Event>, i: int, k: Key)
    requires Shaped(s) && 0 <= i < 16 && Holds(s.slots[i], k) && MissCount(s, es) <= Spares(s, i)
    requires forall j :: 0 <= j < |es| ==> !Replaces(es[j], k)
    ensures After(s, es).slots[i] == s.slots[i]
    decreases |es|
  {
    if es != [] {
      SlotKeptExactly(s, es[0], i, k);
      var s' := Step(s, es[0]).0;
      hide Step, Misses, Spares;
      StaysCached(s', es[1..], i, k);
    }
  }

  lemma {:induction false} RunNoDuplicates(s: Sys, es: seq<Event>)
    requires Shaped(s) && NoDuplicates(s.slots)
    ensures NoDuplicates(After(s, es).slots)
    decreases |es|
  {
    if es != [] {
      StepNoDuplicates(s, es[0]);
      StepShaped(s, es[0]);
      RunNoDuplicates(Step(s, es[0]).0, es[1..]);
    }
  }

  /** A sector read from the drive is answered from the cache, whatever the drive does, until
      fifteen other sectors have been loaded or it is written. */
  lemma {:induction false} CachedForFifteen(s: Sys, k: Key, es: seq<Event>, ok: bool)
    requires Shaped(s) && NoDuplicates(s.slots) && Misses(s, Read(k, true))
    requires forall j :: 0 <= j < |es| ==> !Replaces(es[j], k)
    requires Shaped(Step(s, Read(k, true)).0) && MissCount(Step(s, Read(k, true)).0, es) <= 15
    ensures Step(After(Step(s, Read(k, true)).0, es), Read(k, ok)).1 == Got(At(s.disk, PhysOf(k)))
  {
    var i, s1 := s.next, Step(s, Read(k, true)).0;
    assert Find(s.slots, k) == 16;
    assert Holds(s1.slots[i], k) && s1.slots[i].data == At(s.disk, PhysOf(k)) && Spares(s1, i) == 15;
    StepNoDuplicates(s, Read(k, true));
    StaysCached(s1, es, i, k);
    RunNoDuplicates(s1, es);
    var r := After(s1, es);
    hide After, MissCount, Misses, Spares;
    assert Find(r.slots, k) == i;
  }

  // ---------------------------------------------------------------------
  // The driver
  // ---------------------------------------------------------------------

  class Driver {
    const cache: array<Entry>
    var stored: int
    var disk: Disk

    ghost predicate Valid()
      reads this, cache
    {
      cache.Length == 16 && 0 <= stored < 16
    }

    ghost function Abs(): (s: Sys)
      requires Valid()
      reads this, cache
      ensures Shaped(s)
    {
      Sys(cache[..], stored, disk)
    }

    constructor (disk: Disk)
      ensures Valid() && Empty(Abs()) && this.disk == disk
    {
      var z := Zeroed();
      cache := new Entry[16](_ => z);
      stored := 0;
      this.disk := disk;
    }

    method LoadCache(k: Key, data: Sector)
      requires Valid()
      modifies `stored, cache
      ensures Valid() && Abs() == Load(old(Abs()), k, data)
    {
      cache[stored] := Entry(true, k, data);
      stored := stored + 1;
      if stored >= 16 {
        stored := 0;
      }
    }

    /** CheckCacheForSector: -1 when the sector is not cached. */
    method CheckCacheForSector(k: Key) returns (pos: int)
      requires Valid()
      ensures pos == if Find(cache[..], k) < 16 then Find(cache[..], k) else -1
    {
      hide Find;
      for i := 0 to 16
        invariant forall j :: 0 <= j < i ==> !Holds(cache[j], k)
      {
        if cache[i].key == k && cache[i].valid {
          FindAt(cache[..], k, i);
          return i;
        }
      }
      FindAt(cache[..], k, 16);
      return -1;
    }

    method InvalidateCache(k: Key)
      requires Valid()
      modifies cache
      ensures cache[..] == Invalidate(old(cache[..]), k)
    {
      for i := 0 to 16
        invariant forall j :: 0 <= j < i ==> cache[j] == if old(cache[j]).key == k then Zeroed() else old(cache[j])
        invariant forall j :: i <= j < 16 ==> cache[j] == old(cache[j])
      {
        if cache[i].key == k {
          cache[i] := Zeroed();
        }
      }
    }

    method ReadFromDisk(k: Key, ok: bool) returns (r: Reply)
      requires Valid()
      modifies `stored, cache
      ensures Valid() && (Abs(), r) == Step(old(Abs()), Read(k, ok))
    {
      hide Find;
      var pos := CheckCacheForSector(k);
      if pos >= 0 {
        return Got(cache[pos].data);
      }
      if !ok {
        return BugCheck;
      }
      var data := At(disk, PhysOf(k));
      LoadCache(k, data);
      return Got(data);
    }

    method WriteToDisk(k: Key, data: Sector, outcome: Outcome) returns (r: Reply)
      requires Valid()
      modifies `disk, cache
      ensures Valid() && (Abs(), r) == Step(old(Abs()), Write(k, data, outcome))
    {
      if outcome.Refused? {
        return BugCheck;
      }
      if outcome.Failed? {
        disk := disk[PhysOf(k) := outcome.left];
        return HardwareFailure;
      }
      disk := disk[PhysOf(k) := data];
      InvalidateCache(k);
      return Done;
    }
  }

  lemma {:induction false} FindAt(c: seq<Entry>, k: Key, i: int)
    requires 0 <= i <= |c| && (i < |c| ==> Holds(c[i], k)) && forall j :: 0 <= j < i ==> !Holds(c[j], k)
    ensures Find(c, k) == i
  {
    if i > 0 { FindAt(c[1..], k, i - 1); }
  }
}
