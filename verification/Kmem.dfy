/** `perf kmem`: slab statistics per pointer and per call site. */
module Kmem {

  /** `struct alloc_stat` */
  datatype Stat = Stat(callSite: nat, bytesReq: int, bytesAlloc: int, hit: nat, pingpong: nat, allocCpu: int)

  /** Conversion to `short`. */
  function Short(x: int): (r: int)
    ensures -0x8000 <= r < 0x8000 && (x - r) % 0x1_0000 == 0
    ensures 0 <= x < 0x8000 ==> r == x
  {
    var r := x % 0x1_0000;
    if r < 0x8000 then r else r - 0x1_0000
  }

  // --- Sums over a table -------------------------------------------------------------------------

  /** The sum of `f` over the entries with keys below `n`. */
  ghost function Sum(m: map<nat, Stat>, f: Stat -> int, n: nat): int {
    if n == 0 then 0 else Sum(m, f, n - 1) + At(m, f, n - 1)
  }

  ghost function At(m: map<nat, Stat>, f: Stat -> int, k: nat): int { if k in m then f(m[k]) else 0 }

  lemma {:induction false} SumPut(m: map<nat, Stat>, f: Stat -> int, k: nat, s: Stat, n: nat)
    ensures Sum(m[k := s], f, n) == Sum(m, f, n) + if k < n then f(s) - At(m, f, k) else 0
  {
    if n > 0 { SumPut(m, f, k, s, n - 1); }
  }

  ghost function Req(): Stat -> int { (s: Stat) => s.bytesReq }
  ghost function Alloc(): Stat -> int { (s: Stat) => s.bytesAlloc }
  ghost function Hits(): Stat -> int { (s: Stat) => s.hit }
  ghost function PingPongs(): Stat -> int { (s: Stat) => s.pingpong }

  /** What one allocation adds to a table. */
  ghost function Grown(m: map<nat, Stat>, k: nat, req: int, alloc: int): Stat {
    if k in m then m[k].(hit := m[k].hit + 1, bytesReq := m[k].bytesReq + req, bytesAlloc := m[k].bytesAlloc + alloc)
    else Stat(0, req, alloc, 1, 0, 0)
  }

  /** An entry that grows by one allocation, whatever its call site and CPU become. */
  lemma SumGrown(m: map<nat, Stat>, k: nat, req: int, alloc: int, callSite: nat, cpu: int, n: nat)
    requires k < n
    ensures var m' := m[k := Grown(m, k, req, alloc).(callSite := callSite, allocCpu := cpu)];
      && Sum(m', Req(), n) == Sum(m, Req(), n) + req && Sum(m', Alloc(), n) == Sum(m, Alloc(), n) + alloc
      && Sum(m', Hits(), n) == Sum(m, Hits(), n) + 1 && Sum(m', PingPongs(), n) == Sum(m, PingPongs(), n)
  {
    var s := Grown(m, k, req, alloc).(callSite := callSite, allocCpu := cpu);
    SumPut(m, Req(), k, s, n);
    SumPut(m, Alloc(), k, s, n);
    SumPut(m, Hits(), k, s, n);
    SumPut(m, PingPongs(), k, s, n);
  }

  /** An entry whose ping-pong count grows by `d`. */
  lemma SumPinged(m: map<nat, Stat>, k: nat, d: nat, cpu: int, n: nat)
    requires k in m && k < n
    ensures var m' := m[k := m[k].(pingpong := m[k].pingpong + d, allocCpu := cpu)];
      && Sum(m', Req(), n) == Sum(m, Req(), n) && Sum(m', Alloc(), n) == Sum(m, Alloc(), n)
      && Sum(m', Hits(), n) == Sum(m, Hits(), n) && Sum(m', PingPongs(), n) == Sum(m, PingPongs(), n) + d
  {
    var s := m[k].(pingpong := m[k].pingpong + d, allocCpu := cpu);
    SumPut(m, Req(), k, s, n);
    SumPut(m, Alloc(), k, s, n);
    SumPut(m, Hits(), k, s, n);
    SumPut(m, PingPongs(), k, s, n);
  }

  // --- What a recording says ---------------------------------------------------------------------

  datatype Event =
    | AllocEvent(ptr: nat, callSite: nat, bytesReq: int, bytesAlloc: int, cpu: int)
    | AllocNodeEvent(ptr: nat, callSite: nat, bytesReq: int, bytesAlloc: int, cpu: int, node1: int, node2: int)
    | FreeEvent(ptr: nat, cpu: int)

  datatype What = Requested | Allocated | Hit

  /** What an event adds under `key`, a pointer or a call site. */
  ghost function Amount(e: Event, key: nat, byPtr: bool, what: What): int {
    if e.FreeEvent? || (if byPtr then e.ptr else e.callSite) != key then 0
    else match what
      case Requested => e.bytesReq
      case Allocated => e.bytesAlloc
      case Hit => 1
  }

  ghost function Total(events: seq<Event>, key: nat, byPtr: bool, what: What): (r: int)
    ensures what == Hit ==> r >= 0
  {
    if events == [] then 0
    else Total(events[..|events| - 1], key, byPtr, what) + Amount(events[|events| - 1], key, byPtr, what)
  }

  /** The call site of the last allocation of `ptr`. */
  ghost function Site(events: seq<Event>, ptr: nat): nat {
    if events == [] then 0
    else
      var e := events[|events| - 1];
      if !e.FreeEvent? && e.ptr == ptr then e.callSite else Site(events[..|events| - 1], ptr)
  }

  /** The CPU that last allocated `ptr`, or -1 once it is freed. */
  ghost function Cpu(events: seq<Event>, ptr: nat): int {
    if events == [] then 0
    else
      var e := events[|events| - 1];
      if e.ptr != ptr then Cpu(events[..|events| - 1], ptr)
      else if e.FreeEvent? then -1 else Short(e.cpu)
  }

  /** After `before`, the event frees a known pointer on another CPU than the one it was allocated on. */
  ghost predicate Moves(before: seq<Event>, e: Event) {
    e.FreeEvent? && Total(before, e.ptr, true, Hit) > 0 && Short(e.cpu) != Cpu(before, e.ptr)
  }

  ghost function Pings(events: seq<Event>, key: nat, byPtr: bool): nat {
    if events == [] then 0
    else
      var before, e := events[..|events| - 1], events[|events| - 1];
      var mine := (if byPtr then e.ptr else Site(before, e.ptr)) == key;
      Pings(before, key, byPtr) + if Moves(before, e) && mine then 1 else 0
  }

  ghost function Crossed(events: seq<Event>): nat {
    if events == [] then 0
    else NextCrossed(Crossed(events[..|events| - 1]), events[|events| - 1])
  }

  ghost function NextCrossed(n: nat, e: Event): nat { if e.AllocNodeEvent? && e.node1 != e.node2 then n + 1 else n }

  ghost function StatOf(events: seq<Event>, key: nat, byPtr: bool): Stat {
    Stat(if byPtr then Site(events, key) else key, Total(events, key, byPtr, Requested),
      Total(events, key, byPtr, Allocated),
         Total(events, key, byPtr, Hit), Pings(events, key, byPtr), if byPtr then Cpu(events, key) else 0)
  }

  lemma {:induction false} SiteSeen(events: seq<Event>, ptr: nat)
    ensures Total(events, ptr, true, Hit) > 0 ==> Total(events, Site(events, ptr), false, Hit) > 0
  {
    if events != [] { SiteSeen(events[..|events| - 1], ptr); }
  }

  /** What was never allocated has no figures. */
  lemma {:induction false} Unseen(events: seq<Event>, key: nat, byPtr: bool)
    ensures Total(events, key, byPtr, Hit) == 0 ==>
      && Total(events, key, byPtr, Requested) == 0 && Total(events, key, byPtr, Allocated) == 0
      && Pings(events, key, byPtr) == 0
  {
    if events != [] {
      var before, e := events[..|events| - 1], events[|events| - 1];
      Unseen(before, key, byPtr);
      SiteSeen(before, e.ptr);
    }
  }

  ghost predicate TellsOne(m: map<nat, Stat>, events: seq<Event>, key: nat, byPtr: bool) {
    (key in m <==> Total(events, key, byPtr, Hit) > 0) && (key in m ==> m[key] == StatOf(events, key, byPtr))
  }

  /** The table holds just the pointers, or call sites, of the recording, each with its figures. */
  ghost predicate Tells(m: map<nat, Stat>, events: seq<Event>, byPtr: bool) {
    forall key :: TellsOne(m, events, key, byPtr)
  }

  lemma TellsPtr(m: map<nat, Stat>, before: seq<Event>, e: Event, events: seq<Event>)
    requires Tells(m, before, true) && events == before + [e]
    ensures Tells(NextAllocs(m, e), events, true)
  {
    assert events[..|events| - 1] == before;
    forall key
      ensures TellsOne(NextAllocs(m, e), events, key, true)
    {
      Unseen(before, key, true);
      assert TellsOne(m, before, key, true) && TellsOne(m, before, e.ptr, true);
    }
  }

  lemma TellsSite(m: map<nat, Stat>, allocs: map<nat, Stat>, before: seq<Event>, e: Event, events: seq<Event>)
    requires Tells(allocs, before, true) && Tells(m, before, false) && Known(allocs, m) && events == before + [e]
    ensures Tells(NextCallers(m, allocs, e), events, false)
  {
    assert events[..|events| - 1] == before;
    forall key
      ensures TellsOne(NextCallers(m, allocs, e), events, key, false)
    {
      Unseen(before, key, false);
      assert TellsOne(m, before, key, false) && TellsOne(allocs, before, e.ptr, true);
    }
  }

  // --- The handlers ----------------------------------------------------------------------------------

  /** Every pointer's call site is known. */
  ghost predicate Known(allocs: map<nat, Stat>, callers: map<nat, Stat>) {
    forall p :: p in allocs ==> allocs[p].callSite in callers
  }

  ghost function NextAllocs(m: map<nat, Stat>, e: Event): map<nat, Stat> {
    if !e.FreeEvent? then
      m[e.ptr := Grown(m, e.ptr, e.bytesReq, e.bytesAlloc).(callSite := e.callSite, allocCpu := Short(e.cpu))]
    else if e.ptr !in m then m
    else
      var a := m[e.ptr];
      m[e.ptr := a.(pingpong := a.pingpong + (if Short(e.cpu) != a.allocCpu then 1 else 0), allocCpu := -1)]
  }

  ghost function NextCallers(m: map<nat, Stat>, allocs: map<nat, Stat>, e: Event): map<nat, Stat>
    requires Known(allocs, m)
  {
    if !e.FreeEvent? then
      var g := Grown(m, e.callSite, e.bytesReq, e.bytesAlloc);
      m[e.callSite := g.(callSite := if e.callSite in m then g.callSite else e.callSite)]
    else if e.ptr !in allocs || Short(e.cpu) == allocs[e.ptr].allocCpu then m
    else
      var c := allocs[e.ptr].callSite;
      m[c := m[c].(pingpong := m[c].pingpong + 1)]
  }

  /** Both tables and the count of cross-node allocations tell what the recording says. */
  ghost predicate AllTold(allocs: map<nat, Stat>, callers: map<nat, Stat>, crossed: nat, events: seq<Event>) {
    Tells(allocs, events, true) && Tells(callers, events, false) && crossed == Crossed(events)
  }

  lemma ToldMore(allocs: map<nat, Stat>, callers: map<nat, Stat>, crossed: nat, events: seq<Event>, n: nat)
    requires n < |events| && AllTold(allocs, callers, crossed, events[..n]) && Known(allocs, callers)
    ensures var e := events[n];
      AllTold(NextAllocs(allocs, e), NextCallers(callers, allocs, e), NextCrossed(crossed, e), events[..n + 1])
  {
    var before, upto := events[..n], events[..n + 1];
    assert upto == before + [events[n]] && upto[..n] == before;
    TellsPtr(allocs, before, events[n], upto);
    TellsSite(callers, allocs, before, events[n], upto);
  }

  class Slab {
    /** `root_alloc_stat` by pointer and `root_caller_stat` by call site. */
    var allocs: map<nat, Stat>
    var callers: map<nat, Stat>
    var totalRequested: int
    var totalAllocated: int
    var nrAllocs: nat
    var nrCrossAllocs: nat
    /** A bound on pointers and call sites. */
    ghost const limit: nat

    /** Both tables add up to the totals, and every pointer's call site is known. */
    ghost predicate Valid()
      reads this
    {
      && Known(allocs, callers) && (forall p :: p in allocs ==> p < limit)
      && (forall c :: c in callers ==> c < limit)
      && Sum(allocs, Req(), limit) == Sum(callers, Req(), limit) == totalRequested
      && Sum(allocs, Alloc(), limit) == Sum(callers, Alloc(), limit) == totalAllocated
      && Sum(allocs, Hits(), limit) == Sum(callers, Hits(), limit) == nrAllocs
      && Sum(allocs, PingPongs(), limit) == Sum(callers, PingPongs(), limit)
    }

    constructor (ghost limit: nat)
      ensures Valid() && this.limit == limit && allocs == callers == map[] && nrCrossAllocs == 0
    {
      allocs, callers, totalRequested, totalAllocated, nrAllocs, nrCrossAllocs := map[], map[], 0, 0, 0, 0;
      this.limit := limit;
      new;
      EmptySums(limit);
    }

    /** `insert_alloc_stat` */
    method InsertAlloc(callSite: nat, ptr: nat, bytesReq: int, bytesAlloc: int, cpu: int)
      modifies `allocs
      ensures var g := Grown(old(allocs), ptr, bytesReq, bytesAlloc);
        allocs == old(allocs)[ptr := g.(callSite := callSite, allocCpu := Short(cpu))]
    {
      var data;
      if ptr in allocs {
        data := allocs[ptr];
        data := data.(hit := data.hit + 1);
        data := data.(bytesReq := data.bytesReq + bytesReq, bytesAlloc := data.bytesAlloc + bytesAlloc);
      } else {
        data := Stat(0, bytesReq, bytesAlloc, 1, 0, 0);
      }
      allocs := allocs[ptr := data.(callSite := callSite, allocCpu := Short(cpu))];
    }

    /** `insert_caller_stat` */
    method InsertCaller(callSite: nat, bytesReq: int, bytesAlloc: int)
      modifies `callers
      ensures var g := Grown(old(callers), callSite, bytesReq, bytesAlloc);
        callers == old(callers)[callSite := g.(callSite := if callSite in old(callers) then g.callSite else callSite)]
    {
      var data;
      if callSite in callers {
        data := callers[callSite];
        data := data.(hit := data.hit + 1);
        data := data.(bytesReq := data.bytesReq + bytesReq, bytesAlloc := data.bytesAlloc + bytesAlloc);
      } else {
        data := Stat(callSite, bytesReq, bytesAlloc, 1, 0, 0);
      }
      callers := callers[callSite := data];
    }

    /** `perf_evsel__process_alloc_event` */
    method AllocHandler(ptr: nat, callSite: nat, bytesReq: int, bytesAlloc: int, cpu: int)
      requires Valid() && ptr < limit && callSite < limit
      modifies `allocs, `callers, `totalRequested, `totalAllocated, `nrAllocs
      ensures Valid() && nrAllocs == old(nrAllocs) + 1
      ensures totalRequested == old(totalRequested) + bytesReq && totalAllocated == old(totalAllocated) + bytesAlloc
      ensures var e := AllocEvent(ptr, callSite, bytesReq, bytesAlloc, cpu);
        allocs == NextAllocs(old(allocs), e) && callers == NextCallers(old(callers), old(allocs), e)
    {
      ghost var g := Grown(callers, callSite, bytesReq, bytesAlloc);
      SumGrown(allocs, ptr, bytesReq, bytesAlloc, callSite, Short(cpu), limit);
      ghost var site := if callSite in callers then g.callSite else callSite;
      SumGrown(callers, callSite, bytesReq, bytesAlloc, site, g.allocCpu, limit);
      InsertAlloc(callSite, ptr, bytesReq, bytesAlloc, cpu);
      InsertCaller(callSite, bytesReq, bytesAlloc);
      totalRequested := totalRequested + bytesReq;
      totalAllocated := totalAllocated + bytesAlloc;
      nrAllocs := nrAllocs + 1;
    }

    /** `perf_evsel__process_alloc_node_event`; `node1` is the node of the CPU. */
    method AllocNodeHandler(ptr: nat, callSite: nat, bytesReq: int, bytesAlloc: int, cpu: int, node1: int, node2: int)
      requires Valid() && ptr < limit && callSite < limit
      modifies this
      ensures Valid() && nrAllocs == old(nrAllocs) + 1
      ensures totalRequested == old(totalRequested) + bytesReq && totalAllocated == old(totalAllocated) + bytesAlloc
      ensures nrCrossAllocs == old(nrCrossAllocs) + if node1 != node2 then 1 else 0
      ensures var e := AllocNodeEvent(ptr, callSite, bytesReq, bytesAlloc, cpu, node1, node2);
        allocs == NextAllocs(old(allocs), e) && callers == NextCallers(old(callers), old(allocs), e)
    {
      AllocHandler(ptr, callSite, bytesReq, bytesAlloc, cpu);
      if node1 != node2 { nrCrossAllocs := nrCrossAllocs + 1; }
    }

    /** `perf_evsel__process_free_event`: the call site is always found. */
    method FreeHandler(ptr: nat, cpu: int) returns (rc: int)
      requires Valid()
      modifies `allocs, `callers
      ensures Valid() && rc == 0
      ensures allocs == NextAllocs(old(allocs), FreeEvent(ptr, cpu))
      ensures callers == NextCallers(old(callers), old(allocs), FreeEvent(ptr, cpu))
    {
      if ptr !in allocs { return 0; }
      var s := allocs[ptr];
      if Short(cpu) != s.allocCpu {
        SumPinged(allocs, ptr, 1, -1, limit);
        SumPinged(callers, s.callSite, 1, callers[s.callSite].allocCpu, limit);
        s := s.(pingpong := s.pingpong + 1);
        if s.callSite !in callers { return -1; }
        var c := callers[s.callSite];
        callers := callers[s.callSite := c.(pingpong := c.pingpong + 1)];
      } else {
        SumPinged(allocs, ptr, 0, -1, limit);
      }
      allocs := allocs[ptr := s.(allocCpu := -1)];
      rc := 0;
    }

    /** A whole recording: no event fails, and both tables tell what the recording says. */
    method Process(events: seq<Event>) returns (ok: bool)
      requires Valid() && allocs == callers == map[] && nrCrossAllocs == 0
      requires forall e :: e in events && !e.FreeEvent? ==> e.ptr < limit && e.callSite < limit
      modifies this
      ensures Valid() && ok
      ensures Tells(allocs, events, true) && Tells(callers, events, false) && nrCrossAllocs == Crossed(events)
    {
      ok := true;
      for n := 0 to |events|
        invariant Valid() && ok && AllTold(allocs, callers, nrCrossAllocs, events[..n])
      {
        assert events[n] in events;
        ToldMore(allocs, callers, nrCrossAllocs, events, n);
        ok := Handle(events[n]);
      }
      assert events[..|events|] == events;
    }

    method Handle(e: Event) returns (ok: bool)
      requires Valid() && (!e.FreeEvent? ==> e.ptr < limit && e.callSite < limit)
      modifies this
      ensures Valid() && ok
      ensures allocs == NextAllocs(old(allocs), e) && callers == NextCallers(old(callers), old(allocs), e)
      ensures nrCrossAllocs == NextCrossed(old(nrCrossAllocs), e)
    {
      match e {
        case AllocEvent(ptr, callSite, bytesReq, bytesAlloc, cpu) =>
          AllocHandler(ptr, callSite, bytesReq, bytesAlloc, cpu);
        case AllocNodeEvent(ptr, callSite, bytesReq, bytesAlloc, cpu, node1, node2) =>
          AllocNodeHandler(ptr, callSite, bytesReq, bytesAlloc, cpu, node1, node2);
        case FreeEvent(ptr, cpu) =>
          var rc := FreeHandler(ptr, cpu);
          if rc != 0 { return false; }
      }
      ok := true;
    }
  }

  lemma {:induction false} EmptySums(n: nat)
    ensures Sum(map[], Req(), n) == Sum(map[], Alloc(), n) == Sum(map[], Hits(), n) == Sum(map[], PingPongs(), n) == 0
  {
    if n > 0 { EmptySums(n - 1); }
  }
}
