/** `perf sched latency`: per-task lists of waits, with running totals. */
module Latency {
  import opened Machine

  datatype ThreadState = Sleeping | WaitCpu | SchedIn | Ignore

  /** `struct work_atom`: from being switched out, through the wakeup, to being switched in. */
  datatype WorkAtom = WorkAtom(state: ThreadState, out: nat, wake: nat, into: nat, runtime: nat)

  type Work = seq<WorkAtom>

  // --- The steps on one list ----------------------------------------------------------------

  function OutAtom(runnable: bool, time: nat): WorkAtom {
    if runnable then WorkAtom(WaitCpu, time, time, 0, 0) else WorkAtom(Sleeping, time, 0, 0, 0)
  }

  function Last(w: Work): WorkAtom
    requires w != []
  {
    w[|w| - 1]
  }

  function SetLast(w: Work, a: WorkAtom): Work
    requires w != []
  {
    w[|w| - 1 := a]
  }

  function AfterIn(w: Work, time: nat): Work {
    if w == [] || Last(w).state != WaitCpu then w
    else if time < Last(w).wake then SetLast(w, Last(w).(state := Ignore))
    else SetLast(w, Last(w).(state := SchedIn, into := time))
  }

  function AfterRuntime(w: Work, delta: nat): Work
    requires w != []
  {
    SetLast(w, Last(w).(runtime := Last(w).runtime + delta))
  }

  function AfterWakeup(w: Work, time: nat): Work
    requires w != []
  {
    if Last(w).state != Sleeping || Last(w).out > time then w
    else SetLast(w, Last(w).(state := WaitCpu, wake := time))
  }

  /** A wakeup has to be stamped, and is out of order. */
  function Stamps(w: Work): nat
    requires w != []
  {
    if Last(w).state == Sleeping then 1 else 0
  }

  function Late(w: Work, time: nat): nat
    requires w != []
  {
    if Last(w).state == Sleeping && Last(w).out > time then 1 else 0
  }

  // --- What the totals add up ---------------------------------------------------------------------

  datatype Totals = Totals(nb: nat, lat: nat, max: nat, run: nat)

  function Max(a: nat, b: nat): nat { if a < b then b else a }

  function Plus(a: Totals, b: Totals): Totals {
    Totals(a.nb + b.nb, a.lat + b.lat, Max(a.max, b.max), a.run + b.run)
  }

  function Wait(a: WorkAtom): nat { if a.into >= a.wake then a.into - a.wake else 0 }

  function Share(a: WorkAtom): Totals {
    if a.state == SchedIn then Totals(1, Wait(a), Wait(a), a.runtime) else Totals(0, 0, 0, a.runtime)
  }

  /** Count, sum and maximum of the finished waits, and all the run time. */
  function Summary(w: Work): Totals {
    if w == [] then Totals(0, 0, 0, 0) else Plus(Summary(w[..|w| - 1]), Share(Last(w)))
  }

  lemma SummaryAppend(w: Work, a: WorkAtom)
    ensures Summary(w + [a]) == Plus(Summary(w), Share(a))
  {
    assert (w + [a])[..|w|] == w;
  }

  lemma SummarySetLast(w: Work, a: WorkAtom)
    requires w != []
    ensures Summary(SetLast(w, a)) == Plus(Summary(w[..|w| - 1]), Share(a))
  {
    assert SetLast(w, a)[..|w| - 1] == w[..|w| - 1];
  }

  lemma {:induction false} SummaryConcat(v: Work, w: Work)
    ensures Summary(v + w) == Plus(Summary(v), Summary(w))
  {
    if w == [] {
      assert v + w == v;
    } else {
      var n := |w| - 1;
      assert v + w == (v + w[..n]) + [w[n]];
      SummaryAppend(v + w[..n], w[n]);
      SummaryConcat(v, w[..n]);
    }
  }

  ghost predicate Ordered(a: WorkAtom) {
    && (a.state == WaitCpu || a.state == SchedIn ==> a.out <= a.wake)
    && (a.state == SchedIn ==> a.wake <= a.into)
  }

  ghost predicate AllOrdered(w: Work) {
    forall k :: 0 <= k < |w| ==> Ordered(w[k])
  }

  /** Some finished wait was `max` long and ended at `at`. */
  ghost predicate Attained(w: Work, max: nat, at: nat) {
    exists k :: 0 <= k < |w| && w[k].state == SchedIn && Wait(w[k]) == max && w[k].into == at
  }

  lemma AttainedSetLast(w: Work, a: WorkAtom, max: nat, at: nat)
    requires w != [] && Attained(w, max, at) && Last(w).state == SchedIn ==> a == Last(w).(runtime := a.runtime)
    ensures w != [] && Attained(w, max, at) ==> Attained(SetLast(w, a), max, at)
  {
    if w != [] && Attained(w, max, at) {
      var k :| 0 <= k < |w| && w[k].state == SchedIn && Wait(w[k]) == max && w[k].into == at;
      assert SetLast(w, a)[k] == if k == |w| - 1 then a else w[k];
    }
  }

  lemma AttainedConcat(v: Work, w: Work, max: nat, at: nat)
    ensures Attained(v, max, at) ==> Attained(v + w, max, at)
    ensures Attained(w, max, at) ==> Attained(v + w, max, at)
  {
    if Attained(v, max, at) {
      var k :| 0 <= k < |v| && v[k].state == SchedIn && Wait(v[k]) == max && v[k].into == at;
      assert (v + w)[k] == v[k];
    }
    if Attained(w, max, at) {
      var k :| 0 <= k < |w| && w[k].state == SchedIn && Wait(w[k]) == max && w[k].into == at;
      assert (v + w)[|v| + k] == w[k];
    }
  }

  // --- Each step keeps the account ------------------------------------------------------------

  /** `t` sums up the list, and `at` says when its longest wait ended. */
  ghost predicate Account(w: Work, t: Totals, at: nat) {
    t == Summary(w) && AllOrdered(w) && (t.max > 0 ==> Attained(w, t.max, at))
  }

  lemma OutAccount(w: Work, t: Totals, at: nat, runnable: bool, time: nat)
    requires Account(w, t, at)
    ensures Account(w + [OutAtom(runnable, time)], t, at)
  {
    SummaryAppend(w, OutAtom(runnable, time));
    AttainedConcat(w, [OutAtom(runnable, time)], t.max, at);
  }

  lemma SetLastAccount(w: Work, t: Totals, at: nat, a: WorkAtom)
    requires Account(w, t, at) && w != [] && Ordered(a)
    requires Last(w).state == SchedIn ==> a == Last(w).(runtime := a.runtime)
    ensures AllOrdered(SetLast(w, a)) && (t.max > 0 ==> Attained(SetLast(w, a), t.max, at))
    ensures t == Plus(Summary(w[..|w| - 1]), Share(Last(w)))
    ensures Summary(SetLast(w, a)) == Plus(Summary(w[..|w| - 1]), Share(a))
  {
    SummarySetLast(w, a);
    AttainedSetLast(w, a, t.max, at);
  }

  lemma RuntimeAccount(w: Work, t: Totals, at: nat, delta: nat)
    requires Account(w, t, at) && w != []
    ensures Account(AfterRuntime(w, delta), t.(run := t.run + delta), at)
  {
    assert Ordered(Last(w));
    SetLastAccount(w, t, at, Last(w).(runtime := Last(w).runtime + delta));
  }

  lemma WakeupAccount(w: Work, t: Totals, at: nat, time: nat)
    requires Account(w, t, at) && w != []
    ensures Account(AfterWakeup(w, time), t, at)
  {
    if Last(w).state == Sleeping && Last(w).out <= time {
      SetLastAccount(w, t, at, Last(w).(state := WaitCpu, wake := time));
    }
  }

  lemma IgnoreAccount(w: Work, t: Totals, at: nat)
    requires Account(w, t, at) && w != [] && Last(w).state == WaitCpu
    ensures Account(SetLast(w, Last(w).(state := Ignore)), t, at)
  {
    SetLastAccount(w, t, at, Last(w).(state := Ignore));
  }

  lemma InAccount(w: Work, t: Totals, at: nat, time: nat)
    requires Account(w, t, at) && w != [] && Last(w).state == WaitCpu && time >= Last(w).wake
    ensures var d := time - Last(w).wake;
      Account(AfterIn(w, time), Totals(t.nb + 1, t.lat + d, Max(t.max, d), t.run), if d > t.max then time else at)
  {
    assert Ordered(Last(w));
    SetLastAccount(w, t, at, Last(w).(state := SchedIn, into := time));
    assert AfterIn(w, time)[|w| - 1].into == time;
  }

  lemma MergeAccount(v: Work, t: Totals, at: nat, w: Work, u: Totals, at': nat)
    requires Account(v, t, at) && Account(w, u, at')
    ensures Account(v + w, Plus(t, u), if u.max < t.max then at else at')
  {
    SummaryConcat(v, w);
    AttainedConcat(v, w, t.max, at);
    AttainedConcat(v, w, u.max, at');
  }

  // --- One task --------------------------------------------------------------------------------

  /** `struct work_atoms` */
  class WorkAtoms {
    const tid: nat
    const comm: string
    var workList: Work
    var maxLat: nat
    var maxLatAt: nat
    var totalLat: nat
    var nbAtoms: nat
    var totalRuntime: nat
    var numMerged: nat

    /** Everything that a step may change. */
    ghost function View(): (Work, Totals, nat, nat)
      reads this
    {
      (workList, Sums(), maxLatAt, numMerged)
    }

    ghost function Sums(): Totals
      reads this
    {
      Totals(nbAtoms, totalLat, maxLat, totalRuntime)
    }

    /** The totals are those of the list. */
    ghost predicate Ok()
      reads this
    {
      Account(workList, Sums(), maxLatAt)
    }

    constructor (tid: nat, comm: string)
      ensures Ok() && this.tid == tid && this.comm == comm && workList == [] && numMerged == 0
    {
      this.tid, this.comm, workList := tid, comm, [];
      maxLat, maxLatAt, totalLat, nbAtoms, totalRuntime, numMerged := 0, 0, 0, 0, 0, 0;
    }

    /** `add_sched_out_event` */
    method AddSchedOut(runnable: bool, time: nat)
      requires Ok()
      modifies `workList
      ensures Ok() && workList == old(workList) + [OutAtom(runnable, time)]
    {
      OutAccount(workList, Sums(), maxLatAt, runnable, time);
      workList := workList + [OutAtom(runnable, time)];
    }

    /** `add_runtime_event` */
    method AddRuntime(delta: nat)
      requires Ok() && workList != []
      modifies `workList, `totalRuntime
      ensures Ok() && workList == old(AfterRuntime(workList, delta))
    {
      RuntimeAccount(workList, Sums(), maxLatAt, delta);
      var a := Last(workList);
      workList := SetLast(workList, a.(runtime := a.runtime + delta));
      totalRuntime := totalRuntime + delta;
    }

    /** `add_sched_in_event` */
    method AddSchedIn(time: nat)
      requires Ok()
      modifies this
      ensures Ok() && workList == old(AfterIn(workList, time)) && numMerged == old(numMerged)
    {
      if workList == [] { return; }
      var a := Last(workList);
      if a.state != WaitCpu { return; }
      if time < a.wake {
        IgnoreAccount(workList, Sums(), maxLatAt);
        workList := SetLast(workList, a.(state := Ignore));
        return;
      }
      InAccount(workList, Sums(), maxLatAt, time);
      a := a.(state := SchedIn, into := time);
      workList := SetLast(workList, a);
      var delta := a.into - a.wake;
      totalLat := totalLat + delta;
      if delta > maxLat {
        maxLat, maxLatAt := delta, time;
      }
      nbAtoms := nbAtoms + 1;
    }

    /** The equal case of `__merge_work_atoms`: the other list is spliced in at the front. */
    method Merge(data: WorkAtoms)
      requires Ok() && data.Ok() && data != this
      modifies this
      ensures Ok() && workList == data.workList + old(workList) && numMerged == old(numMerged) + 1
    {
      ghost var t, u, joined := data.Sums(), Sums(), data.workList + workList;
      ghost var at := if u.max < t.max then data.maxLatAt else maxLatAt;
      assert Account(joined, Plus(t, u), at) by {
        MergeAccount(data.workList, t, data.maxLatAt, workList, u, maxLatAt);
      }
      numMerged := numMerged + 1;
      totalRuntime := totalRuntime + data.totalRuntime;
      nbAtoms := nbAtoms + data.nbAtoms;
      totalLat := totalLat + data.totalLat;
      workList := data.workList + workList;
      if maxLat < data.maxLat {
        maxLat, maxLatAt := data.maxLat, data.maxLatAt;
      }
      assert Sums() == Plus(t, u) && workList == joined && maxLatAt == at;
    }

    /** The tail of `latency_wakeup_event`, with no single CPU being profiled. */
    method Wake(time: nat) returns (stamped: bool, unordered: bool)
      requires Ok() && workList != []
      modifies `workList
      ensures Ok() && workList == old(AfterWakeup(workList, time))
      ensures stamped <==> old(Last(workList)).state == Sleeping
      ensures unordered <==> stamped && old(Last(workList)).out > time
    {
      var a := Last(workList);
      if a.state != Sleeping { return false, false; }
      if a.out > time { return true, true; }
      WakeupAccount(workList, Sums(), maxLatAt, time);
      a := a.(state := WaitCpu, wake := time);
      workList := SetLast(workList, a);
      return true, false;
    }
  }

  // --- All tasks ---------------------------------------------------------------------------------

  /** The lists with one for task `t`, which starts with an atom if it is new. */
  function Met(lists: map<nat, Work>, t: nat, runnable: bool, time: nat): map<nat, Work> {
    if t in lists then lists else lists[t := [OutAtom(runnable, time)]]
  }

  function Gone(lists: map<nat, Work>, t: nat, runnable: bool, time: nat): map<nat, Work> {
    lists[t := (if t in lists then lists[t] else []) + [OutAtom(runnable, time)]]
  }

  function Switched(lists: map<nat, Work>, prev: nat, runnable: bool, next: nat, time: nat): map<nat, Work> {
    var met := Met(Gone(lists, prev, runnable, time), next, true, time);
    met[next := AfterIn(met[next], time)]
  }

  datatype Event =
    | SwitchEvent(cpu: nat, prevPid: nat, prevState: nat, nextPid: nat, time: nat)
    | RuntimeEvent(pid: nat, runtime: nat, time: nat)
    | WakeupEvent(pid: nat, time: nat)

  /** The lists, the time of the last switch on each CPU, how many wakeups had to be stamped and
      how many of them were out of order, and whether no event has failed. */
  datatype Trace = Trace(lists: map<nat, Work>, last: seq<nat>, stamps: nat, unordered: nat, ok: bool)

  ghost predicate Fits(w: Trace) {
    |w.last| == MAX_CPUS && forall t :: t in w.lists ==> w.lists[t] != []
  }

  ghost predicate InRange(e: Event) { e.SwitchEvent? ==> e.cpu < MAX_CPUS && e.time < TWO_64 }

  ghost predicate Backwards(last: nat, time: nat) { last != 0 && (time - last) % TWO_64 >= TWO_63 }

  ghost function Next(w: Trace, e: Event): (w': Trace)
    requires Fits(w) && InRange(e)
    ensures Fits(w')
  {
    if !w.ok then w
    else match e
      case SwitchEvent(cpu, prevPid, prevState, nextPid, time) =>
        if Backwards(w.last[cpu], time) then w.(last := w.last[cpu := time], ok := false)
        else w.(lists := Switched(w.lists, prevPid, prevState == 0, nextPid, time), last := w.last[cpu := time])
      case RuntimeEvent(pid, runtime, time) =>
        var met := Met(w.lists, pid, true, time);
        w.(lists := met[pid := AfterRuntime(met[pid], runtime)])
      case WakeupEvent(pid, time) =>
        var met := Met(w.lists, pid, false, time);
        w.(lists := met[pid := AfterWakeup(met[pid], time)],
           stamps := w.stamps + Stamps(met[pid]), unordered := w.unordered + Late(met[pid], time))
  }

  lemma RuntimeNext(w: Trace, w': Trace, pid: nat, runtime: nat, time: nat)
    requires Fits(w) && w.ok && w'.ok && w'.last == w.last && w'.stamps == w.stamps && w'.unordered == w.unordered
    requires var met := Met(w.lists, pid, true, time); w'.lists == met[pid := AfterRuntime(met[pid], runtime)]
    ensures w' == Next(w, RuntimeEvent(pid, runtime, time))
  {
  }

  lemma WakeupNext(w: Trace, w': Trace, pid: nat, time: nat)
    requires Fits(w) && w.ok && w'.ok && w'.last == w.last
    requires var met := Met(w.lists, pid, false, time);
      && w'.lists == met[pid := AfterWakeup(met[pid], time)]
      && w'.stamps == w.stamps + Stamps(met[pid]) && w'.unordered == w.unordered + Late(met[pid], time)
    ensures w' == Next(w, WakeupEvent(pid, time))
  {
  }

  ghost function After(w: Trace, events: seq<Event>): (w': Trace)
    requires Fits(w) && forall n :: 0 <= n < |events| ==> InRange(events[n])
    ensures Fits(w')
  {
    if events == [] then w else Next(After(w, events[..|events| - 1]), events[|events| - 1])
  }

  lemma AfterMore(w: Trace, events: seq<Event>, n: nat)
    requires Fits(w) && (forall k :: 0 <= k < |events| ==> InRange(events[k])) && n < |events|
    ensures After(w, events[..n + 1]) == Next(After(w, events[..n]), events[n])
  {
    assert events[..n + 1][..n] == events[..n];
  }

  lemma {:induction false} AfterFailure(w: Trace, events: seq<Event>, n: nat)
    requires Fits(w) && (forall k :: 0 <= k < |events| ==> InRange(events[k])) && n <= |events|
    requires !After(w, events[..n]).ok
    ensures After(w, events) == After(w, events[..n])
    decreases |events| - n
  {
    if n < |events| {
      assert events[..n + 1][..n] == events[..n];
      AfterFailure(w, events, n + 1);
    } else {
      assert events[..n] == events;
    }
  }

  class Sched {
    /** `atom_root`, a tree searched by pid. */
    var atoms: map<nat, WorkAtoms>
    var cpuLastSwitched: seq<nat>
    var nrTimestamps: nat
    var nrUnorderedTimestamps: nat
    const commOf: nat -> string
    ghost var repr: set<WorkAtoms>

    ghost var lists: map<nat, Work>

    /** `lists` holds the lists of all tasks, and every task's totals agree with its list. */
    ghost predicate Valid()
      reads `atoms, `cpuLastSwitched, `repr, `lists, repr
    {
      && |cpuLastSwitched| == MAX_CPUS && atoms.Keys == lists.Keys && WellNamed()
      && forall t :: t in atoms ==> atoms[t] in repr && Good(atoms[t], t, lists[t])
    }

    ghost predicate WellNamed()
      reads `atoms
    {
      forall t :: t in atoms ==> atoms[t].comm == commOf(t)
    }

    ghost function View(ok: bool): Trace
      reads this
    {
      Trace(lists, cpuLastSwitched, nrTimestamps, nrUnorderedTimestamps, ok)
    }

    lemma ListsFit()
      requires Valid()
      ensures Fits(View(true)) && forall t :: t in lists ==> lists[t] != []
    {
      forall t | t in lists
        ensures lists[t] != []
      {
        assert Good(atoms[t], t, lists[t]);
      }
    }

    /** Only new records have been added since. */
    twostate predicate NewOnly(before: set<WorkAtoms>)
      reads `repr
    {
      forall w :: w in repr ==> w in before || fresh(w)
    }

    twostate lemma StillValid()
      requires old(Valid()) && unchanged(`atoms, `cpuLastSwitched, `repr, `lists) && forall w :: w in repr ==>
        unchanged(w)
      ensures Valid()
    {
      forall t | t in atoms
        ensures atoms[t] in repr && Good(atoms[t], t, lists[t])
      {
        assert old(atoms[t] in repr && Good(atoms[t], t, lists[t]));
        assert atoms[t] in repr;
      }
    }

    /** A step on the record of `t` alone leaves the rest as it was. */
    twostate lemma OnlyOne(t: nat)
      requires old(Valid()) && atoms == old(atoms) && repr == old(repr) && cpuLastSwitched == old(cpuLastSwitched)
      requires t in atoms && t in lists && lists == old(lists)[t := lists[t]] && Good(atoms[t], t, lists[t])
      requires forall w :: w in repr && w != atoms[t] ==> unchanged(w)
      ensures Valid()
    {
      forall u | u in atoms
        ensures atoms[u] in repr && Good(atoms[u], u, lists[u])
      {
        if u != t {
          assert old(Good(atoms[u], u, lists[u])) && atoms[u] != atoms[t];
          assert unchanged(atoms[u]);
        }
      }
    }

    /** A new record for `t` leaves the rest as it was. */
    twostate lemma OneAdded(t: nat)
      requires old(Valid()) && t in atoms && t in lists && cpuLastSwitched == old(cpuLastSwitched)
      requires t !in old(atoms) && atoms == old(atoms)[t := atoms[t]] && lists == old(lists)[t := lists[t]]
      requires repr == old(repr) + {atoms[t]} && Good(atoms[t], t, lists[t]) && atoms[t].comm == commOf(t)
      requires forall w :: w in old(repr) ==> unchanged(w)
      ensures Valid()
    {
      forall u | u in atoms
        ensures atoms[u] in repr && Good(atoms[u], u, lists[u])
      {
        if u != t {
          assert old(Good(atoms[u], u, lists[u])) && atoms[u] in old(repr);
          assert unchanged(atoms[u]);
        }
      }
    }

    constructor (commOf: nat -> string)
      ensures Valid() && this.commOf == commOf && atoms == map[] && repr == {} && fresh(repr)
      ensures View(true) == Trace(map[], seq(MAX_CPUS, _ => 0), 0, 0, true)
    {
      this.commOf, repr, lists := commOf, {}, map[];
      atoms, cpuLastSwitched, nrTimestamps, nrUnorderedTimestamps := map[], seq(MAX_CPUS, _ => 0), 0, 0;
    }

    method OutAgain(t: nat, runnable: bool, time: nat)
      requires Valid() && t in atoms
      modifies `lists, repr
      ensures Valid() && lists == old(Gone(lists, t, runnable, time))
    {
      atoms[t].AddSchedOut(runnable, time);
      lists := Gone(lists, t, runnable, time);
      OnlyOne(t);
    }

    method OutFirst(t: nat, runnable: bool, time: nat)
      requires Valid() && t !in atoms
      modifies `atoms, `repr, `lists
      ensures Valid() && NewOnly(old(repr)) && lists == old(Gone(lists, t, runnable, time))
    {
      var w := new WorkAtoms(t, commOf(t));
      w.AddSchedOut(runnable, time);
      atoms, repr := atoms[t := w], repr + {w};
      lists := Gone(lists, t, runnable, time);
      OneAdded(t);
    }

    /** A sched-out atom for `t`, which gets a record if it has none. */
    method SchedOut(t: nat, runnable: bool, time: nat)
      requires Valid()
      modifies `atoms, `repr, `lists, repr
      ensures Valid() && NewOnly(old(repr)) && lists == old(Gone(lists, t, runnable, time))
    {
      if t in atoms { OutAgain(t, runnable, time); } else { OutFirst(t, runnable, time); }
    }

    method SchedIn(t: nat, time: nat)
      requires Valid() && t in atoms
      modifies `lists, repr
      ensures Valid() && lists == old(lists[t := AfterIn(lists[t], time)])
    {
      atoms[t].AddSchedIn(time);
      lists := lists[t := AfterIn(lists[t], time)];
      OnlyOne(t);
    }

    /** A task seen for the first time starts with an atom. */
    method Meet(t: nat, runnable: bool, time: nat)
      requires Valid()
      modifies `atoms, `repr, `lists, repr
      ensures Valid() && NewOnly(old(repr)) && t in atoms
      ensures lists == old(Met(lists, t, runnable, time))
    {
      if t !in atoms {
        SchedOut(t, runnable, time);
      }
    }

    method Ran(t: nat, runtime: nat)
      requires Valid() && t in atoms
      modifies `lists, repr
      ensures Valid() && lists == old(lists[t := AfterRuntime(lists[t], runtime)])
    {
      atoms[t].AddRuntime(runtime);
      lists := lists[t := AfterRuntime(lists[t], runtime)];
      OnlyOne(t);
    }

    method WakeOne(t: nat, time: nat) returns (stamped: bool, unordered: bool)
      requires Valid() && t in atoms
      modifies `lists, repr
      ensures Valid() && lists == old(lists[t := AfterWakeup(lists[t], time)])
      ensures Stamps(old(lists[t])) == (if stamped then 1 else 0)
      ensures Late(old(lists[t]), time) == (if unordered then 1 else 0)
    {
      stamped, unordered := atoms[t].Wake(time);
      lists := lists[t := AfterWakeup(lists[t], time)];
      OnlyOne(t);
    }

    method RanMet(t: nat, runtime: nat, time: nat)
      requires Valid()
      modifies `atoms, `repr, `lists, repr
      ensures Valid() && NewOnly(old(repr))
      ensures var met := old(Met(lists, t, true, time)); lists == met[t := AfterRuntime(met[t], runtime)]
    {
      Meet(t, true, time);
      Ran(t, runtime);
    }

    method WokenMet(t: nat, time: nat) returns (stamped: bool, unordered: bool)
      requires Valid()
      modifies `atoms, `repr, `lists, repr
      ensures Valid() && NewOnly(old(repr))
      ensures var met := old(Met(lists, t, false, time));
        && lists == met[t := AfterWakeup(met[t], time)]
        && Stamps(met[t]) == (if stamped then 1 else 0) && Late(met[t], time) == (if unordered then 1 else 0)
    {
      Meet(t, false, time);
      stamped, unordered := WakeOne(t, time);
    }

    method Count(stamped: bool, unordered: bool)
      requires Valid()
      modifies `nrTimestamps, `nrUnorderedTimestamps
      ensures Valid()
      ensures nrTimestamps == old(nrTimestamps) + (if stamped then 1 else 0)
      ensures nrUnorderedTimestamps == old(nrUnorderedTimestamps) + (if unordered then 1 else 0)
    {
      if stamped { nrTimestamps := nrTimestamps + 1; }
      if unordered { nrUnorderedTimestamps := nrUnorderedTimestamps + 1; }
      StillValid();
    }

    method Switch(prevPid: nat, runnable: bool, nextPid: nat, time: nat)
      requires Valid()
      modifies `atoms, `repr, `lists, repr
      ensures Valid() && NewOnly(old(repr)) && lists == old(Switched(lists, prevPid, runnable, nextPid, time))
    {
      SchedOut(prevPid, runnable, time);
      Meet(nextPid, true, time);
      SchedIn(nextPid, time);
    }

    /** `latency_switch_event`; `prevState` 0 is the runnable state. */
    method SwitchHandler(cpu: nat, prevPid: nat, prevState: nat, nextPid: nat, time: nat) returns (ok: bool)
      requires Valid() && cpu < MAX_CPUS && time < TWO_64
      modifies `atoms, `repr, `lists, `cpuLastSwitched, repr
      ensures Valid() && NewOnly(old(repr))
      ensures View(ok) == Next(old(View(true)), SwitchEvent(cpu, prevPid, prevState, nextPid, time))
    {
      var time0 := cpuLastSwitched[cpu];
      cpuLastSwitched := cpuLastSwitched[cpu := time];
      var delta := if time0 != 0 then (time - time0) % TWO_64 else 0;
      if delta >= TWO_63 { return false; }
      Switch(prevPid, prevState == 0, nextPid, time);
      ok := true;
    }

    /** `latency_runtime_event` */
    method RuntimeHandler(pid: nat, runtime: nat, time: nat)
      requires Valid()
      modifies `atoms, `repr, `lists, repr
      ensures Valid() && NewOnly(old(repr))
      ensures View(true) == Next(old(View(true)), RuntimeEvent(pid, runtime, time))
    {
      ListsFit();
      RanMet(pid, runtime, time);
      RuntimeNext(old(View(true)), View(true), pid, runtime, time);
    }

    /** `latency_wakeup_event` */
    method WakeupHandler(pid: nat, time: nat)
      requires Valid()
      modifies `atoms, `repr, `lists, `nrTimestamps, `nrUnorderedTimestamps, repr
      ensures Valid() && NewOnly(old(repr))
      ensures View(true) == Next(old(View(true)), WakeupEvent(pid, time))
    {
      ListsFit();
      var stamped, unordered := WokenMet(pid, time);
      Count(stamped, unordered);
      WakeupNext(old(View(true)), View(true), pid, time);
    }

    method Handle(e: Event) returns (ok: bool)
      requires Valid() && InRange(e)
      modifies this, repr
      ensures Valid() && NewOnly(old(repr)) && View(ok) == Next(old(View(true)), e)
    {
      ok := true;
      match e {
        case SwitchEvent(cpu, prevPid, prevState, nextPid, time) =>
          ok := SwitchHandler(cpu, prevPid, prevState, nextPid, time);
        case RuntimeEvent(pid, runtime, time) => RuntimeHandler(pid, runtime, time);
        case WakeupEvent(pid, time) => WakeupHandler(pid, time);
      }
    }

    /** A whole recording; a failing event ends it. */
    method Process(events: seq<Event>) returns (ok: bool)
      requires Valid() && forall n :: 0 <= n < |events| ==> InRange(events[n])
      modifies this, repr
      ensures Valid() && NewOnly(old(repr)) && View(ok) == After(old(View(true)), events)
    {
      ghost var w := View(true);
      ok := true;
      for n := 0 to |events|
        invariant Valid() && NewOnly(old(repr)) && ok && View(true) == After(w, events[..n])
      {
        AfterMore(w, events, n);
        ok := Handle(events[n]);
        if !ok {
          AfterFailure(w, events, n + 1);
          return;
        }
      }
      assert events[..|events|] == events;
    }
  }

  /** The record of task `t`: never without an atom, and not merged yet. */
  ghost predicate Good(w: WorkAtoms, t: nat, list: Work)
    reads w
  {
    w.tid == t && w.workList == list && w.Ok() && list != [] && w.numMerged == 0
  }

  // --- Merging by name --------------------------------------------------------------------------

  /** A task's name and list. */
  datatype Item = Item(comm: string, list: Work)

  /** The lists of all tasks called `c`, the last first. */
  ghost function Gathered(s: seq<Item>, c: string): Work {
    if s == [] then []
    else if s[|s| - 1].comm == c then s[|s| - 1].list + Gathered(s[..|s| - 1], c)
    else Gathered(s[..|s| - 1], c)
  }

  ghost function Called(s: seq<Item>, c: string): nat {
    if s == [] then 0 else Called(s[..|s| - 1], c) + if s[|s| - 1].comm == c then 1 else 0
  }

  ghost function SumCalled(s: seq<Item>, c: string): Totals {
    if s == [] then Totals(0, 0, 0, 0)
    else if s[|s| - 1].comm == c then Plus(Summary(s[|s| - 1].list), SumCalled(s[..|s| - 1], c))
    else SumCalled(s[..|s| - 1], c)
  }

  /** Gathering first and summing up afterwards is the same as adding up the sums. */
  lemma {:induction false} GatheredSums(s: seq<Item>, c: string)
    ensures Summary(Gathered(s, c)) == SumCalled(s, c)
  {
    if s != [] {
      GatheredSums(s[..|s| - 1], c);
      SummaryConcat(s[|s| - 1].list, Gathered(s[..|s| - 1], c));
    }
  }

  ghost function Items(order: seq<WorkAtoms>): (s: seq<Item>)
    reads order
    ensures |s| == |order|
  {
    seq(|order|, i requires 0 <= i < |order| reads order => Item(order[i].comm, order[i].workList))
  }

  ghost predicate Distinct(order: seq<WorkAtoms>) {
    forall i, j :: 0 <= i < j < |order| ==> order[i] != order[j]
  }

  /** The merged record `w` stands for the tasks of `s` called `c`. */
  ghost predicate Stands(w: WorkAtoms, s: seq<Item>, c: string)
    reads w
  {
    w.Ok() && w.comm == c && w.workList == Gathered(s, c) && w.numMerged == Called(s, c)
  }

  lemma {:induction false} NoneCalled(s: seq<Item>, c: string)
    requires Called(s, c) == 0
    ensures Gathered(s, c) == []
  {
    if s != [] { NoneCalled(s[..|s| - 1], c); }
  }

  lemma OneMore(s: seq<Item>, i: nat, c: string)
    requires i < |s|
    ensures Called(s[..i + 1], c) == Called(s[..i], c) + if s[i].comm == c then 1 else 0
    ensures Gathered(s[..i + 1], c) == if s[i].comm == c then s[i].list + Gathered(s[..i], c) else Gathered(s[..i], c)
  {
    assert s[..i + 1][..i] == s[..i];
  }

  lemma MoreCalled(merged: map<string, WorkAtoms>, s: seq<Item>, i: nat)
    requires i < |s| && Named(merged, s[..i])
    ensures forall c :: c in merged || c == s[i].comm <==> Called(s[..i + 1], c) > 0
  {
    forall c: string
      ensures Called(s[..i + 1], c) > 0 <==> Called(s[..i], c) > 0 || c == s[i].comm
    {
      OneMore(s, i, c);
    }
  }

  /** The tasks from `i` on are as they were in `s`. */
  ghost predicate Waiting(order: seq<WorkAtoms>, s: seq<Item>, i: nat)
    reads order
  {
    |order| == |s| && forall k :: i <= k < |order| ==> Untouched(order[k], s[k])
  }

  ghost predicate Untouched(w: WorkAtoms, x: Item)
    reads w
  {
    w.Ok() && w.numMerged == 0 && x == Item(w.comm, w.workList)
  }

  /** There is a record for each name in `s`. */
  ghost predicate Named(merged: map<string, WorkAtoms>, s: seq<Item>) {
    forall c :: c in merged <==> Called(s, c) > 0
  }

  /** `merged` stands for the first `i` tasks. */
  ghost predicate Merging(order: seq<WorkAtoms>, merged: map<string, WorkAtoms>, s: seq<Item>, i: nat)
    reads order
  {
    && i <= |order| && Waiting(order, s, i) && Named(merged, s[..i])
    && forall c :: c in merged ==> merged[c] in order[..i] && Stands(merged[c], s[..i], c)
  }

  /** The record `w` of the name `c`, when task `i` of `s` comes. */
  datatype Look = Look(w: WorkAtoms, s: seq<Item>, i: nat, c: string)

  twostate lemma StandsOn(l: Look)
    requires l.i < |l.s| && l.s[l.i].comm != l.c && old(Stands(l.w, l.s[..l.i], l.c)) && l.w.View() == old(l.w.View())
    ensures Stands(l.w, l.s[..l.i + 1], l.c)
  {
    OneMore(l.s, l.i, l.c);
  }

  twostate lemma StandsMore(l: Look)
    requires l.i < |l.s| && l.s[l.i].comm == l.c && old(Stands(l.w, l.s[..l.i], l.c)) && l.w.Ok()
    requires l.w.workList == l.s[l.i].list + old(l.w.workList) && l.w.numMerged == old(l.w.numMerged) + 1
    ensures Stands(l.w, l.s[..l.i + 1], l.c)
  {
    OneMore(l.s, l.i, l.c);
  }

  lemma StandsFirst(l: Look)
    requires l.i < |l.s| && l.s[l.i] == Item(l.c, l.w.workList) && Called(l.s[..l.i], l.c) == 0
    requires l.w.Ok() && l.w.comm == l.c && l.w.numMerged == 1
    ensures Stands(l.w, l.s[..l.i + 1], l.c)
  {
    OneMore(l.s, l.i, l.c);
    NoneCalled(l.s[..l.i], l.c);
  }

  lemma Earlier(order: seq<WorkAtoms>, i: nat, w: WorkAtoms)
    requires i < |order| && Distinct(order) && w in order[..i]
    ensures w in order[..i + 1] && forall k :: i <= k < |order| ==> order[k] != w
  {
  }

  /** Of the records, `w` alone has changed when task `i` came. */
  datatype Scene = Scene(order: seq<WorkAtoms>, merged: map<string, WorkAtoms>, s: seq<Item>, i: nat, w: WorkAtoms)

  twostate predicate OnlyOf(x: Scene)
    reads x.order
  {
    && x.i < |x.order| == |x.s| && Distinct(x.order) && x.w in x.order[..x.i + 1]
    && forall k :: 0 <= k < |x.order| && x.order[k] != x.w ==> x.order[k].View() == old(x.order[k].View())
  }

  twostate lemma OthersWait(x: Scene)
    requires OnlyOf(x) && old(Waiting(x.order, x.s, x.i))
    ensures Waiting(x.order, x.s, x.i + 1)
  {
    forall k | x.i < k < |x.order|
      ensures Untouched(x.order[k], x.s[k])
    {
      assert old(Untouched(x.order[k], x.s[k])) && x.order[k] != x.w;
    }
  }

  twostate lemma OthersStand(x: Scene)
    requires OnlyOf(x) && x.w.comm == x.s[x.i].comm && (x.w.comm in x.merged ==> x.merged[x.w.comm] == x.w)
    requires old(forall c :: c in x.merged ==> x.merged[c] in x.order[..x.i] && Stands(x.merged[c], x.s[..x.i], c))
    ensures forall c :: c in x.merged && c != x.w.comm ==>
      x.merged[c] in x.order[..x.i + 1] && Stands(x.merged[c], x.s[..x.i + 1], c)
  {
    forall c | c in x.merged && c != x.w.comm
      ensures x.merged[c] in x.order[..x.i + 1] && Stands(x.merged[c], x.s[..x.i + 1], c)
    {
      assert old(x.merged[c] in x.order[..x.i] && Stands(x.merged[c], x.s[..x.i], c));
      Earlier(x.order, x.i, x.merged[c]);
      StandsOn(Look(x.merged[c], x.s, x.i, c));
    }
  }

  method MergeOld(order: seq<WorkAtoms>, merged: map<string, WorkAtoms>, data: WorkAtoms, ghost s: seq<Item>,
                  ghost i: nat)
    requires i < |order| && data == order[i] && Distinct(order) && Merging(order, merged, s, i)
    requires data.comm in merged
    modifies order
    ensures Merging(order, merged, s, i + 1)
  {
    var w := merged[data.comm];
    assert Untouched(data, s[i]) && Stands(w, s[..i], data.comm);
    Earlier(order, i, w);
    w.Merge(data);
    StandsMore(Look(w, s, i, data.comm));
    OthersStand(Scene(order, merged, s, i, w));
    OthersWait(Scene(order, merged, s, i, w));
    MoreCalled(merged, s, i);
  }

  method MergeNew(order: seq<WorkAtoms>, merged: map<string, WorkAtoms>, data: WorkAtoms, ghost s: seq<Item>,
                  ghost i: nat)
    requires i < |order| && data == order[i] && Distinct(order) && Merging(order, merged, s, i)
    requires data.comm !in merged
    modifies order
    ensures Merging(order, merged[data.comm := data], s, i + 1)
  {
    assert Untouched(data, s[i]) && order[..i + 1][i] == data && Called(s[..i], data.comm) == 0;
    data.numMerged := data.numMerged + 1;
    StandsFirst(Look(data, s, i, data.comm));
    OthersStand(Scene(order, merged, s, i, data));
    OthersWait(Scene(order, merged, s, i, data));
    MoreCalled(merged, s, i);
  }

  /** `__merge_work_atoms` */
  method MergeWorkAtoms(order: seq<WorkAtoms>, merged: map<string, WorkAtoms>, data: WorkAtoms, ghost s: seq<Item>,
                        ghost i: nat)
    returns (merged': map<string, WorkAtoms>)
    requires i < |order| && data == order[i] && Distinct(order) && Merging(order, merged, s, i)
    modifies order
    ensures Merging(order, merged', s, i + 1)
  {
    if data.comm in merged {
      MergeOld(order, merged, data, s, i);
      merged' := merged;
    } else {
      MergeNew(order, merged, data, s, i);
      merged' := merged[data.comm := data];
    }
  }

  /** `perf_sched__merge_lat`: the tasks, in the order of their tree, are merged by name. */
  method MergeLat(order: seq<WorkAtoms>) returns (merged: map<string, WorkAtoms>)
    requires Distinct(order) && forall w :: w in order ==> w.Ok() && w.numMerged == 0
    modifies order
    ensures forall c :: c in merged <==> Called(old(Items(order)), c) > 0
    ensures forall c :: c in merged ==> Stands(merged[c], old(Items(order)), c)
    ensures forall c :: c in merged ==> merged[c].Sums() == SumCalled(old(Items(order)), c)
  {
    merged := map[];
    ghost var s := Items(order);
    for i := 0 to |order|
      invariant Merging(order, merged, s, i)
    {
      merged := MergeWorkAtoms(order, merged, order[i], s, i);
    }
    assert s[..|order|] == s;
    forall c | c in merged
      ensures merged[c].Sums() == SumCalled(s, c)
    {
      GatheredSums(s, c);
    }
  }
}
