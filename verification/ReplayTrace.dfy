/** `perf sched replay`: from recorded scheduler events to a list of atoms per task. */
module ReplayTrace {
  import opened Machine

  /** `wait_sem`: absent, or the semaphore allocated as number `id`. */
  datatype Sem = NoSem | Sem(id: nat)

  datatype Atom =
    | Run(timestamp: nat, duration: nat)
    | Sleep(timestamp: nat, sem: Sem)
    | Wakeup(timestamp: nat, wakee: nat, sem: Sem)

  /** The atoms of every task, by task number. */
  type Tasks = seq<seq<Atom>>

  datatype Place = Place(task: int, idx: int)

  ghost predicate Within(tasks: Tasks, p: Place) {
    0 <= p.task < |tasks| && 0 <= p.idx < |tasks[p.task]|
  }

  /** Where the sleep and the wakeup of each semaphore are, and a rank for every atom
      from a clock that has counted `clock` atoms. */
  datatype Pairing = Pairing(sleeper: seq<Place>, waker: seq<Place>, rank: seq<seq<nat>>, clock: nat)

  /** Every semaphore belongs to exactly one sleep and one wakeup, in different tasks. */
  ghost predicate Paired(tasks: Tasks, g: Pairing) {
    && |g.sleeper| == |g.waker|
    && (forall s :: 0 <= s < |g.sleeper| ==> HasPair(tasks, g, s))
    && (forall i, j {:trigger Belongs(g, Place(i, j), tasks[i][j])} ::
          0 <= i < |tasks| && 0 <= j < |tasks[i]| ==> Belongs(g, Place(i, j), tasks[i][j]))
  }

  ghost predicate HasPair(tasks: Tasks, g: Pairing, s: int)
    requires 0 <= s < |g.sleeper| == |g.waker|
  {
    var p, q := g.sleeper[s], g.waker[s];
    && Within(tasks, p) && tasks[p.task][p.idx].Sleep? && tasks[p.task][p.idx].sem == Sem(s)
    && Within(tasks, q) && tasks[q.task][q.idx].Wakeup? && tasks[q.task][q.idx].sem == Sem(s)
    && p.task != q.task
  }

  ghost predicate Belongs(g: Pairing, p: Place, a: Atom) {
    && (a.Sleep? && a.sem.Sem? ==> a.sem.id < |g.sleeper| && g.sleeper[a.sem.id] == p)
    && (a.Wakeup? && a.sem.Sem? ==> a.sem.id < |g.waker| && g.waker[a.sem.id] == p)
  }

  /** The ranks increase along every task, and from a wakeup to its sleep. */
  ghost predicate Ranked(tasks: Tasks, g: Pairing) {
    && |g.rank| == |tasks|
    && (forall i :: 0 <= i < |tasks| ==> |g.rank[i]| == |tasks[i]|)
    && (forall i, j, k :: 0 <= i < |tasks| && 0 <= j < k < |tasks[i]| ==> g.rank[i][j] < g.rank[i][k])
    && (forall i, j :: 0 <= i < |tasks| && 0 <= j < |tasks[i]| ==> g.rank[i][j] < 2 * g.clock)
    && (forall s :: 0 <= s < |g.sleeper| && s < |g.waker| ==> WokenFirst(tasks, g, s))
  }

  ghost predicate WokenFirst(tasks: Tasks, g: Pairing, s: int)
    requires 0 <= s < |g.sleeper| && s < |g.waker| && |g.rank| == |tasks|
    requires forall i :: 0 <= i < |tasks| ==> |g.rank[i]| == |tasks[i]|
  {
    Within(tasks, g.sleeper[s]) && Within(tasks, g.waker[s]) ==>
      g.rank[g.waker[s].task][g.waker[s].idx] < g.rank[g.sleeper[s].task][g.sleeper[s].idx]
  }

  ghost predicate Sound(tasks: Tasks, g: Pairing) { Paired(tasks, g) && Ranked(tasks, g) }

  // --- Appending an atom ----------------------------------------------------------------

  ghost function Appended(tasks: Tasks, t: nat, a: Atom): Tasks
    requires t < |tasks|
  {
    tasks[t := tasks[t] + [a]]
  }

  ghost function AppendedRank(g: Pairing, t: nat): Pairing
    requires t < |g.rank|
  {
    g.(rank := g.rank[t := g.rank[t] + [2 * g.clock]], clock := g.clock + 1)
  }

  lemma AppendRanked(tasks: Tasks, g: Pairing, t: nat, a: Atom)
    requires Ranked(tasks, g) && Paired(tasks, g) && t < |tasks|
    ensures Ranked(Appended(tasks, t, a), AppendedRank(g, t))
  {
    var tasks', g' := Appended(tasks, t, a), AppendedRank(g, t);
    forall i, j, k | 0 <= i < |tasks'| && 0 <= j < k < |tasks'[i]|
      ensures g'.rank[i][j] < g'.rank[i][k]
    {
      assert g.rank[i][j] < 2 * g.clock;
    }
    forall s | 0 <= s < |g.sleeper|
      ensures WokenFirst(tasks', g', s)
    {
      assert HasPair(tasks, g, s) && WokenFirst(tasks, g, s);
    }
  }

  lemma AppendPaired(tasks: Tasks, g: Pairing, t: nat, a: Atom)
    requires Paired(tasks, g) && Ranked(tasks, g) && t < |tasks| && (a.Run? || a.sem == NoSem)
    ensures Paired(Appended(tasks, t, a), AppendedRank(g, t))
  {
    var tasks', g' := Appended(tasks, t, a), AppendedRank(g, t);
    forall i, j | 0 <= i < |tasks'| && 0 <= j < |tasks'[i]|
      ensures Belongs(g', Place(i, j), tasks'[i][j])
    {
      if j < |tasks[i]| { assert Belongs(g, Place(i, j), tasks[i][j]); }
    }
    forall s | 0 <= s < |g.sleeper|
      ensures HasPair(tasks', g', s)
    {
      assert HasPair(tasks, g, s);
    }
  }

  lemma AppendSound(tasks: Tasks, g: Pairing, t: nat, a: Atom)
    requires Sound(tasks, g) && t < |tasks| && (a.Run? || a.sem == NoSem)
    ensures Sound(Appended(tasks, t, a), AppendedRank(g, t))
  {
    AppendRanked(tasks, g, t, a);
    AppendPaired(tasks, g, t, a);
  }

  // --- Runs: two in a row become one ---------------------------------------------------------

  ghost predicate EndsInRun(atoms: seq<Atom>) { |atoms| > 0 && atoms[|atoms| - 1].Run? }

  ghost function WithRun(atoms: seq<Atom>, timestamp: nat, duration: nat): seq<Atom> {
    var n := |atoms| - 1;
    if n >= 0 && atoms[n].Run? then atoms[n := Run(atoms[n].timestamp, atoms[n].duration + duration)]
    else atoms + [Run(timestamp, duration)]
  }

  /** How long a task runs in all. */
  ghost function RunTime(atoms: seq<Atom>): nat {
    if atoms == [] then 0
    else RunTime(atoms[..|atoms| - 1]) + (if atoms[|atoms| - 1].Run? then atoms[|atoms| - 1].duration else 0)
  }

  /** Merging loses no run time. */
  lemma WithRunTime(atoms: seq<Atom>, timestamp: nat, duration: nat)
    ensures RunTime(WithRun(atoms, timestamp, duration)) == RunTime(atoms) + duration
  {
    var after := WithRun(atoms, timestamp, duration);
    var n := |atoms| - 1;
    if n >= 0 && atoms[n].Run? {
      assert after[..n] == atoms[..n];
    } else {
      assert after[..n + 1] == atoms;
    }
  }

  lemma MergeSound(tasks: Tasks, g: Pairing, t: nat, j: nat, a: Atom)
    requires Sound(tasks, g) && t < |tasks| && j < |tasks[t]| && tasks[t][j].Run? && a.Run?
    ensures Sound(tasks[t := tasks[t][j := a]], g)
  {
    var tasks' := tasks[t := tasks[t][j := a]];
    forall i, k | 0 <= i < |tasks'| && 0 <= k < |tasks'[i]|
      ensures Belongs(g, Place(i, k), tasks'[i][k])
    {
      assert Belongs(g, Place(i, k), tasks[i][k]);
    }
    forall s | 0 <= s < |g.sleeper|
      ensures HasPair(tasks', g, s) && WokenFirst(tasks', g, s)
    {
      assert HasPair(tasks, g, s) && WokenFirst(tasks, g, s);
    }
  }

  // --- Wakeups --------------------------------------------------------------------------------

  /** The sleep that a wakeup of `wakee` would be paired with, the wakeup itself being
      already in place. */
  predicate Target(atoms: seq<Atom>) {
    |atoms| > 0 && atoms[|atoms| - 1] == Sleep(atoms[|atoms| - 1].timestamp, NoSem)
  }

  ghost predicate EndsInSleep(atoms: seq<Atom>) { |atoms| > 0 && atoms[|atoms| - 1].Sleep? }

  /** `waker` gets a wakeup and the last sleep of `wakee` waits for it. */
  ghost function PairedUp(tasks: Tasks, waker: nat, wakee: nat, timestamp: nat, s: nat): Tasks
    requires waker < |tasks| && wakee < |tasks| && waker != wakee && Target(tasks[wakee])
  {
    var n := |tasks[wakee]| - 1;
    tasks[waker := tasks[waker] + [Wakeup(timestamp, wakee, Sem(s))]]
         [wakee := tasks[wakee][n := Sleep(tasks[wakee][n].timestamp, Sem(s))]]
  }

  /** The wakeup's rank is the clock's, the sleep's the one after. */
  ghost function PairedRank(tasks: Tasks, g: Pairing, waker: nat, wakee: nat): Pairing
    requires Ranked(tasks, g) && waker < |tasks| && wakee < |tasks| && waker != wakee && |tasks[wakee]| > 0
  {
    var n := |tasks[wakee]| - 1;
    Pairing(g.sleeper + [Place(wakee, n)], g.waker + [Place(waker, |tasks[waker]|)],
            g.rank[waker := g.rank[waker] + [2 * g.clock]][wakee := g.rank[wakee][n := 2 * g.clock + 1]],
            g.clock + 1)
  }

  lemma PairRanked(tasks: Tasks, g: Pairing, waker: nat, wakee: nat, timestamp: nat)
    requires Sound(tasks, g) && waker < |tasks| && wakee < |tasks| && waker != wakee && Target(tasks[wakee])
    ensures Ranked(PairedUp(tasks, waker, wakee, timestamp, |g.sleeper|), PairedRank(tasks, g, waker, wakee))
  {
    var s := |g.sleeper|;
    var tasks', g' := PairedUp(tasks, waker, wakee, timestamp, s), PairedRank(tasks, g, waker, wakee);
    forall i, j, k | 0 <= i < |tasks'| && 0 <= j < k < |tasks'[i]|
      ensures g'.rank[i][j] < g'.rank[i][k]
    {
      assert g.rank[i][j] < 2 * g.clock;
    }
    forall r | 0 <= r < |g'.sleeper|
      ensures WokenFirst(tasks', g', r)
    {
      if r < s {
        assert HasPair(tasks, g, r) && WokenFirst(tasks, g, r);
        assert g.sleeper[r] != Place(wakee, |tasks[wakee]| - 1) && g.waker[r] != Place(wakee, |tasks[wakee]| - 1);
      }
    }
  }

  lemma PairPaired(tasks: Tasks, g: Pairing, waker: nat, wakee: nat, timestamp: nat)
    requires Sound(tasks, g) && waker < |tasks| && wakee < |tasks| && waker != wakee && Target(tasks[wakee])
    ensures Paired(PairedUp(tasks, waker, wakee, timestamp, |g.sleeper|), PairedRank(tasks, g, waker, wakee))
  {
    var s, n := |g.sleeper|, |tasks[wakee]| - 1;
    var tasks', g' := PairedUp(tasks, waker, wakee, timestamp, s), PairedRank(tasks, g, waker, wakee);
    forall i, j | 0 <= i < |tasks'| && 0 <= j < |tasks'[i]|
      ensures Belongs(g', Place(i, j), tasks'[i][j])
    {
      if j < |tasks[i]| { assert Belongs(g, Place(i, j), tasks[i][j]); }
    }
    forall r | 0 <= r < |g'.sleeper|
      ensures HasPair(tasks', g', r)
    {
      if r < s {
        assert HasPair(tasks, g, r);
        assert g.sleeper[r] != Place(wakee, n) && g.waker[r] != Place(wakee, n);
      }
    }
  }

  /** The last sleep has got a semaphore to wait for, and nothing else has changed. */
  ghost predicate Roused(before: seq<Atom>, atoms: seq<Atom>) {
    && |atoms| == |before| > 0
    && var n := |before| - 1;
    && before[n].Sleep? && atoms[n].Sleep? && atoms[n].sem != NoSem
    && atoms == before[n := Sleep(before[n].timestamp, atoms[n].sem)]
  }

  /** The tasks before `hi` have got one more atom, a wakeup of the next task; the last sleep of
      each task but the first waits for the wakeup, if it had nothing to wait for; all else stays. */
  ghost predicate Ringed(before: Tasks, tasks: Tasks, hi: int) {
    |tasks| == |before| && forall k :: 0 <= k < |tasks| ==> RingedAt(before[k], tasks[k], k, hi, |tasks|)
  }

  ghost predicate RingedAt(before: seq<Atom>, atoms: seq<Atom>, k: int, hi: int, n: nat)
    requires 0 <= k < n
  {
    && |atoms| == |before| + (if k < hi then 1 else 0)
    && (if 0 < k <= hi && Target(before) then Roused(before, atoms[..|before|]) else atoms[..|before|] == before)
    && (k < hi ==> WakesNext(atoms, (k + 1) % n))
  }

  ghost predicate WakesNext(atoms: seq<Atom>, next: int) {
    && |atoms| > 0 && var a := atoms[|atoms| - 1];
    a.Wakeup? && a.wakee == next && a.timestamp == 0
  }

  lemma RingedWaker(before: seq<Atom>, atoms: seq<Atom>, k: int, n: nat, a: Atom)
    requires 0 <= k < n && RingedAt(before, atoms, k, k, n)
    requires a.Wakeup? && a.wakee == (k + 1) % n && a.timestamp == 0
    ensures RingedAt(before, atoms + [a], k, k + 1, n)
  {
    assert (atoms + [a])[..|before|] == atoms[..|before|];
  }

  lemma RingedWakee(before: seq<Atom>, atoms: seq<Atom>, k: int, n: nat, s: nat)
    requires 0 < k < n && RingedAt(before, atoms, k, k - 1, n)
    ensures atoms == before
    ensures var last := |atoms| - 1;
      RingedAt(before, if Target(atoms) then atoms[last := Sleep(atoms[last].timestamp, Sem(s))] else atoms, k, k, n)
  {
    assert atoms[..|before|] == atoms;
    if Target(atoms) {
      var atoms' := atoms[|atoms| - 1 := Sleep(atoms[|atoms| - 1].timestamp, Sem(s))];
      assert atoms'[..|before|] == atoms';
    }
  }

  lemma WokenAt(tasks: Tasks, i: nat, j: nat, timestamp: nat, s: nat, k: nat)
    requires i < |tasks| && j < |tasks| && k < |tasks|
    ensures var was, now := tasks[k], Woken(tasks, i, j, timestamp, s)[k];
      && (k == i ==> exists a :: a in now && a.Wakeup? && a.wakee == j && a.timestamp == timestamp && now == was + [a])
      && (k != i && k == j && Target(was) ==> now == was[|was| - 1 := Sleep(was[|was| - 1].timestamp, Sem(s))])
      && (k != i && (k != j || !Target(was)) ==> now == was)
  {
    var now := Woken(tasks, i, j, timestamp, s)[k];
    if k == i { assert now[|tasks[k]|] in now; }
  }

  lemma RoundAt(i: nat, n: nat)
    requires i < n
    ensures (i + 1) % n == if i + 1 < n then i + 1 else 0
  {
  }

  lemma RingOne(before: seq<Atom>, was: seq<Atom>, now: seq<Atom>, k: int, i: nat, j: nat, n: nat, s: nat)
    requires 0 <= k < n && i < n && RingedAt(before, was, k, i, n)
    requires j == (i + 1) % n == if i + 1 < n then i + 1 else 0
    requires k == i ==> exists a :: a in now && a.Wakeup? && a.wakee == j && a.timestamp == 0 && now == was + [a]
    requires k != i && k == j && Target(was) ==> now == was[|was| - 1 := Sleep(was[|was| - 1].timestamp, Sem(s))]
    requires k != i && (k != j || !Target(was)) ==> now == was
    ensures RingedAt(before, now, k, i + 1, n)
  {
    if k == i {
      var a: Atom :| a in now && a.Wakeup? && a.wakee == j && a.timestamp == 0 && now == was + [a];
      RingedWaker(before, was, k, n, a);
    } else if k == i + 1 {
      RingedWakee(before, was, k, n, s);
    }
  }

  lemma RingStep(before: Tasks, tasks: Tasks, i: nat, j: nat, s: nat)
    requires Ringed(before, tasks, i) && i < |tasks| && j == if i + 1 < |tasks| then i + 1 else 0
    ensures Ringed(before, Woken(tasks, i, j, 0, s), i + 1)
  {
    var tasks', n := Woken(tasks, i, j, 0, s), |tasks|;
    forall k | 0 <= k < n
      ensures RingedAt(before[k], tasks'[k], k, i + 1, n)
    {
      assert RingedAt(before[k], tasks[k], k, i, n);
      WokenAt(tasks, i, j, 0, s, k);
      RoundAt(i, n);
      RingOne(before[k], tasks[k], tasks'[k], k, i, j, n, s);
    }
  }

  // --- A new task -----------------------------------------------------------------------------

  lemma NewTaskSound(tasks: Tasks, g: Pairing)
    requires Sound(tasks, g)
    ensures Sound(tasks + [[Sleep(0, NoSem)]], g.(rank := g.rank + [[2 * g.clock]], clock := g.clock + 1))
  {
    var tasks', g' := tasks + [[Sleep(0, NoSem)]], g.(rank := g.rank + [[2 * g.clock]], clock := g.clock + 1);
    forall i, j | 0 <= i < |tasks'| && 0 <= j < |tasks'[i]|
      ensures Belongs(g', Place(i, j), tasks'[i][j])
    {
      if i < |tasks| { assert Belongs(g, Place(i, j), tasks[i][j]); }
    }
    forall s | 0 <= s < |g.sleeper|
      ensures HasPair(tasks', g', s) && WokenFirst(tasks', g', s)
    {
      assert HasPair(tasks, g, s) && WokenFirst(tasks, g, s);
    }
  }

  // --- The recorder ---------------------------------------------------------------------------


  datatype Event =
    | WakeupEvent(tid: nat, pid: nat, time: nat)
    | SwitchEvent(cpu: int, prevPid: nat, nextPid: nat, time: nat)
    | ForkEvent(found: bool, parent: nat, child: nat)

  ghost predicate AllStartAsleep(tasks: Tasks) {
    forall t :: 0 <= t < |tasks| ==> |tasks[t]| > 0 && tasks[t][0].Sleep?
  }

  /** One task per pid. */
  ghost predicate Index(pids: seq<nat>, pidToTask: map<nat, nat>) {
    && (forall t {:trigger pids[t]} :: 0 <= t < |pids| ==> pids[t] in pidToTask && pidToTask[pids[t]] == t)
    && (forall p {:trigger pidToTask[p]} :: p in pidToTask ==> pidToTask[p] < |pids| && pids[pidToTask[p]] == p)
  }

  lemma IndexMembers(pids: seq<nat>, pidToTask: map<nat, nat>, pid: nat)
    requires Index(pids, pidToTask)
    ensures pid in pids <==> pid in pidToTask
  {
    if pid in pidToTask { assert pids[pidToTask[pid]] == pid; }
  }

  lemma EmptySound()
    ensures Sound([], Pairing([], [], [], 0)) && Index([], map[]) && AllStartAsleep([])
  {
  }

  /** The tasks and their pids with a task for `pid`, which starts asleep if it is new. */
  ghost function Known(tasks: Tasks, pids: seq<nat>, pid: nat): (Tasks, seq<nat>) {
    if pid in pids then (tasks, pids) else (tasks + [[Sleep(0, NoSem)]], pids + [pid])
  }

  ghost function Known2(tasks: Tasks, pids: seq<nat>, pid: nat, pid2: nat): (Tasks, seq<nat>) {
    var k := Known(tasks, pids, pid);
    Known(k.0, k.1, pid2)
  }

  ghost function Woken(tasks: Tasks, waker: nat, wakee: nat, timestamp: nat, s: nat): Tasks
    requires waker < |tasks| && wakee < |tasks|
  {
    if waker != wakee && Target(tasks[wakee]) then PairedUp(tasks, waker, wakee, timestamp, s)
    else Appended(tasks, waker, Wakeup(timestamp, wakee, NoSem))
  }

  ghost function Switched(tasks: Tasks, t: nat, timestamp: nat, ran: nat): Tasks
    requires t < |tasks|
  {
    tasks[t := WithRun(tasks[t], timestamp, ran) + [Sleep(timestamp, NoSem)]]
  }

  /** The time since the last switch on a CPU, zero if there was none, as an unsigned word. */
  function Since(last: nat, time: nat): nat { if last != 0 then (time - last) % TWO_64 else 0 }

  /** Where `pid` stands among the pids. */
  ghost function IndexOf(pids: seq<nat>, pid: nat): (t: nat)
    requires pid in pids
    ensures t < |pids| && pids[t] == pid
  {
    var t :| 0 <= t < |pids| && pids[t] == pid; t
  }

  /** What has been recorded; `pairs` counts the semaphores and `ok` says that no event has failed. */
  datatype Trace = Trace(tasks: Tasks, pids: seq<nat>, last: seq<nat>, pairs: nat, ok: bool)

  ghost predicate Fits(w: Trace) { |w.tasks| == |w.pids| && |w.last| == MAX_CPUS }

  ghost function Next(w: Trace, e: Event): (w': Trace)
    requires Fits(w)
    ensures Fits(w')
  {
    if !w.ok then w
    else match e
      case WakeupEvent(tid, pid, time) =>
        var k := Known2(w.tasks, w.pids, tid, pid);
        var waker, wakee := IndexOf(k.1, tid), IndexOf(k.1, pid);
        w.(tasks := Woken(k.0, waker, wakee, time, w.pairs), pids := k.1,
           pairs := w.pairs + if waker != wakee && Target(k.0[wakee]) then 1 else 0)
      case SwitchEvent(cpu, prevPid, nextPid, time) =>
        if cpu < 0 || cpu >= MAX_CPUS then w
        else if Since(w.last[cpu], time) >= TWO_63 then w.(ok := false)
        else
          var k := Known2(w.tasks, w.pids, prevPid, nextPid);
          w.(tasks := Switched(k.0, IndexOf(k.1, prevPid), time, Since(w.last[cpu], time)), pids := k.1,
            last := w.last[cpu := time])
      case ForkEvent(found, parent, child) =>
        if !found then w
        else
          var k := Known2(w.tasks, w.pids, parent, child);
          w.(tasks := k.0, pids := k.1)
  }

  ghost function After(w: Trace, events: seq<Event>): (w': Trace)
    requires Fits(w)
    ensures Fits(w')
  {
    if events == [] then w else Next(After(w, events[..|events| - 1]), events[|events| - 1])
  }

  lemma {:induction false} AfterFailure(w: Trace, events: seq<Event>, n: nat)
    requires Fits(w) && n <= |events| && !After(w, events[..n]).ok
    ensures After(w, events) == After(w, events[..n])
    decreases |events| - n
  {
    if n < |events| {
      assert events[..n + 1][..n] == events[..n];
      AfterFailure(w, events, n + 1);
    } else {
      assert events[..n] == events;
    }
  }

  class PerfSched {
    var tasks: Tasks
    var pids: seq<nat>
    var pidToTask: map<nat, nat>
    var cpuLastSwitched: seq<nat>
    var nrRunEvents: nat
    var nrRunEventsOptimized: nat
    var nrSleepEvents: nat
    var nrWakeupEvents: nat
    var targetlessWakeups: nat
    var multitargetWakeups: nat
    ghost var g: Pairing

    ghost predicate Valid()
      reads this
    {
      && Sound(tasks, g) && |g.sleeper| == nrWakeupEvents && AllStartAsleep(tasks)
      && |pids| == |tasks| && Index(pids, pidToTask) && |cpuLastSwitched| == MAX_CPUS
    }

    ghost function View(ok: bool): Trace
      reads this
    {
      Trace(tasks, pids, cpuLastSwitched, nrWakeupEvents, ok)
    }

    constructor ()
      ensures Valid() && View(true) == Trace([], [], seq(MAX_CPUS, _ => 0), 0, true)
    {
      tasks, pids, pidToTask, cpuLastSwitched := [], [], map[], seq(MAX_CPUS, _ => 0);
      nrRunEvents, nrRunEventsOptimized, nrSleepEvents, nrWakeupEvents := 0, 0, 0, 0;
      targetlessWakeups, multitargetWakeups := 0, 0;
      g := Pairing([], [], [], 0);
      EmptySound();
    }

    /** `add_sched_event_run` */
    method AddRun(task: nat, timestamp: nat, duration: nat)
      requires Valid() && task < |tasks|
      modifies `tasks, `nrRunEvents, `nrRunEventsOptimized, `g
      ensures Valid() && tasks == old(tasks[task := WithRun(tasks[task], timestamp, duration)])
      ensures RunTime(tasks[task]) == old(RunTime(tasks[task])) + duration
      ensures nrRunEvents == old(nrRunEvents) + old(if EndsInRun(tasks[task]) then 0 else 1)
      ensures nrRunEvents + nrRunEventsOptimized == old(nrRunEvents + nrRunEventsOptimized) + 1
    {
      WithRunTime(tasks[task], timestamp, duration);
      var n := |tasks[task]| - 1;
      if n >= 0 && tasks[task][n].Run? {
        nrRunEventsOptimized := nrRunEventsOptimized + 1;
        var merged := Run(tasks[task][n].timestamp, tasks[task][n].duration + duration);
        MergeSound(tasks, g, task, n, merged);
        tasks := tasks[task := tasks[task][n := merged]];
        return;
      }
      AppendSound(tasks, g, task, Run(timestamp, duration));
      tasks, g := tasks[task := tasks[task] + [Run(timestamp, duration)]], AppendedRank(g, task);
      nrRunEvents := nrRunEvents + 1;
    }

    /** `add_sched_event_sleep` */
    method AddSleep(task: nat, timestamp: nat)
      requires Valid() && task < |tasks|
      modifies `tasks, `nrSleepEvents, `g
      ensures Valid() && tasks == old(Appended(tasks, task, Sleep(timestamp, NoSem)))
      ensures nrSleepEvents == old(nrSleepEvents) + 1
    {
      AppendSound(tasks, g, task, Sleep(timestamp, NoSem));
      tasks, g := tasks[task := tasks[task] + [Sleep(timestamp, NoSem)]], AppendedRank(g, task);
      nrSleepEvents := nrSleepEvents + 1;
    }

    /** `add_sched_event_wakeup`: the new wakeup is paired with the last sleep of another
        task when that sleep is the task's last atom and not paired yet. */
    method AddWakeup(waker: nat, timestamp: nat, wakee: nat)
      requires Valid() && waker < |tasks| && wakee < |tasks|
      modifies `tasks, `nrWakeupEvents, `targetlessWakeups, `multitargetWakeups, `g
      ensures Valid() && tasks == old(Woken(tasks, waker, wakee, timestamp, nrWakeupEvents))
      ensures nrWakeupEvents + targetlessWakeups + multitargetWakeups
              == old(nrWakeupEvents + targetlessWakeups + multitargetWakeups) + 1
      ensures nrWakeupEvents == old(nrWakeupEvents) + if waker != wakee && old(Target(tasks[wakee])) then 1 else 0
      ensures var second := waker != wakee && old(EndsInSleep(tasks[wakee]) && !Target(tasks[wakee]));
        multitargetWakeups == old(multitargetWakeups) + if second then 1 else 0
    {
      ghost var tasks0, g0 := tasks, g;
      var event := |tasks[waker]|;
      AppendSound(tasks, g, waker, Wakeup(timestamp, wakee, NoSem));
      tasks, g := tasks[waker := tasks[waker] + [Wakeup(timestamp, wakee, NoSem)]], AppendedRank(g, waker);
      var n := |tasks[wakee]| - 1;
      if n < 0 || !tasks[wakee][n].Sleep? {
        targetlessWakeups := targetlessWakeups + 1;
        return;
      }
      if tasks[wakee][n].sem != NoSem {
        multitargetWakeups := multitargetWakeups + 1;
        return;
      }
      assert waker != wakee && tasks[wakee] == tasks0[wakee] && Target(tasks0[wakee]);
      var sem := Sem(nrWakeupEvents);
      tasks := tasks[wakee := tasks[wakee][n := Sleep(tasks[wakee][n].timestamp, sem)]];
      tasks := tasks[waker := tasks[waker][event := Wakeup(timestamp, wakee, sem)]];
      assert tasks[waker] == tasks0[waker] + [Wakeup(timestamp, wakee, sem)];
      nrWakeupEvents := nrWakeupEvents + 1;
      g := PairedRank(tasks0, g0, waker, wakee);
      PairRanked(tasks0, g0, waker, wakee, timestamp);
      PairPaired(tasks0, g0, waker, wakee, timestamp);
      assert tasks == PairedUp(tasks0, waker, wakee, timestamp, |g0.sleeper|);
    }

    /** `register_pid`: a new task starts asleep. */
    method Register(pid: nat) returns (task: nat)
      requires Valid()
      modifies `tasks, `pids, `pidToTask, `nrSleepEvents, `g
      ensures Valid() && task < |tasks| && pid in pidToTask && pidToTask[pid] == task
      ensures tasks == old(Known(tasks, pids, pid)).0 && pids == old(Known(tasks, pids, pid)).1
      ensures forall p :: p in old(pidToTask) ==> p in pidToTask && pidToTask[p] == old(pidToTask)[p]
      ensures nrSleepEvents == old(nrSleepEvents) + if pid in old(pidToTask) then 0 else 1
    {
      IndexMembers(pids, pidToTask, pid);
      if pid in pidToTask { return pidToTask[pid]; }
      task := |tasks|;
      NewTaskSound(tasks, g);
      tasks, pids := tasks + [[Sleep(0, NoSem)]], pids + [pid];
      pidToTask := pidToTask[pid := task];
      g := g.(rank := g.rank + [[2 * g.clock]], clock := g.clock + 1);
      nrSleepEvents := nrSleepEvents + 1;
    }

    method RegisterBoth(pid: nat, pid2: nat) returns (task: nat, task2: nat)
      requires Valid()
      modifies `tasks, `pids, `pidToTask, `nrSleepEvents, `g
      ensures Valid() && tasks == old(Known2(tasks, pids, pid, pid2)).0 && pids == old(Known2(tasks, pids, pid, pid2)).1
      ensures pid in pidToTask && pidToTask[pid] == task < |tasks| && pid2 in pidToTask
      ensures pidToTask[pid2] == task2 < |tasks|
    {
      task := Register(pid);
      task2 := Register(pid2);
    }

    /** `replay_wakeup_event` */
    method WakeupHandler(tid: nat, pid: nat, time: nat)
      requires Valid()
      modifies this
      ensures Valid() && View(true) == old(Next(View(true), WakeupEvent(tid, pid, time)))
    {
      var waker, wakee := RegisterBoth(tid, pid);
      AddWakeup(waker, time, wakee);
    }

    method AddSwitch(prev: nat, time: nat, delta: nat)
      requires Valid() && prev < |tasks|
      modifies `tasks, `nrRunEvents, `nrRunEventsOptimized, `nrSleepEvents, `g
      ensures Valid() && tasks == old(Switched(tasks, prev, time, delta))
    {
      ghost var tasks0 := tasks;
      AddRun(prev, time, delta);
      AddSleep(prev, time);
      assert tasks == Switched(tasks0, prev, time, delta);
    }

    /** `replay_switch_event`: time going back on a CPU is an error, and then nothing changes. */
    method SwitchHandler(cpu: int, prevPid: nat, nextPid: nat, time: nat) returns (ok: bool)
      requires Valid() && time < TWO_64
      modifies this
      ensures Valid() && View(ok) == old(Next(View(true), SwitchEvent(cpu, prevPid, nextPid, time)))
      ensures !ok ==> unchanged(this)
    {
      if cpu >= MAX_CPUS || cpu < 0 { return true; }
      var delta := Since(cpuLastSwitched[cpu], time);
      if delta >= TWO_63 { return false; }
      var prev, _ := RegisterBoth(prevPid, nextPid);
      cpuLastSwitched := cpuLastSwitched[cpu := time];
      AddSwitch(prev, time, delta);
      ok := true;
    }

    /** `replay_fork_event` */
    method ForkHandler(found: bool, parent: nat, child: nat)
      requires Valid()
      modifies this
      ensures Valid() && View(true) == old(Next(View(true), ForkEvent(found, parent, child)))
    {
      if !found { return; }
      var _, _ := RegisterBoth(parent, child);
    }

    /** The atoms of one whole recording; a failing event ends it. */
    method Record(events: seq<Event>) returns (ok: bool)
      requires Valid()
      requires forall e :: e in events && e.SwitchEvent? ==> e.time < TWO_64
      modifies this
      ensures Valid() && View(ok) == After(old(View(true)), events)
    {
      for n := 0 to |events|
        invariant Valid() && View(true) == After(old(View(true)), events[..n])
      {
        assert events[n] in events && events[..n + 1][..n] == events[..n];
        match events[n] {
          case WakeupEvent(tid, pid, time) => WakeupHandler(tid, pid, time);
          case SwitchEvent(cpu, prevPid, nextPid, time) =>
            ok := SwitchHandler(cpu, prevPid, nextPid, time);
            if !ok {
              AfterFailure(old(View(true)), events, n + 1);
              return;
            }
          case ForkEvent(found, parent, child) => ForkHandler(found, parent, child);
        }
      }
      assert events[..|events|] == events;
      ok := true;
    }

    /** `add_cross_task_wakeups`: every task ends by waking the next one, the last the first. */
    method AddCrossTaskWakeups()
      requires Valid()
      modifies `tasks, `nrWakeupEvents, `targetlessWakeups, `multitargetWakeups, `g
      ensures Valid() && Ringed(old(tasks), tasks, |tasks|)
    {
      ghost var tasks0 := tasks;
      for i := 0 to |tasks|
        invariant Valid() && Ringed(tasks0, tasks, i)
      {
        var j := i + 1;
        if j == |tasks| { j := 0; }
        RingStep(tasks0, tasks, i, j, nrWakeupEvents);
        AddWakeup(i, 0, j);
      }
    }
  }
}
