/** Replaying the atoms of one round, every task by its own thread, in any order. */
module ReplayRun {
  import opened ReplayTrace

  /** How far every task has got, and the value of every semaphore. */
  datatype State = State(pc: seq<nat>, sems: seq<nat>)

  ghost function Zeros(n: nat): seq<nat> { seq(n, _ => 0) }

  ghost predicate Shaped(tasks: Tasks, g: Pairing, st: State) {
    && |st.pc| == |tasks| && |st.sems| == |g.sleeper|
    && forall i :: 0 <= i < |tasks| ==> st.pc[i] <= |tasks[i]|
  }

  /** `perf_sched__process_event` blocks in `sem_wait` only. */
  ghost predicate Blocks(sems: seq<nat>, a: Atom) {
    a.Sleep? && a.sem.Sem? && a.sem.id < |sems| && sems[a.sem.id] == 0
  }

  ghost function Perform(sems: seq<nat>, a: Atom): seq<nat>
    requires !Blocks(sems, a)
  {
    if a.Run? || a.sem.NoSem? || a.sem.id >= |sems| then sems
    else if a.Sleep? then sems[a.sem.id := sems[a.sem.id] - 1]
    else sems[a.sem.id := sems[a.sem.id] + 1]
  }

  ghost predicate Enabled(tasks: Tasks, st: State, i: int) {
    && 0 <= i < |tasks| && |st.pc| == |tasks| && st.pc[i] < |tasks[i]|
    && !Blocks(st.sems, tasks[i][st.pc[i]])
  }

  ghost function Step(tasks: Tasks, st: State, i: int): State
    requires Enabled(tasks, st, i)
  {
    State(st.pc[i := st.pc[i] + 1], Perform(st.sems, tasks[i][st.pc[i]]))
  }

  ghost predicate Finished(tasks: Tasks, st: State) {
    |st.pc| == |tasks| && forall i :: 0 <= i < |tasks| ==> st.pc[i] == |tasks[i]|
  }

  // --- What the semaphores count ----------------------------------------------------------

  ghost function Passed(pc: seq<nat>, p: Place): int {
    if 0 <= p.task < |pc| && pc[p.task] > p.idx then 1 else 0
  }

  /** A semaphore holds a token from its wakeup until its sleep. */
  ghost predicate Counts(g: Pairing, pc: seq<nat>, sems: seq<nat>) {
    && |sems| == |g.sleeper| == |g.waker|
    && forall s :: 0 <= s < |sems| ==> sems[s] == Passed(pc, g.waker[s]) - Passed(pc, g.sleeper[s])
  }

  lemma StepCounts(tasks: Tasks, g: Pairing, st: State, i: int)
    requires Sound(tasks, g) && Shaped(tasks, g, st) && Counts(g, st.pc, st.sems) && Enabled(tasks, st, i)
    ensures Shaped(tasks, g, Step(tasks, st, i)) && Counts(g, Step(tasks, st, i).pc, Step(tasks, st, i).sems)
  {
    var j := st.pc[i];
    var a, st' := tasks[i][j], Step(tasks, st, i);
    assert Belongs(g, Place(i, j), a);
    forall s | 0 <= s < |st'.sems|
      ensures st'.sems[s] == Passed(st'.pc, g.waker[s]) - Passed(st'.pc, g.sleeper[s])
    {
      assert HasPair(tasks, g, s);
    }
  }

  // --- No deadlock --------------------------------------------------------------------------

  /** Following a blocked sleep to its wakeup lowers the rank, so it ends at a thread that
      can go on. */
  lemma {:induction false} Unblocked(tasks: Tasks, g: Pairing, st: State, i: int) returns (j: int)
    requires Sound(tasks, g) && Shaped(tasks, g, st) && Counts(g, st.pc, st.sems)
    requires 0 <= i < |tasks| && st.pc[i] < |tasks[i]|
    ensures Enabled(tasks, st, j)
    decreases g.rank[i][st.pc[i]]
  {
    j := i;
    var a := tasks[i][st.pc[i]];
    if Blocks(st.sems, a) {
      assert Belongs(g, Place(i, st.pc[i]), a) && HasPair(tasks, g, a.sem.id) && WokenFirst(tasks, g, a.sem.id);
      var w := g.waker[a.sem.id];
      assert Passed(st.pc, w) == 0;
      j := Unblocked(tasks, g, st, w.task);
    }
  }

  // --- Whole runs ------------------------------------------------------------------------------

  /** How many semaphores the atoms make use of: all up to the largest number. */
  ghost function SemsIn(atoms: seq<Atom>): nat {
    if atoms == [] then 0
    else
      var n, a := SemsIn(atoms[..|atoms| - 1]), atoms[|atoms| - 1];
      if !a.Run? && a.sem.Sem? && a.sem.id >= n then a.sem.id + 1 else n
  }

  ghost function SemsOf(tasks: Tasks): nat {
    if tasks == [] then 0
    else
      var n, m := SemsOf(tasks[..|tasks| - 1]), SemsIn(tasks[|tasks| - 1]);
      if m > n then m else n
  }

  lemma {:induction false} SemsInUse(atoms: seq<Atom>, n: nat)
    requires forall j :: 0 <= j < |atoms| && !atoms[j].Run? && atoms[j].sem.Sem? ==> atoms[j].sem.id < n
    ensures SemsIn(atoms) <= n
    ensures forall j :: 0 <= j < |atoms| && !atoms[j].Run? && atoms[j].sem.Sem? ==> atoms[j].sem.id < SemsIn(atoms)
  {
    if atoms != [] { SemsInUse(atoms[..|atoms| - 1], n); }
  }

  lemma {:induction false} SemsOfMost(tasks: Tasks, n: nat)
    requires forall i :: 0 <= i < |tasks| ==> SemsIn(tasks[i]) <= n
    ensures SemsOf(tasks) <= n && forall i :: 0 <= i < |tasks| ==> SemsIn(tasks[i]) <= SemsOf(tasks)
  {
    if tasks != [] { SemsOfMost(tasks[..|tasks| - 1], n); }
  }

  /** In a sound recording these are just the ones that were paired. */
  lemma SoundSems(tasks: Tasks, g: Pairing)
    requires Sound(tasks, g)
    ensures SemsOf(tasks) == |g.sleeper|
  {
    var n := |g.sleeper|;
    forall i | 0 <= i < |tasks|
      ensures SemsIn(tasks[i]) <= n
      ensures forall j :: 0 <= j < |tasks[i]| && !tasks[i][j].Run? && tasks[i][j].sem.Sem? ==>
        tasks[i][j].sem.id < SemsIn(tasks[i])
    {
      forall j | 0 <= j < |tasks[i]| && !tasks[i][j].Run? && tasks[i][j].sem.Sem?
        ensures tasks[i][j].sem.id < n
      {
        assert Belongs(g, Place(i, j), tasks[i][j]);
      }
      SemsInUse(tasks[i], n);
    }
    SemsOfMost(tasks, n);
    if n > 0 { assert HasPair(tasks, g, n - 1); }
  }

  ghost function Start(tasks: Tasks): State { State(Zeros(|tasks|), Zeros(SemsOf(tasks))) }

  /** `who` is the thread that makes each step. */
  ghost predicate IsRun(tasks: Tasks, run: seq<State>, who: seq<int>) {
    && |run| == |who| + 1 && run[0] == Start(tasks)
    && forall k :: 0 <= k < |who| ==> Enabled(tasks, run[k], who[k]) && run[k + 1] == Step(tasks, run[k], who[k])
  }

  lemma StartCounts(tasks: Tasks, g: Pairing, pc: seq<nat>)
    requires Sound(tasks, g) && |pc| == |tasks| && forall i :: 0 <= i < |pc| ==> pc[i] == 0
    ensures Counts(g, pc, Zeros(|g.sleeper|))
  {
    forall s | 0 <= s < |g.sleeper|
      ensures Passed(pc, g.waker[s]) == Passed(pc, g.sleeper[s]) == 0
    {
      assert HasPair(tasks, g, s);
    }
  }

  lemma {:induction false} RunCounts(tasks: Tasks, g: Pairing, run: seq<State>, who: seq<int>, k: nat)
    requires Sound(tasks, g) && IsRun(tasks, run, who) && k < |run|
    ensures Shaped(tasks, g, run[k]) && Counts(g, run[k].pc, run[k].sems)
  {
    if k > 0 {
      RunCounts(tasks, g, run, who, k - 1);
      StepCounts(tasks, g, run[k - 1], who[k - 1]);
    } else {
      SoundSems(tasks, g);
      StartCounts(tasks, g, run[0].pc);
    }
  }

  /** In every state of every run, either all threads are done, with every semaphore back
      at zero, or some thread can take a step. */
  lemma NoDeadlock(tasks: Tasks, g: Pairing, run: seq<State>, who: seq<int>, k: nat)
    requires Sound(tasks, g) && IsRun(tasks, run, who) && k < |run|
    ensures Finished(tasks, run[k]) || exists j :: Enabled(tasks, run[k], j)
    ensures Finished(tasks, run[k]) ==> forall s :: 0 <= s < |run[k].sems| ==> run[k].sems[s] == 0
  {
    RunCounts(tasks, g, run, who, k);
    if Finished(tasks, run[k]) {
      forall s | 0 <= s < |run[k].sems|
        ensures run[k].sems[s] == 0
      {
        assert HasPair(tasks, g, s);
      }
    } else {
      var i :| 0 <= i < |tasks| && run[k].pc[i] != |tasks[i]|;
      var j := Unblocked(tasks, g, run[k], i);
    }
  }

  /** It takes a sound recording: two tasks that each sleep before they wake the other are stuck. */
  lemma CrossedStuck()
    ensures var tasks := [[Sleep(0, Sem(0)), Wakeup(0, 1, Sem(1))], [Sleep(0, Sem(1)), Wakeup(0, 0, Sem(0))]];
      !Finished(tasks, Start(tasks)) && forall i :: !Enabled(tasks, Start(tasks), i)
  {
    var tasks := [[Sleep(0, Sem(0)), Wakeup(0, 1, Sem(1))], [Sleep(0, Sem(1)), Wakeup(0, 0, Sem(0))]];
    SemsInUse(tasks[0], 2);
    SemsInUse(tasks[1], 2);
    SemsOfMost(tasks, 2);
    assert tasks[0][1].sem.id == 1 && SemsOf(tasks) == 2;
  }
}
