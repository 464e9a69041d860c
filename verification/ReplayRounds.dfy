/** The rounds of a replay: the main thread and one thread per task, over two mutexes and
    two semaphores per task. Every step of every thread is one transition. */
module ReplayRounds {
  import opened Machine
  import opened ReplayTrace
  import opened ReplayEvents
  import opened SwitchOrder
  import opened ReplayRun

  datatype Holder = Free | ByMain | By(thread: int)

  /** What the main thread does next: `create_tasks`, then `wait_for_tasks` round after round. */
  datatype Main =
    | Create(k: nat)
    | UnlockDoneMutex
    | WaitReady(k: nat)
    | InitReady(k: nat)
    | LockDoneMutex
    | UnlockStartMutex
    | WaitDone(k: nat)
    | InitDone(k: nat)
    | LockStartMutex
    | Over

  /** What a replay thread does next: `thread_func`. */
  datatype Loc =
    | NotStarted
    | PostReady
    | LockStart
    | UnlockStart
    | Work(j: nat)
    | PostDone
    | LockDone
    | UnlockDone

  /** `rounds` counts the rounds that the main thread has seen through, `fin` the rounds
      whose end every replay thread has announced. */
  datatype Sys = Sys(
    main: Main, locs: seq<Loc>, start: Holder, done: Holder,
    ready: seq<nat>, doneSem: seq<nat>, sems: seq<nat>, rounds: nat, fin: seq<nat>)

  ghost predicate Sized(tasks: Tasks, x: Sys) {
    |x.locs| == |x.ready| == |x.doneSem| == |x.fin| == |tasks|
  }

  // --- Transitions ------------------------------------------------------------------------

  function NextRound(rounds: nat, repeat: nat): Main { if rounds < repeat then UnlockDoneMutex else Over }

  function CreateAt(k: nat, n: nat, repeat: nat): Main { if k < n then Create(k) else NextRound(0, repeat) }

  function ReadyAt(k: nat, n: nat): Main { if k < n then WaitReady(k) else LockDoneMutex }

  function DoneAt(k: nat, n: nat): Main { if k < n then WaitDone(k) else LockStartMutex }

  function WorkAt(j: nat, n: nat): Loc { if j < n then Work(j) else PostDone }

  ghost function Begin(tasks: Tasks, repeat: nat): Sys {
    var n := |tasks|;
    Sys(CreateAt(0, n, repeat), seq(n, _ => NotStarted), ByMain, ByMain,
        Zeros(n), Zeros(n), Zeros(SemsOf(tasks)), 0, Zeros(n))
  }

  ghost predicate MainCan(x: Sys) {
    match x.main
    case Create(k) => k < |x.locs| && k < |x.ready| && k < |x.doneSem|
    case WaitReady(k) => k < |x.ready| && x.ready[k] > 0
    case InitReady(k) => k < |x.ready|
    case LockDoneMutex => x.done == Free
    case WaitDone(k) => k < |x.doneSem| && x.doneSem[k] > 0
    case InitDone(k) => k < |x.doneSem|
    case LockStartMutex => x.start == Free
    case Over => false
    case _ => true
  }

  ghost function MainStep(x: Sys, repeat: nat): Sys
    requires MainCan(x)
  {
    var n := |x.locs|;
    match x.main
    case Create(k) =>
      x.(locs := x.locs[k := PostReady], ready := x.ready[k := 0], doneSem := x.doneSem[k := 0],
        main := CreateAt(k + 1, n, repeat))
    case UnlockDoneMutex => x.(done := Free, main := ReadyAt(0, n))
    case WaitReady(k) => x.(ready := x.ready[k := x.ready[k] - 1], main := InitReady(k))
    case InitReady(k) => x.(ready := x.ready[k := 0], main := ReadyAt(k + 1, n))
    case LockDoneMutex => x.(done := ByMain, main := UnlockStartMutex)
    case UnlockStartMutex => x.(start := Free, main := DoneAt(0, n))
    case WaitDone(k) => x.(doneSem := x.doneSem[k := x.doneSem[k] - 1], main := InitDone(k))
    case InitDone(k) => x.(doneSem := x.doneSem[k := 0], main := DoneAt(k + 1, n))
    case LockStartMutex => x.(start := ByMain, rounds := x.rounds + 1, main := NextRound(x.rounds + 1, repeat))
  }

  /** The end of the main thread ends the program. */
  ghost predicate Can(tasks: Tasks, x: Sys, i: int) {
    && Sized(tasks, x) && 0 <= i < |tasks| && x.main != Over
    && match x.locs[i]
       case NotStarted => false
       case LockStart => x.start == Free
       case LockDone => x.done == Free
       case Work(j) => j < |tasks[i]| && !Blocks(x.sems, tasks[i][j])
       case _ => true
  }

  ghost function ThreadStep(tasks: Tasks, x: Sys, i: int): Sys
    requires Can(tasks, x, i)
  {
    match x.locs[i]
    case PostReady => x.(ready := x.ready[i := x.ready[i] + 1], locs := x.locs[i := LockStart])
    case LockStart => x.(start := By(i), locs := x.locs[i := UnlockStart])
    case UnlockStart => x.(start := Free, locs := x.locs[i := WorkAt(0, |tasks[i]|)])
    case Work(j) => x.(sems := Perform(x.sems, tasks[i][j]), locs := x.locs[i := WorkAt(j + 1, |tasks[i]|)])
    case PostDone =>
      x.(doneSem := x.doneSem[i := x.doneSem[i] + 1], fin := x.fin[i := x.fin[i] + 1], locs := x.locs[i := LockDone])
    case LockDone => x.(done := By(i), locs := x.locs[i := UnlockDone])
    case UnlockDone => x.(done := Free, locs := x.locs[i := PostReady])
  }

  // --- The invariant -----------------------------------------------------------------------

  /** The threads may be at work. */
  predicate Working(m: Main) { m.WaitDone? || m.InitDone? || m.LockStartMutex? }

  /** The main thread has taken the token of thread `i`. */
  predicate Taken(m: Main, i: int) {
    match m
    case Create(_) => false
    case UnlockDoneMutex => false
    case Over => false
    case WaitReady(k) => i < k
    case InitReady(k) => i <= k
    case WaitDone(k) => i < k
    case InitDone(k) => i <= k
    case _ => true
  }

  ghost predicate MainOk(x: Sys, repeat: nat) {
    && (match x.main
        case Create(k) => k < |x.locs| && x.rounds == 0
        case WaitReady(k) => k < |x.locs|
        case InitReady(k) => k < |x.locs|
        case WaitDone(k) => k < |x.locs|
        case InitDone(k) => k < |x.locs|
        case _ => true)
    && (if x.main.Over? then x.rounds == repeat else x.main.Create? || x.rounds < repeat)
  }

  /** The start mutex outside the work, the done mutex around it. */
  ghost predicate MutexOk(x: Sys) {
    && (!Working(x.main) ==> x.start == ByMain)
    && (Working(x.main) ==> x.start != ByMain)
    && (x.main.WaitReady? || x.main.InitReady? || x.main.LockDoneMutex? ==> x.done != ByMain)
    && (!(x.main.WaitReady? || x.main.InitReady? || x.main.LockDoneMutex?) ==> x.done == ByMain)
    && (x.start.By? ==> 0 <= x.start.thread < |x.locs| && x.locs[x.start.thread].UnlockStart?)
    && (x.done.By? ==> 0 <= x.done.thread < |x.locs| && x.locs[x.done.thread].UnlockDone?)
  }

  ghost predicate ThreadOk(x: Sys, i: int, n: nat)
    requires 0 <= i < |x.locs| == |x.ready| == |x.doneSem| == |x.fin|
  {
    var loc := x.locs[i];
    && (loc.UnlockStart? ==> x.start == By(i)) && (loc.UnlockDone? ==> x.done == By(i))
    && (loc.NotStarted? ==> x.main.Create? && i >= x.main.k)
    && (x.main.Create? && i >= x.main.k ==> loc.NotStarted?)
    && if Working(x.main) then
         && (loc.LockStart? || loc.UnlockStart? || loc.Work? || loc.PostDone? || loc.LockDone?)
         && (loc.Work? ==> loc.j < n)
         && (Taken(x.main, i) ==> loc.LockDone?)
         && x.doneSem[i] == (if loc.LockDone? && !Taken(x.main, i) then 1 else 0)
         && x.ready[i] == 0 && x.fin[i] == x.rounds + (if loc.LockDone? then 1 else 0)
       else
         && (loc.NotStarted? || loc.LockDone? || loc.UnlockDone? || loc.PostReady? || loc.LockStart?)
         && (Taken(x.main, i) ==> loc.LockStart?)
         && x.ready[i] == (if loc.LockStart? && !Taken(x.main, i) then 1 else 0)
         && x.doneSem[i] == 0 && x.fin[i] == x.rounds
  }

  /** How far thread `i` is in the atoms of the round. */
  ghost function Pc(x: Sys, i: nat, n: nat): nat
    requires i < |x.locs|
  {
    if !Working(x.main) then 0
    else match x.locs[i]
      case Work(j) => if j <= n then j else n
      case PostDone => n
      case LockDone => n
      case _ => 0
  }

  ghost function Pcs(tasks: Tasks, x: Sys): seq<nat>
    requires Sized(tasks, x)
  {
    seq(|tasks|, i requires 0 <= i < |tasks| => Pc(x, i, |tasks[i]|))
  }

  ghost predicate Inv(tasks: Tasks, g: Pairing, repeat: nat, x: Sys) {
    && Sized(tasks, x) && MainOk(x, repeat) && MutexOk(x) && Counts(g, Pcs(tasks, x), x.sems)
    && forall i {:trigger x.locs[i]} :: 0 <= i < |tasks| ==> ThreadOk(x, i, |tasks[i]|)
  }

  // --- Every step keeps it -------------------------------------------------------------------

  lemma BeginInv(tasks: Tasks, g: Pairing, repeat: nat)
    requires Sound(tasks, g)
    ensures Inv(tasks, g, repeat, Begin(tasks, repeat))
  {
    var x := Begin(tasks, repeat);
    SoundSems(tasks, g);
    StartCounts(tasks, g, Pcs(tasks, x));
    forall i | 0 <= i < |tasks|
      ensures ThreadOk(x, i, |tasks[i]|)
    {
      assert x.locs[i] == NotStarted;
    }
  }

  /** The end of a round: every semaphore is back at zero. */
  lemma AllPassed(tasks: Tasks, g: Pairing, pc: seq<nat>, sems: seq<nat>)
    requires Sound(tasks, g) && Counts(g, pc, sems) && |pc| == |tasks|
    requires forall i :: 0 <= i < |pc| ==> pc[i] == |tasks[i]|
    ensures sems == Zeros(|g.sleeper|)
  {
    forall s | 0 <= s < |sems|
      ensures sems[s] == 0
    {
      assert HasPair(tasks, g, s);
    }
  }

  lemma MainCounts(tasks: Tasks, g: Pairing, repeat: nat, x: Sys)
    requires Sound(tasks, g) && Inv(tasks, g, repeat, x) && MainCan(x)
    ensures Counts(g, Pcs(tasks, MainStep(x, repeat)), x.sems)
    ensures x.main.LockStartMutex? ==> x.sems == Zeros(|g.sleeper|)
  {
    var y := MainStep(x, repeat);
    if x.main.LockStartMutex? {
      AllPassed(tasks, g, Pcs(tasks, x), x.sems);
      StartCounts(tasks, g, Pcs(tasks, y));
    } else {
      assert Pcs(tasks, y) == Pcs(tasks, x);
    }
  }

  lemma MainThreads(tasks: Tasks, g: Pairing, repeat: nat, x: Sys, i: int)
    requires Inv(tasks, g, repeat, x) && MainCan(x) && 0 <= i < |tasks|
    ensures ThreadOk(MainStep(x, repeat), i, |tasks[i]|)
  {
    assert ThreadOk(x, i, |tasks[i]|);
  }

  lemma MainMutexes(tasks: Tasks, g: Pairing, repeat: nat, x: Sys)
    requires Inv(tasks, g, repeat, x) && MainCan(x)
    ensures MutexOk(MainStep(x, repeat)) && MainOk(MainStep(x, repeat), repeat)
  {
  }

  lemma MainInv(tasks: Tasks, g: Pairing, repeat: nat, x: Sys)
    requires Sound(tasks, g) && Inv(tasks, g, repeat, x) && MainCan(x)
    ensures Inv(tasks, g, repeat, MainStep(x, repeat))
  {
    MainCounts(tasks, g, repeat, x);
    MainMutexes(tasks, g, repeat, x);
    forall i | 0 <= i < |tasks|
      ensures ThreadOk(MainStep(x, repeat), i, |tasks[i]|)
    {
      MainThreads(tasks, g, repeat, x, i);
    }
  }

  lemma ThreadCounts(tasks: Tasks, g: Pairing, repeat: nat, x: Sys, i: int)
    requires Sound(tasks, g) && Inv(tasks, g, repeat, x) && Can(tasks, x, i)
    ensures Counts(g, Pcs(tasks, ThreadStep(tasks, x, i)), ThreadStep(tasks, x, i).sems)
  {
    var y := ThreadStep(tasks, x, i);
    assert ThreadOk(x, i, |tasks[i]|);
    if x.locs[i].Work? {
      var st := State(Pcs(tasks, x), x.sems);
      assert |x.sems| == |g.sleeper| && Shaped(tasks, g, st);
      StepCounts(tasks, g, st, i);
      assert Pcs(tasks, y) == Step(tasks, st, i).pc;
    } else {
      assert Pcs(tasks, y) == Pcs(tasks, x);
    }
  }

  lemma ThreadThreads(tasks: Tasks, g: Pairing, repeat: nat, x: Sys, i: int, k: int)
    requires Inv(tasks, g, repeat, x) && Can(tasks, x, i) && 0 <= k < |tasks|
    ensures ThreadOk(ThreadStep(tasks, x, i), k, |tasks[k]|)
  {
    assert ThreadOk(x, i, |tasks[i]|) && ThreadOk(x, k, |tasks[k]|);
  }

  lemma ThreadMutexes(tasks: Tasks, g: Pairing, repeat: nat, x: Sys, i: int)
    requires Inv(tasks, g, repeat, x) && Can(tasks, x, i)
    ensures MutexOk(ThreadStep(tasks, x, i)) && MainOk(ThreadStep(tasks, x, i), repeat)
  {
    assert ThreadOk(x, i, |tasks[i]|);
  }

  lemma ThreadInv(tasks: Tasks, g: Pairing, repeat: nat, x: Sys, i: int)
    requires Sound(tasks, g) && Inv(tasks, g, repeat, x) && Can(tasks, x, i)
    ensures Inv(tasks, g, repeat, ThreadStep(tasks, x, i))
  {
    ThreadCounts(tasks, g, repeat, x, i);
    ThreadMutexes(tasks, g, repeat, x, i);
    forall k | 0 <= k < |tasks|
      ensures ThreadOk(ThreadStep(tasks, x, i), k, |tasks[k]|)
    {
      ThreadThreads(tasks, g, repeat, x, i, k);
    }
  }

  // --- Never stuck ---------------------------------------------------------------------------

  ghost predicate CanStep(tasks: Tasks, x: Sys) {
    MainCan(x) || exists i :: Can(tasks, x, i)
  }

  lemma HolderCan(tasks: Tasks, g: Pairing, repeat: nat, x: Sys, i: int)
    requires Inv(tasks, g, repeat, x) && 0 <= i < |tasks| && x.main != Over
    requires (x.locs[i].LockStart? && Working(x.main)) || (x.locs[i].LockDone? && x.done != ByMain)
    ensures CanStep(tasks, x)
  {
    if Can(tasks, x, i) {
    } else if x.locs[i].LockStart? {
      assert Can(tasks, x, x.start.thread);
    } else {
      assert Can(tasks, x, x.done.thread);
    }
  }

  lemma ReadyNotStuck(tasks: Tasks, g: Pairing, repeat: nat, x: Sys)
    requires Inv(tasks, g, repeat, x) && x.main.WaitReady?
    ensures CanStep(tasks, x)
  {
    var i := x.main.k;
    assert ThreadOk(x, i, |tasks[i]|);
    if !MainCan(x) {
      if x.locs[i].LockDone? { HolderCan(tasks, g, repeat, x, i); } else { assert Can(tasks, x, i); }
    }
  }

  lemma DoneNotStuck(tasks: Tasks, g: Pairing, repeat: nat, x: Sys)
    requires Sound(tasks, g) && Inv(tasks, g, repeat, x) && x.main.WaitDone?
    ensures CanStep(tasks, x)
  {
    var i := x.main.k;
    assert ThreadOk(x, i, |tasks[i]|);
    if !MainCan(x) && !Can(tasks, x, i) {
      if x.locs[i].LockStart? {
        HolderCan(tasks, g, repeat, x, i);
      } else {
        var st := State(Pcs(tasks, x), x.sems);
        assert Shaped(tasks, g, st);
        var j := Unblocked(tasks, g, st, i);
        assert ThreadOk(x, j, |tasks[j]|);
        if x.locs[j].LockStart? { HolderCan(tasks, g, repeat, x, j); } else { assert Can(tasks, x, j); }
      }
    }
  }

  lemma NotStuck(tasks: Tasks, g: Pairing, repeat: nat, x: Sys)
    requires Sound(tasks, g) && Inv(tasks, g, repeat, x) && x.main != Over
    ensures CanStep(tasks, x)
  {
    match x.main {
      case WaitReady(_) => ReadyNotStuck(tasks, g, repeat, x);
      case WaitDone(_) => DoneNotStuck(tasks, g, repeat, x);
      case _ =>
    }
  }

  // --- Whole runs -----------------------------------------------------------------------------

  /** `-1` stands for the main thread. */
  ghost predicate Moves(tasks: Tasks, repeat: nat, x: Sys, who: int, y: Sys) {
    if who == -1 then MainCan(x) && y == MainStep(x, repeat)
    else Can(tasks, x, who) && y == ThreadStep(tasks, x, who)
  }

  ghost predicate IsReplay(tasks: Tasks, repeat: nat, run: seq<Sys>, who: seq<int>) {
    && |run| == |who| + 1 && run[0] == Begin(tasks, repeat)
    && forall k :: 0 <= k < |who| ==> Moves(tasks, repeat, run[k], who[k], run[k + 1])
  }

  lemma {:induction false} ReplayInv(tasks: Tasks, g: Pairing, repeat: nat, run: seq<Sys>, who: seq<int>, k: nat)
    requires Sound(tasks, g) && IsReplay(tasks, repeat, run, who) && k < |run|
    ensures Inv(tasks, g, repeat, run[k])
  {
    if k == 0 {
      BeginInv(tasks, g, repeat);
    } else {
      ReplayInv(tasks, g, repeat, run, who, k - 1);
      assert Moves(tasks, repeat, run[k - 1], who[k - 1], run[k]);
      if who[k - 1] == -1 {
        MainInv(tasks, g, repeat, run[k - 1]);
      } else {
        ThreadInv(tasks, g, repeat, run[k - 1], who[k - 1]);
      }
    }
  }

  /** No thread is at an atom of a round before every thread has announced the end of
      the round before, and whoever has announced it waits. */
  lemma Barrier(tasks: Tasks, g: Pairing, repeat: nat, run: seq<Sys>, who: seq<int>, k: nat, i: int, j: int)
    requires Sound(tasks, g) && IsReplay(tasks, repeat, run, who) && k < |run|
    requires 0 <= i < |tasks| && 0 <= j < |tasks|
    ensures Sized(tasks, run[k])
    ensures run[k].locs[i].Work? ==> run[k].fin[i] <= run[k].fin[j]
    ensures run[k].locs[i].Work? ==> run[k].fin[j] <= run[k].fin[i] + 1
  {
    ReplayInv(tasks, g, repeat, run, who, k);
    assert ThreadOk(run[k], i, |tasks[i]|) && ThreadOk(run[k], j, |tasks[j]|);
  }

  /** Between rounds every semaphore is at zero, and no token posted to the main thread
      is lost when it resets a semaphore. */
  lemma RoundEnds(tasks: Tasks, g: Pairing, repeat: nat, run: seq<Sys>, who: seq<int>, k: nat)
    requires Sound(tasks, g) && IsReplay(tasks, repeat, run, who) && k < |run|
    ensures !Working(run[k].main) ==> run[k].sems == Zeros(SemsOf(tasks))
    ensures run[k].main.InitReady? ==> run[k].main.k < |run[k].ready| && run[k].ready[run[k].main.k] == 0
    ensures run[k].main.InitDone? ==> run[k].main.k < |run[k].doneSem| && run[k].doneSem[run[k].main.k] == 0
  {
    var x := run[k];
    ReplayInv(tasks, g, repeat, run, who, k);
    SoundSems(tasks, g);
    if !Working(x.main) {
      forall s | 0 <= s < |x.sems|
        ensures x.sems[s] == 0
      {
        assert Counts(g, Pcs(tasks, x), x.sems) && HasPair(tasks, g, s);
      }
    }
    if x.main.InitReady? || x.main.InitDone? { assert ThreadOk(x, x.main.k, |tasks[x.main.k]|); }
  }

  /** The replay is never stuck: as long as a round is left, someone can move. */
  lemma NeverStuck(tasks: Tasks, g: Pairing, repeat: nat, run: seq<Sys>, who: seq<int>, k: nat)
    requires Sound(tasks, g) && IsReplay(tasks, repeat, run, who) && k < |run|
    ensures CanStep(tasks, run[k]) || (run[k].main.Over? && run[k].rounds == repeat)
  {
    ReplayInv(tasks, g, repeat, run, who, k);
    if run[k].main != Over { NotStuck(tasks, g, repeat, run[k]); }
  }

  // --- Every run ends ---------------------------------------------------------------------------

  /** Steps that thread `i` has taken. */
  ghost function Ticks(x: Sys, i: nat, n: nat): int
    requires i < |x.locs| && i < |x.fin|
  {
    x.fin[i] * (n + 6)
    + match x.locs[i]
      case NotStarted => 0
      case PostReady => 0
      case LockStart => 1
      case UnlockStart => 2
      case Work(j) => 3 + j
      case PostDone => 3 + n
      case LockDone => -2
      case UnlockDone => -1
  }

  ghost function SumTicks(tasks: Tasks, x: Sys, k: nat): int
    requires Sized(tasks, x) && k <= |tasks|
  {
    if k == 0 then 0 else SumTicks(tasks, x, k - 1) + Ticks(x, k - 1, |tasks[k - 1]|)
  }

  /** Steps that the main thread has taken. */
  ghost function MainTicks(x: Sys): int {
    var n := |x.locs|;
    match x.main
    case Create(k) => k
    case UnlockDoneMutex => n + x.rounds * (4 * n + 4)
    case WaitReady(k) => n + x.rounds * (4 * n + 4) + 1 + 2 * k
    case InitReady(k) => n + x.rounds * (4 * n + 4) + 2 + 2 * k
    case LockDoneMutex => n + x.rounds * (4 * n + 4) + 1 + 2 * n
    case UnlockStartMutex => n + x.rounds * (4 * n + 4) + 2 + 2 * n
    case WaitDone(k) => n + x.rounds * (4 * n + 4) + 3 + 2 * n + 2 * k
    case InitDone(k) => n + x.rounds * (4 * n + 4) + 4 + 2 * n + 2 * k
    case LockStartMutex => n + x.rounds * (4 * n + 4) + 3 + 4 * n
    case Over => n + x.rounds * (4 * n + 4)
  }

  lemma OneMore(a: nat, b: int)
    ensures (a + 1) * b == a * b + b
  {
  }

  lemma {:induction false} SumTicksStep(tasks: Tasks, x: Sys, y: Sys, i: nat, k: nat)
    requires Sized(tasks, x) && Sized(tasks, y) && i < |tasks| && k <= |tasks|
    requires forall j :: 0 <= j < |tasks| && j != i ==> x.locs[j] == y.locs[j] && x.fin[j] == y.fin[j]
    ensures SumTicks(tasks, y, k) - SumTicks(tasks, x, k)
            == if i < k then Ticks(y, i, |tasks[i]|) - Ticks(x, i, |tasks[i]|) else 0
  {
    if k > 0 { SumTicksStep(tasks, x, y, i, k - 1); }
  }

  lemma {:induction false} SumTicksSame(tasks: Tasks, x: Sys, y: Sys, k: nat)
    requires Sized(tasks, x) && Sized(tasks, y) && k <= |tasks| && x.fin == y.fin
    requires forall j :: 0 <= j < |tasks| ==>
      x.locs[j] == y.locs[j] || (x.locs[j] == NotStarted && y.locs[j] == PostReady)
    ensures SumTicks(tasks, y, k) == SumTicks(tasks, x, k)
  {
    if k > 0 { SumTicksSame(tasks, x, y, k - 1); }
  }

  lemma ThreadTick(tasks: Tasks, g: Pairing, repeat: nat, x: Sys, i: int)
    requires Inv(tasks, g, repeat, x) && Can(tasks, x, i)
    ensures var y := ThreadStep(tasks, x, i);
      Sized(tasks, y) && SumTicks(tasks, y, |tasks|) == SumTicks(tasks, x, |tasks|) + 1 && MainTicks(y) == MainTicks(x)
  {
    var y := ThreadStep(tasks, x, i);
    OneMore(x.fin[i], |tasks[i]| + 6);
    SumTicksStep(tasks, x, y, i, |tasks|);
  }

  lemma MainTicksStep(x: Sys, repeat: nat)
    requires MainOk(x, repeat) && MainCan(x)
    ensures MainTicks(MainStep(x, repeat)) == MainTicks(x) + 1
  {
    OneMore(x.rounds, 4 * |x.locs| + 4);
  }

  lemma MainTick(tasks: Tasks, g: Pairing, repeat: nat, x: Sys)
    requires Inv(tasks, g, repeat, x) && MainCan(x)
    ensures var y := MainStep(x, repeat);
      Sized(tasks, y) && SumTicks(tasks, y, |tasks|) == SumTicks(tasks, x, |tasks|)
  {
    var y := MainStep(x, repeat);
    if x.main.Create? { assert ThreadOk(x, x.main.k, |tasks[x.main.k]|); }
    SumTicksSame(tasks, x, y, |tasks|);
  }

  lemma {:induction false} RunTicks(tasks: Tasks, g: Pairing, repeat: nat, run: seq<Sys>, who: seq<int>, k: nat)
    requires Sound(tasks, g) && IsReplay(tasks, repeat, run, who) && k < |run|
    ensures Sized(tasks, run[k]) && k == MainTicks(run[k]) + SumTicks(tasks, run[k], |tasks|)
  {
    ReplayInv(tasks, g, repeat, run, who, k);
    if k == 0 {
      BeginTicks(tasks, run[0], |tasks|);
    } else {
      RunTicks(tasks, g, repeat, run, who, k - 1);
      ReplayInv(tasks, g, repeat, run, who, k - 1);
      assert Moves(tasks, repeat, run[k - 1], who[k - 1], run[k]);
      if who[k - 1] == -1 {
        MainTick(tasks, g, repeat, run[k - 1]);
        MainTicksStep(run[k - 1], repeat);
      } else {
        ThreadTick(tasks, g, repeat, run[k - 1], who[k - 1]);
      }
    }
  }

  lemma {:induction false} BeginTicks(tasks: Tasks, x: Sys, k: nat)
    requires Sized(tasks, x) && k <= |tasks|
    requires forall i :: 0 <= i < |tasks| ==> x.locs[i] == NotStarted && x.fin[i] == 0
    ensures SumTicks(tasks, x, k) == 0
  {
    if k > 0 { BeginTicks(tasks, x, k - 1); }
  }

  /** The most steps that `repeat` rounds of the first `k` threads can take. */
  ghost function MostTicks(tasks: Tasks, repeat: nat, k: nat): nat
    requires k <= |tasks|
  {
    if k == 0 then 0 else MostTicks(tasks, repeat, k - 1) + repeat * (|tasks[k - 1]| + 6) + |tasks[k - 1]| + 3
  }

  lemma Times(a: nat, b: nat, c: nat)
    requires a <= b
    ensures a * c <= b * c
  {
  }

  lemma TicksBound(tasks: Tasks, g: Pairing, repeat: nat, x: Sys, i: nat)
    requires Inv(tasks, g, repeat, x) && i < |tasks|
    ensures Ticks(x, i, |tasks[i]|) <= repeat * (|tasks[i]| + 6) + |tasks[i]| + 3
  {
    assert ThreadOk(x, i, |tasks[i]|);
    Times(x.fin[i], repeat, |tasks[i]| + 6);
  }

  lemma {:induction false} SumTicksBound(tasks: Tasks, g: Pairing, repeat: nat, x: Sys, k: nat)
    requires Inv(tasks, g, repeat, x) && k <= |tasks|
    ensures SumTicks(tasks, x, k) <= MostTicks(tasks, repeat, k)
  {
    if k > 0 {
      SumTicksBound(tasks, g, repeat, x, k - 1);
      TicksBound(tasks, g, repeat, x, k - 1);
    }
  }

  lemma MainTicksBound(tasks: Tasks, g: Pairing, repeat: nat, x: Sys)
    requires Inv(tasks, g, repeat, x)
    ensures MainTicks(x) <= |tasks| + repeat * (4 * |tasks| + 4)
  {
    if x.main.Over? || x.main.Create? {
    } else {
      OneMore(x.rounds, 4 * |tasks| + 4);
      Times(x.rounds + 1, repeat, 4 * |tasks| + 4);
    }
  }

  /** No run goes on for ever, however the threads are scheduled, and one that cannot go on
      has seen all the rounds through. */
  lemma ReplayEnds(tasks: Tasks, g: Pairing, repeat: nat, run: seq<Sys>, who: seq<int>)
    requires Sound(tasks, g) && IsReplay(tasks, repeat, run, who)
    ensures |who| <= |tasks| + repeat * (4 * |tasks| + 4) + MostTicks(tasks, repeat, |tasks|)
    ensures !CanStep(tasks, run[|who|]) ==> run[|who|].main.Over? && run[|who|].rounds == repeat
  {
    ReplayInv(tasks, g, repeat, run, who, |who|);
    RunTicks(tasks, g, repeat, run, who, |who|);
    SumTicksBound(tasks, g, repeat, run[|who|], |tasks|);
    MainTicksBound(tasks, g, repeat, run[|who|]);
    NeverStuck(tasks, g, repeat, run, who, |who|);
  }

  /** The number of steps that no replay exceeds. */
  ghost function MostSteps(tasks: Tasks, repeat: nat): nat {
    |tasks| + repeat * (4 * |tasks| + 4) + MostTicks(tasks, repeat, |tasks|)
  }

  /** No replay is ever stuck, and all end after the asked number of rounds. */
  ghost predicate AlwaysEnds(tasks: Tasks, repeat: nat) {
    forall run: seq<Sys>, who: seq<int> :: IsReplay(tasks, repeat, run, who) ==>
      && |who| <= MostSteps(tasks, repeat)
      && (CanStep(tasks, run[|who|]) || (run[|who|].main.Over? && run[|who|].rounds == repeat))
  }

  lemma SoundEnds(tasks: Tasks, g: Pairing, repeat: nat)
    requires Sound(tasks, g)
    ensures AlwaysEnds(tasks, repeat)
  {
    forall run: seq<Sys>, who: seq<int> | IsReplay(tasks, repeat, run, who)
      ensures |who| <= MostSteps(tasks, repeat)
      ensures CanStep(tasks, run[|who|]) || (run[|who|].main.Over? && run[|who|].rounds == repeat)
    {
      ReplayEnds(tasks, g, repeat, run, who);
    }
  }

  /** `perf sched replay`: the replayed lists are those that the events say, with the closing ring
      of wakeups, and however often they are repeated, every replay ends. There is none if time
      goes back on a CPU. */
  method Replay(events: seq<Event>, repeat: nat) returns (sched: PerfSched, ok: bool)
    requires WordTimes(events)
    ensures ok <==> InOrder(TicksOf(events))
    ensures ok ==> exists recorded ::
      Recorded(events, recorded, sched.pids) && Ringed(recorded, sched.tasks, |sched.tasks|)
    ensures !ok ==> exists n :: Fails(TicksOf(events), n) && Recorded(events[..n], sched.tasks, sched.pids)
    ensures sched.Valid() && (ok ==> AlwaysEnds(sched.tasks, repeat))
  {
    sched := new PerfSched();
    ok := sched.Record(events);
    FromEvents(events);
    if !ok {
      ghost var n := FirstFailure(TicksOf(events));
      Failed(events, n);
      assert Recorded(events[..n], sched.tasks, sched.pids);
      return;
    }
    assert Recorded(events, sched.tasks, sched.pids);
    sched.AddCrossTaskWakeups();
    SoundEnds(sched.tasks, sched.g, repeat);
  }
}
