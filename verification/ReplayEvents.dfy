/** What `perf sched replay` should record, said from the list of events alone. */
module ReplayEvents {
  import opened Machine
  import opened ReplayTrace
  import opened SwitchOrder

  // --- What an event says ----------------------------------------------------------------------

  /** A switch on a CPU that is kept track of. */
  ghost function TickOf(e: Event): Tick {
    if e.SwitchEvent? && 0 <= e.cpu < MAX_CPUS then Tick(e.cpu, e.time) else NoTick
  }

  ghost function TicksOf(events: seq<Event>): (ticks: seq<Tick>)
    ensures |ticks| == |events| && forall k :: 0 <= k < |events| ==> ticks[k] == TickOf(events[k])
  {
    seq(|events|, k requires 0 <= k < |events| => TickOf(events[k]))
  }

  /** `pid` goes off its CPU. */
  ghost predicate Leaves(e: Event, pid: nat) { TickOf(e).Tick? && e.prevPid == pid }

  ghost predicate Wakes(e: Event, pid: nat) { e.WakeupEvent? && e.tid == pid }

  ghost predicate IsWoken(e: Event, pid: nat) { e.WakeupEvent? && e.tid != pid && e.pid == pid }

  ghost predicate Touches(e: Event, pid: nat) { Leaves(e, pid) || Wakes(e, pid) || IsWoken(e, pid) }

  /** The tasks an event is about, in the order in which they become known. */
  ghost function Mentions(e: Event): seq<nat> {
    match e
    case WakeupEvent(tid, pid, _) => [tid, pid]
    case SwitchEvent(cpu, prevPid, nextPid, _) => if 0 <= cpu < MAX_CPUS then [prevPid, nextPid] else []
    case ForkEvent(found, parent, child) => if found then [parent, child] else []
  }

  ghost function AllMentions(events: seq<Event>): seq<nat> {
    if events == [] then [] else AllMentions(events[..|events| - 1]) + Mentions(events[|events| - 1])
  }

  /** Every element where it comes first. */
  ghost function Firsts(s: seq<nat>): (r: seq<nat>)
    ensures forall p :: p in r <==> p in s
    ensures forall i, j :: 0 <= i < j < |r| ==> r[i] != r[j]
  {
    if s == [] then []
    else
      var r := Firsts(s[..|s| - 1]);
      if s[|s| - 1] in r then r else r + [s[|s| - 1]]
  }

  /** The pids of the tasks, by task number. */
  ghost function Pids(events: seq<Event>): seq<nat> { Firsts(AllMentions(events)) }

  ghost predicate WordTimes(events: seq<Event>) {
    forall k :: 0 <= k < |events| && events[k].SwitchEvent? ==> events[k].time < TWO_64
  }

  /** How long the task that leaves a CPU has been there. */
  ghost function StayAfter(events: seq<Event>, e: Event): nat
    requires WordTimes(events) && TickOf(e).Tick?
  {
    SwitchedWord(TicksOf(events), e.cpu);
    var last := SwitchedAt(TicksOf(events), e.cpu);
    if last == 0 then 0 else Distance(last, e.time)
  }

  // --- What a task does ------------------------------------------------------------------------

  datatype Deed = Ran(time: nat, length: nat) | Slept(time: nat, sem: Sem) | Woke(time: nat, whom: nat, sem: Sem)

  /** Since it last left a CPU, or since the beginning, `pid` has woken nobody and nobody has
      woken it. */
  ghost predicate Idle(events: seq<Event>, pid: nat) {
    events == [] || var e := events[|events| - 1];
    Leaves(e, pid) || (!Wakes(e, pid) && !IsWoken(e, pid) && Idle(events[..|events| - 1], pid))
  }

  /** The event, which comes after `events`, is the wakeup that a sleeping task waits for. */
  ghost predicate Pairs(events: seq<Event>, e: Event) { e.WakeupEvent? && IsWoken(e, e.pid) && Idle(events, e.pid) }

  ghost function PairCount(events: seq<Event>): nat {
    if events == [] then 0
    else
      var n := |events| - 1;
      PairCount(events[..n]) + (if Pairs(events[..n], events[n]) then 1 else 0)
  }

  /** What a sleep of `pid` that begins before event `m` waits for: the first wakeup by another
      task, unless the task does something before. */
  ghost function Awaits(events: seq<Event>, m: nat, pid: nat): Sem
    requires m <= |events|
    decreases |events| - m
  {
    if m == |events| || Leaves(events[m], pid) || Wakes(events[m], pid) then NoSem
    else if IsWoken(events[m], pid) then Sem(PairCount(events[..m]))
    else Awaits(events, m + 1, pid)
  }

  /** What `pid` does at event `n`. */
  ghost function DeedsAt(events: seq<Event>, n: nat, pid: nat): seq<Deed>
    requires WordTimes(events) && n < |events|
  {
    var e := events[n];
    if Leaves(e, pid) then [Ran(e.time, StayAfter(events[..n], events[n])), Slept(e.time, Awaits(events, n + 1, pid))]
    else if Wakes(e, pid) then
      [Woke(e.time, e.pid, if Pairs(events[..n], e) then Sem(PairCount(events[..n])) else NoSem)]
    else []
  }

  /** What `pid` does in the first `n` events; to begin with it is asleep. */
  ghost function Deeds(events: seq<Event>, n: nat, pid: nat): seq<Deed>
    requires WordTimes(events) && n <= |events|
  {
    if n == 0 then [Slept(0, Awaits(events, 0, pid))] else Deeds(events, n - 1, pid) + DeedsAt(events, n - 1, pid)
  }

  ghost predicate IsDeed(pids: seq<nat>, a: Atom, d: Deed) {
    match d
    case Ran(time, length) => a == Run(time, length)
    case Slept(time, sem) => a == Sleep(time, sem)
    case Woke(time, whom, sem) =>
      a.Wakeup? && a.timestamp == time && a.sem == sem && a.wakee < |pids| && pids[a.wakee] == whom
  }

  ghost predicate AreDeeds(pids: seq<nat>, atoms: seq<Atom>, deeds: seq<Deed>) {
    |atoms| == |deeds| && forall j :: 0 <= j < |atoms| ==> IsDeed(pids, atoms[j], deeds[j])
  }

  ghost function All(events: seq<Event>, pid: nat): seq<Deed>
    requires WordTimes(events)
  {
    Deeds(events, |events|, pid)
  }

  /** The lists say what the tasks of `pids` have done. */
  ghost predicate Tell(events: seq<Event>, tasks: Tasks, pids: seq<nat>)
    requires WordTimes(events)
  {
    |tasks| == |pids| && forall t :: 0 <= t < |tasks| ==> AreDeeds(pids, tasks[t], All(events, pids[t]))
  }

  /** The list of every task is what its pid does in the events. */
  ghost predicate Recorded(events: seq<Event>, tasks: Tasks, pids: seq<nat>)
    requires WordTimes(events)
  {
    pids == Pids(events) && Tell(events, tasks, pids)
  }

  // --- One more event --------------------------------------------------------------------------

  /** Nothing happens to `pid` from event `m` on. */
  ghost predicate Quiet(events: seq<Event>, m: nat, pid: nat) {
    forall k :: m <= k < |events| ==> !Touches(events[k], pid)
  }

  lemma QuietFrom(events: seq<Event>, m: nat, pid: nat)
    requires m < |events|
    ensures Quiet(events, m, pid) <==> Quiet(events, m + 1, pid) && !Touches(events[m], pid)
  {
  }

  lemma {:induction false} AwaitsNext(events: seq<Event>, e: Event, m: nat, pid: nat)
    requires m <= |events|
    ensures Awaits(events + [e], m, pid)
         == if Quiet(events, m, pid) && IsWoken(e, pid) then Sem(PairCount(events)) else Awaits(events, m, pid)
    ensures Quiet(events, m, pid) ==> Awaits(events, m, pid) == NoSem
    decreases |events| - m
  {
    var all := events + [e];
    assert all[..m] == events[..m];
    if m == |events| {
      assert events[..m] == events && all[m] == e;
      assert Awaits(all, m + 1, pid) == NoSem;
    } else {
      assert all[m] == events[m];
      AwaitsNext(events, e, m + 1, pid);
      if !Touches(events[m], pid) { assert Quiet(events, m, pid) <==> Quiet(events, m + 1, pid); }
    }
  }

  lemma DeedsAtNext(events: seq<Event>, e: Event, n: nat, pid: nat)
    requires WordTimes(events + [e]) && WordTimes(events) && n < |events|
    ensures var d, d' := DeedsAt(events, n, pid), DeedsAt(events + [e], n, pid);
      if Leaves(events[n], pid) && Quiet(events, n + 1, pid) && IsWoken(e, pid)
      then |d| == 2 && d[1] == Slept(d[1].time, NoSem) && d' == d[1 := Slept(d[1].time, Sem(PairCount(events)))]
      else d' == d
  {
    var all := events + [e];
    assert all[..n] == events[..n] && all[n] == events[n];
    AwaitsNext(events, e, n + 1, pid);
  }

  /** The last deed, a sleep, waits for semaphore `s`. */
  ghost function WokenUp(deeds: seq<Deed>, s: nat): seq<Deed>
    requires |deeds| > 0
  {
    var n := |deeds| - 1;
    deeds[n := Slept(deeds[n].time, Sem(s))]
  }

  ghost predicate EndsAsleep(deeds: seq<Deed>) {
    |deeds| > 0 && deeds[|deeds| - 1] == Slept(deeds[|deeds| - 1].time, NoSem)
  }

  lemma IdleFrom(events: seq<Event>, n: nat, pid: nat)
    requires n < |events|
    ensures Idle(events[..n + 1], pid)
       <==> Leaves(events[n], pid) || (!Touches(events[n], pid) && Idle(events[..n], pid))
  {
    assert events[..n + 1][..n] == events[..n];
  }

  /** The deeds before event `n` end in a sleep for nobody yet exactly if the task is idle and nobody
      wakes it later. */
  ghost predicate EndsRight(events: seq<Event>, n: nat, pid: nat, d: seq<Deed>)
    requires n <= |events|
  {
    && |d| > 0 && !d[|d| - 1].Ran?
    && if Idle(events[..n], pid) then d[|d| - 1] == Slept(d[|d| - 1].time, Awaits(events, n, pid))
       else !EndsAsleep(d)
  }

  lemma LastStep(events: seq<Event>, n: nat, pid: nat, d: seq<Deed>, more: seq<Deed>)
    requires WordTimes(events) && n < |events| && EndsRight(events, n, pid, d) && more == DeedsAt(events, n, pid)
    ensures EndsRight(events, n + 1, pid, d + more)
  {
    IdleFrom(events, n, pid);
    if more == [] {
      assert d + more == d;
    } else {
      assert (d + more)[|d + more| - 1] == more[|more| - 1];
    }
  }

  lemma {:induction false} LastDeed(events: seq<Event>, n: nat, pid: nat, d: seq<Deed>)
    requires WordTimes(events) && n <= |events| && d == Deeds(events, n, pid)
    ensures EndsRight(events, n, pid, d)
  {
    if n == 0 {
      assert events[..0] == [];
    } else {
      var before := Deeds(events, n - 1, pid);
      LastDeed(events, n - 1, pid, before);
      LastStep(events, n - 1, pid, before, DeedsAt(events, n - 1, pid));
    }
  }

  /** The last deed waits for a wakeup, or there is no change. */
  ghost function Waited(deeds: seq<Deed>, waits: bool, s: nat): seq<Deed>
    requires |deeds| > 0
  {
    if waits then WokenUp(deeds, s) else deeds
  }

  lemma WaitedMore(deeds: seq<Deed>, more: seq<Deed>, more': seq<Deed>, waits: bool, s: nat)
    requires |deeds| > 0
    requires if waits then |more| > 0 && more' == WokenUp(more, s) else more' == more
    ensures deeds + more' == Waited(deeds + more, waits, s)
  {
  }

  /** A wakeup by `e` after `events` is for a sleep before event `n`. */
  ghost predicate ForSleep(events: seq<Event>, e: Event, n: nat, pid: nat)
    requires n <= |events|
  {
    Quiet(events, n, pid) && Idle(events[..n], pid) && IsWoken(e, pid)
  }

  lemma DeedsStep(events: seq<Event>, e: Event, n: nat, pid: nat, d: seq<Deed>, d': seq<Deed>)
    requires WordTimes(events + [e]) && WordTimes(events) && n < |events| && |d| > 0
    requires d' == Waited(d, ForSleep(events, e, n, pid), PairCount(events))
    ensures d' + DeedsAt(events + [e], n, pid)
         == Waited(d + DeedsAt(events, n, pid), ForSleep(events, e, n + 1, pid), PairCount(events))
  {
    QuietFrom(events, n, pid);
    IdleFrom(events, n, pid);
    DeedsAtNext(events, e, n, pid);
    var more, more' := DeedsAt(events, n, pid), DeedsAt(events + [e], n, pid);
    if Touches(events[n], pid) {
      WaitedMore(d, more, more', ForSleep(events, e, n + 1, pid), PairCount(events));
    } else {
      assert d + more == d && d' + more' == d';
    }
  }

  lemma DeedsFirst(events: seq<Event>, e: Event, pid: nat)
    requires WordTimes(events + [e]) && WordTimes(events)
    ensures Deeds(events + [e], 0, pid)
         == Waited(Deeds(events, 0, pid), ForSleep(events, e, 0, pid), PairCount(events))
  {
    AwaitsNext(events, e, 0, pid);
  }

  /** A wakeup changes the sleep that the task is in, and no other deed. */
  lemma {:induction false} DeedsNext(events: seq<Event>, e: Event, n: nat, pid: nat, d: seq<Deed>, d': seq<Deed>)
    requires WordTimes(events + [e]) && WordTimes(events) && n <= |events|
    requires d == Deeds(events, n, pid) && d' == Deeds(events + [e], n, pid)
    ensures |d| > 0 && d' == Waited(d, ForSleep(events, e, n, pid), PairCount(events))
  {
    if n == 0 {
      DeedsFirst(events, e, pid);
    } else {
      var d0, d0' := Deeds(events, n - 1, pid), Deeds(events + [e], n - 1, pid);
      DeedsNext(events, e, n - 1, pid, d0, d0');
      DeedsStep(events, e, n - 1, pid, d0, d0');
    }
  }

  /** What the last event adds to the deeds of `pid`. */
  ghost function Added(events: seq<Event>, e: Event, pid: nat): seq<Deed>
    requires WordTimes(events + [e]) && WordTimes(events)
  {
    if Leaves(e, pid) then [Ran(e.time, StayAfter(events, e)), Slept(e.time, NoSem)]
    else if Wakes(e, pid) then [Woke(e.time, e.pid, if Pairs(events, e) then Sem(PairCount(events)) else NoSem)]
    else []
  }

  lemma AllNext(events: seq<Event>, e: Event, pid: nat)
    requires WordTimes(events + [e]) && WordTimes(events)
    ensures All(events, pid) != []
    ensures var d := All(events, pid);
      All(events + [e], pid)
      == Waited(d, IsWoken(e, pid) && Idle(events, pid), PairCount(events)) + Added(events, e, pid)
  {
    var all, n := events + [e], |events|;
    assert events[..n] == events && all[..n] == events && all[n] == e;
    DeedsNext(events, e, n, pid, All(events, pid), Deeds(all, n, pid));
  }

  lemma AllLast(events: seq<Event>, pid: nat)
    requires WordTimes(events)
    ensures var d := All(events, pid);
      d != [] && !d[|d| - 1].Ran? && (EndsAsleep(d) <==> Idle(events, pid))
  {
    LastDeed(events, |events|, pid, All(events, pid));
    assert events[..|events|] == events;
  }

  lemma {:induction false} Unmentioned(events: seq<Event>, n: nat, pid: nat)
    requires WordTimes(events) && n <= |events| && pid !in AllMentions(events)
    ensures Deeds(events, n, pid) == [Slept(0, NoSem)]
  {
    MentionsTouched(events, pid);
    if n == 0 {
      AwaitsNothing(events, 0, pid);
    } else {
      Unmentioned(events, n - 1, pid);
      assert !Touches(events[n - 1], pid);
    }
  }

  lemma {:induction false} MentionsTouched(events: seq<Event>, pid: nat)
    requires pid !in AllMentions(events)
    ensures Quiet(events, 0, pid)
  {
    if events != [] {
      var n := |events| - 1;
      MentionsTouched(events[..n], pid);
      assert forall k :: 0 <= k < n ==> events[..n][k] == events[k];
      assert pid !in Mentions(events[n]);
    }
  }

  lemma {:induction false} AwaitsNothing(events: seq<Event>, m: nat, pid: nat)
    requires m <= |events| && Quiet(events, m, pid)
    ensures Awaits(events, m, pid) == NoSem
    decreases |events| - m
  {
    if m < |events| { AwaitsNothing(events, m + 1, pid); }
  }

  // --- The recording ---------------------------------------------------------------------------

  lemma MorePids(pids: seq<nat>, pid: nat, atoms: seq<Atom>, deeds: seq<Deed>)
    requires AreDeeds(pids, atoms, deeds)
    ensures AreDeeds(pids + [pid], atoms, deeds)
  {
    forall j | 0 <= j < |atoms|
      ensures IsDeed(pids + [pid], atoms[j], deeds[j])
    {
      assert IsDeed(pids, atoms[j], deeds[j]);
    }
  }

  lemma KnownTells(events: seq<Event>, tasks: Tasks, pids: seq<nat>, pid: nat)
    requires WordTimes(events) && Tell(events, tasks, pids) && (pid !in pids ==> pid !in AllMentions(events))
    ensures var k := Known(tasks, pids, pid); Tell(events, k.0, k.1)
  {
    if pid !in pids {
      var k := Known(tasks, pids, pid);
      forall t | 0 <= t < |k.0|
        ensures AreDeeds(k.1, k.0[t], All(events, k.1[t]))
      {
        if t < |tasks| {
          MorePids(pids, pid, tasks[t], All(events, pids[t]));
        } else {
          Unmentioned(events, |events|, pid);
        }
      }
    }
  }

  lemma FirstsMore(s: seq<nat>, p: nat, q: nat, tasks: Tasks)
    ensures Known2(tasks, Firsts(s), p, q).1 == Firsts(s + [p, q])
  {
    assert (s + [p])[..|s|] == s && (s + [p, q])[..|s| + 1] == s + [p];
  }

  lemma Known2Tells(events: seq<Event>, tasks: Tasks, p: nat, q: nat)
    requires WordTimes(events) && Tell(events, tasks, Pids(events))
    ensures var k := Known2(tasks, Pids(events), p, q);
      Tell(events, k.0, k.1) && k.1 == Firsts(AllMentions(events) + [p, q])
  {
    var k := Known(tasks, Pids(events), p);
    KnownTells(events, tasks, Pids(events), p);
    KnownTells(events, k.0, k.1, q);
    FirstsMore(AllMentions(events), p, q, tasks);
  }

  lemma PidsNext(events: seq<Event>, e: Event)
    ensures Pids(events + [e]) == Firsts(AllMentions(events) + Mentions(e))
  {
    assert (events + [e])[..|events|] == events;
  }

  /** The list of a task that leaves a CPU. */
  lemma LeaverTells(events: seq<Event>, e: Event, pids: seq<nat>, atoms: seq<Atom>, pid: nat, ran: nat)
    requires WordTimes(events + [e]) && WordTimes(events) && AreDeeds(pids, atoms, All(events, pid)) && Leaves(e, pid)
    requires Added(events, e, pid)[0].length == ran
    ensures AreDeeds(pids, WithRun(atoms, e.time, ran) + [Sleep(e.time, NoSem)], All(events + [e], pid))
  {
    AllNext(events, e, pid);
    AllLast(events, pid);
    assert IsDeed(pids, atoms[|atoms| - 1], All(events, pid)[|atoms| - 1]);
  }

  lemma StillTells(events: seq<Event>, e: Event, pids: seq<nat>, atoms: seq<Atom>, pid: nat)
    requires WordTimes(events + [e]) && WordTimes(events) && AreDeeds(pids, atoms, All(events, pid))
    requires !Leaves(e, pid) && !Wakes(e, pid) && (IsWoken(e, pid) ==> !Idle(events, pid))
    ensures AreDeeds(pids, atoms, All(events + [e], pid))
  {
    AllNext(events, e, pid);
  }

  lemma WakerTells(events: seq<Event>, e: Event, pids: seq<nat>, atoms: seq<Atom>, pid: nat, wakee: nat)
    requires WordTimes(events + [e]) && WordTimes(events) && AreDeeds(pids, atoms, All(events, pid)) && Wakes(e, pid)
    requires wakee < |pids| && pids[wakee] == e.pid
    ensures AreDeeds(pids, atoms + [Wakeup(e.time, wakee, if Pairs(events, e) then Sem(PairCount(events)) else NoSem)],
                     All(events + [e], pid))
  {
    AllNext(events, e, pid);
  }

  lemma WakeeTells(events: seq<Event>, e: Event, pids: seq<nat>, atoms: seq<Atom>, pid: nat)
    requires WordTimes(events + [e]) && WordTimes(events) && AreDeeds(pids, atoms, All(events, pid)) && IsWoken(e, pid)
    requires Idle(events, pid) && Target(atoms)
    ensures var n := |atoms| - 1;
      AreDeeds(pids, atoms[n := Sleep(atoms[n].timestamp, Sem(PairCount(events)))], All(events + [e], pid))
  {
    AllNext(events, e, pid);
    AllLast(events, pid);
    assert IsDeed(pids, atoms[|atoms| - 1], All(events, pid)[|atoms| - 1]);
  }

  lemma TargetIdle(events: seq<Event>, pids: seq<nat>, atoms: seq<Atom>, pid: nat)
    requires WordTimes(events) && AreDeeds(pids, atoms, All(events, pid))
    ensures Target(atoms) <==> Idle(events, pid)
  {
    AllLast(events, pid);
    assert IsDeed(pids, atoms[|atoms| - 1], All(events, pid)[|atoms| - 1]);
  }

  ghost predicate Distinct(pids: seq<nat>) { forall i, j :: 0 <= i < j < |pids| ==> pids[i] != pids[j] }

  lemma SwitchTells(events: seq<Event>, e: Event, tasks: Tasks, pids: seq<nat>, t: nat, ran: nat)
    requires WordTimes(events + [e]) && WordTimes(events) && Tell(events, tasks, pids) && Distinct(pids)
    requires e.SwitchEvent? && t < |pids| && Leaves(e, pids[t]) && Added(events, e, pids[t])[0].length == ran
    ensures Tell(events + [e], Switched(tasks, t, e.time, ran), pids)
  {
    var tasks' := Switched(tasks, t, e.time, ran);
    forall i | 0 <= i < |tasks|
      ensures AreDeeds(pids, tasks'[i], All(events + [e], pids[i]))
    {
      if i == t {
        LeaverTells(events, e, pids, tasks[i], pids[i], ran);
      } else {
        StillTells(events, e, pids, tasks[i], pids[i]);
      }
    }
  }

  lemma WakeupTells(events: seq<Event>, e: Event, tasks: Tasks, pids: seq<nat>, waker: nat, wakee: nat)
    requires WordTimes(events + [e]) && WordTimes(events) && Tell(events, tasks, pids) && Distinct(pids)
    requires e.WakeupEvent? && waker < |pids| && wakee < |pids| && pids[waker] == e.tid && pids[wakee] == e.pid
    ensures (waker != wakee && Target(tasks[wakee])) <==> Pairs(events, e)
    ensures Tell(events + [e], Woken(tasks, waker, wakee, e.time, PairCount(events)), pids)
  {
    var tasks' := Woken(tasks, waker, wakee, e.time, PairCount(events));
    TargetIdle(events, pids, tasks[wakee], e.pid);
    forall i | 0 <= i < |tasks|
      ensures AreDeeds(pids, tasks'[i], All(events + [e], pids[i]))
    {
      if i == waker {
        WakerTells(events, e, pids, tasks[i], pids[i], wakee);
      } else if i == wakee && Idle(events, e.pid) {
        WakeeTells(events, e, pids, tasks[i], pids[i]);
      } else {
        StillTells(events, e, pids, tasks[i], pids[i]);
      }
    }
  }

  lemma QuietTells(events: seq<Event>, e: Event, tasks: Tasks, pids: seq<nat>)
    requires WordTimes(events + [e]) && WordTimes(events) && Tell(events, tasks, pids)
    requires forall p :: !Touches(e, p)
    ensures Tell(events + [e], tasks, pids)
  {
    forall t | 0 <= t < |tasks|
      ensures AreDeeds(pids, tasks[t], All(events + [e], pids[t]))
    {
      assert !Touches(e, pids[t]);
      StillTells(events, e, pids, tasks[t], pids[t]);
    }
  }

  // --- All that the recorder keeps --------------------------------------------------------------

  ghost predicate LastTold(events: seq<Event>, last: seq<nat>) {
    |last| == MAX_CPUS && forall cpu :: 0 <= cpu < MAX_CPUS ==> last[cpu] == SwitchedAt(TicksOf(events), cpu)
  }

  ghost predicate Told(events: seq<Event>, w: Trace)
    requires WordTimes(events)
  {
    w.ok && Recorded(events, w.tasks, w.pids) && w.pairs == PairCount(events) && LastTold(events, w.last)
  }

  lemma PairsNext(events: seq<Event>, e: Event)
    ensures PairCount(events + [e]) == PairCount(events) + if Pairs(events, e) then 1 else 0
  {
    assert (events + [e])[..|events|] == events;
  }

  lemma TicksNext(events: seq<Event>, e: Event)
    ensures TicksOf(events + [e]) == TicksOf(events) + [TickOf(e)]
  {
  }

  lemma LastNext(events: seq<Event>, e: Event, last: seq<nat>)
    requires LastTold(events, last)
    ensures LastTold(events + [e], if TickOf(e).Tick? then last[e.cpu := e.time] else last)
  {
    forall cpu | 0 <= cpu < MAX_CPUS
      ensures SwitchedAt(TicksOf(events + [e]), cpu) == if TicksOn(TickOf(e), cpu) then e.time else last[cpu]
    {
      TicksNext(events, e);
      SwitchedNext(TicksOf(events), TickOf(e), cpu);
    }
  }

  lemma WakeupTold(events: seq<Event>, w: Trace, e: Event)
    requires WordTimes(events + [e]) && WordTimes(events) && Told(events, w) && Fits(w) && e.WakeupEvent?
    ensures Told(events + [e], Next(w, e))
  {
    Known2Tells(events, w.tasks, e.tid, e.pid);
    var k := Known2(w.tasks, w.pids, e.tid, e.pid);
    WakeupTells(events, e, k.0, k.1, IndexOf(k.1, e.tid), IndexOf(k.1, e.pid));
    PidsNext(events, e);
    PairsNext(events, e);
    LastNext(events, e, w.last);
  }

  lemma SwitchTold(events: seq<Event>, w: Trace, e: Event)
    requires WordTimes(events + [e]) && WordTimes(events) && Told(events, w) && Fits(w)
    requires TickOf(e).Tick?
    ensures if Follows(TicksOf(events), TickOf(e)) then Told(events + [e], Next(w, e))
            else Next(w, e) == w.(ok := false)
  {
    var ran := Since(w.last[e.cpu], e.time);
    assert ran == StayAfter(events, e) && (Follows(TicksOf(events), TickOf(e)) <==> ran < TWO_63) by {
      SwitchedWord(TicksOf(events), e.cpu);
      assert (events + [e])[|events|] == e;
      DistanceIsMod(w.last[e.cpu], e.time);
    }
    if Follows(TicksOf(events), TickOf(e)) {
      Known2Tells(events, w.tasks, e.prevPid, e.nextPid);
      var k := Known2(w.tasks, w.pids, e.prevPid, e.nextPid);
      SwitchTells(events, e, k.0, k.1, IndexOf(k.1, e.prevPid), ran);
      PidsNext(events, e);
      PairsNext(events, e);
      LastNext(events, e, w.last);
    }
  }

  /** An event that is not about any task. */
  lemma NothingTold(events: seq<Event>, w: Trace, e: Event)
    requires WordTimes(events + [e]) && WordTimes(events) && Told(events, w) && Fits(w) && Mentions(e) == []
    ensures Told(events + [e], Next(w, e))
  {
    QuietTells(events, e, w.tasks, w.pids);
    assert AllMentions(events) + Mentions(e) == AllMentions(events);
    PidsNext(events, e);
    PairsNext(events, e);
    LastNext(events, e, w.last);
  }

  lemma ForkTold(events: seq<Event>, w: Trace, e: Event)
    requires WordTimes(events + [e]) && WordTimes(events) && Told(events, w) && Fits(w) && e.ForkEvent? && e.found
    ensures Told(events + [e], Next(w, e))
  {
    Known2Tells(events, w.tasks, e.parent, e.child);
    var k := Known2(w.tasks, w.pids, e.parent, e.child);
    QuietTells(events, e, k.0, k.1);
    PidsNext(events, e);
    PairsNext(events, e);
    LastNext(events, e, w.last);
  }

  ghost function Blank(): Trace { Trace([], [], seq(MAX_CPUS, _ => 0), 0, true) }

  /** The list of every task is what its events say, and the recorder fails exactly if time goes
      back on a CPU. */
  lemma {:induction false} FromEvents(events: seq<Event>)
    requires WordTimes(events)
    ensures After(Blank(), events).ok <==> InOrder(TicksOf(events))
    ensures InOrder(TicksOf(events)) ==> Told(events, After(Blank(), events))
  {
    if events != [] {
      var n := |events| - 1;
      var before, e := events[..n], events[n];
      assert events == before + [e] && WordTimes(before);
      FromEvents(before);
      TicksNext(before, e);
      OrderNext(TicksOf(before), TickOf(e));
      var w := After(Blank(), before);
      if w.ok {
        if Mentions(e) == [] { NothingTold(before, w, e); }
        else if e.WakeupEvent? { WakeupTold(before, w, e); }
        else if e.SwitchEvent? { SwitchTold(before, w, e); }
        else { ForkTold(before, w, e); }
      }
    }
  }

  /** A recording in time order, with times below 2^63, never fails. */
  lemma SortedNeverFails(events: seq<Event>)
    requires WordTimes(events)
    requires forall i, j :: 0 <= i < j < |events| && events[i].SwitchEvent? && events[j].SwitchEvent? ==>
      events[i].time <= events[j].time < TWO_63
    ensures After(Blank(), events).ok && Told(events, After(Blank(), events))
  {
    SortedInOrder(TicksOf(events));
    FromEvents(events);
  }

  lemma FailsLast(events: seq<Event>, n: nat)
    requires Fails(TicksOf(events), n)
    ensures InOrder(TicksOf(events[..n])) && !Follows(TicksOf(events[..n]), TickOf(events[n]))
  {
    var before, t := TicksOf(events)[..n], TickOf(events[n]);
    assert TicksOf(events)[..n + 1] == before + [t];
    OrderNext(before, t);
    assert TicksOf(events[..n]) == before;
  }

  lemma NextFails(before: seq<Event>, e: Event, w: Trace)
    requires WordTimes(before + [e]) && WordTimes(before) && Told(before, w) && Fits(w)
    requires !Follows(TicksOf(before), TickOf(e))
    ensures Next(w, e) == w.(ok := false)
  {
    SwitchTold(before, w, e);
  }

  lemma AfterNext(before: seq<Event>, e: Event, upto: seq<Event>)
    requires upto == before + [e]
    ensures After(Blank(), upto) == Next(After(Blank(), before), e)
  {
    assert upto[..|before|] == before;
  }

  lemma FailsNext(before: seq<Event>, e: Event, upto: seq<Event>, w: Trace)
    requires upto == before + [e] && WordTimes(upto) && WordTimes(before) && w == After(Blank(), before)
    requires InOrder(TicksOf(before)) && !Follows(TicksOf(before), TickOf(e))
    ensures Told(before, w) && After(Blank(), upto) == w.(ok := false)
  {
    FromEvents(before);
    NextFails(before, e, w);
    AfterNext(before, e, upto);
  }

  /** A recorder that fails has recorded the events before. */
  lemma Failed(events: seq<Event>, n: nat)
    requires WordTimes(events) && Fails(TicksOf(events), n)
    ensures WordTimes(events[..n]) && Told(events[..n], After(Blank(), events[..n]))
    ensures After(Blank(), events) == After(Blank(), events[..n]).(ok := false)
  {
    FailsLast(events, n);
    FailsNext(events[..n], events[n], events[..n + 1], After(Blank(), events[..n]));
    AfterFailure(Blank(), events, n + 1);
  }

  // --- How long a task runs ----------------------------------------------------------------------

  /** How long `pid` is on a CPU in the first `n` events. */
  ghost function OnCpu(events: seq<Event>, n: nat, pid: nat): nat
    requires WordTimes(events) && n <= |events|
  {
    if n == 0 then 0
    else
      var e := events[n - 1];
      OnCpu(events, n - 1, pid) + (if Leaves(e, pid) then StayAfter(events[..n - 1], e) else 0)
  }

  /** How long the first `n` deeds run. */
  ghost function TimeUpTo(deeds: seq<Deed>, n: nat): nat
    requires n <= |deeds|
  {
    if n == 0 then 0 else TimeUpTo(deeds, n - 1) + (if deeds[n - 1].Ran? then deeds[n - 1].length else 0)
  }

  ghost function TimeRun(deeds: seq<Deed>): nat { TimeUpTo(deeds, |deeds|) }

  lemma {:induction false} SameTime(pids: seq<nat>, atoms: seq<Atom>, deeds: seq<Deed>, n: nat)
    requires AreDeeds(pids, atoms, deeds) && n <= |atoms|
    ensures RunTime(atoms[..n]) == TimeUpTo(deeds, n)
  {
    if n > 0 {
      SameTime(pids, atoms, deeds, n - 1);
      assert IsDeed(pids, atoms[n - 1], deeds[n - 1]);
      assert atoms[..n][..n - 1] == atoms[..n - 1];
    }
  }

  lemma {:induction false} TimeMore(deeds: seq<Deed>, more: seq<Deed>, n: nat)
    requires n <= |deeds + more|
    ensures TimeUpTo(deeds + more, n)
         == if n <= |deeds| then TimeUpTo(deeds, n) else TimeRun(deeds) + TimeUpTo(more, n - |deeds|)
  {
    if n > 0 { TimeMore(deeds, more, n - 1); }
  }

  lemma TwoTime(d: Deed, e: Deed)
    requires d.Ran? && !e.Ran?
    ensures TimeRun([d, e]) == d.length
  {
    var both := [d, e];
    assert TimeUpTo(both, 1) == TimeUpTo(both, 0) + d.length;
    assert TimeUpTo(both, 2) == TimeUpTo(both, 1);
  }

  lemma TimeAt(events: seq<Event>, n: nat, pid: nat)
    requires WordTimes(events) && n < |events|
    ensures TimeRun(DeedsAt(events, n, pid)) == if Leaves(events[n], pid) then StayAfter(events[..n], events[n]) else 0
  {
    var more := DeedsAt(events, n, pid);
    if Leaves(events[n], pid) {
      TwoTime(more[0], more[1]);
      assert more == [more[0], more[1]];
    } else if Wakes(events[n], pid) {
      assert TimeUpTo(more, 1) == TimeUpTo(more, 0);
    }
  }

  lemma TimeFirst(events: seq<Event>, pid: nat)
    requires WordTimes(events)
    ensures TimeRun(Deeds(events, 0, pid)) == 0
  {
    assert TimeUpTo(Deeds(events, 0, pid), 0) == 0;
  }

  lemma TimeStep(events: seq<Event>, n: nat, pid: nat)
    requires WordTimes(events) && n < |events|
    ensures TimeRun(Deeds(events, n + 1, pid))
         == TimeRun(Deeds(events, n, pid)) + if Leaves(events[n], pid) then StayAfter(events[..n], events[n]) else 0
  {
    var d, more := Deeds(events, n, pid), DeedsAt(events, n, pid);
    TimeMore(d, more, |d + more|);
    TimeAt(events, n, pid);
  }

  lemma {:induction false} TimeOnCpu(events: seq<Event>, n: nat, pid: nat)
    requires WordTimes(events) && n <= |events|
    ensures TimeRun(Deeds(events, n, pid)) == OnCpu(events, n, pid)
  {
    if n == 0 {
      TimeFirst(events, pid);
    } else {
      TimeOnCpu(events, n - 1, pid);
      TimeStep(events, n - 1, pid);
    }
  }

  /** The running time of every task is the time that its pid is on a CPU. */
  lemma RunTimeFromEvents(events: seq<Event>, tasks: Tasks, pids: seq<nat>, t: nat)
    requires WordTimes(events) && Recorded(events, tasks, pids) && t < |tasks|
    ensures RunTime(tasks[t]) == OnCpu(events, |events|, pids[t])
  {
    SameTime(pids, tasks[t], All(events, pids[t]), |tasks[t]|);
    assert tasks[t][..|tasks[t]|] == tasks[t];
    TimeOnCpu(events, |events|, pids[t]);
  }
}
