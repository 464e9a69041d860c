/** What the events of a recording say about the waits of a task, apart from how `perf sched latency`
    keeps its lists. */
module LatencyEvents {
  import opened Machine
  import opened Latency
  import opened SwitchOrder

  /** What happens to a task: it is switched out, runnable or not, or in; it is woken; it has run. */
  datatype Step = Out(runnable: bool, time: nat) | In(time: nat) | Woken(time: nat) | Ran(delta: nat)

  /** What an event says about task `t`. A task heard of for the first time counts as switched out at
      that moment, asleep if it is woken and runnable else. */
  ghost function StepsIn(first: bool, e: Event, t: nat): seq<Step> {
    match e
    case SwitchEvent(_, prevPid, prevState, nextPid, time) =>
      (if t == prevPid then [Out(prevState == 0, time)] else [])
      + (if t != nextPid then [] else if first && t != prevPid then [Out(true, time), In(time)] else [In(time)])
    case RuntimeEvent(pid, runtime, time) =>
      if t != pid then [] else if first then [Out(true, time), Ran(runtime)] else [Ran(runtime)]
    case WakeupEvent(pid, time) =>
      if t != pid then [] else if first then [Out(false, time), Woken(time)] else [Woken(time)]
  }

  ghost function StepsOf(events: seq<Event>, t: nat): seq<Step> {
    if events == [] then []
    else
      var s := StepsOf(events[..|events| - 1], t);
      s + StepsIn(s == [], events[|events| - 1], t)
  }

  // --- Asleep and waiting ----------------------------------------------------------------------

  /** The task is asleep since `o`: it was switched out then, and after that neither switched out
      again nor woken, except by wakeups from before `o`. */
  ghost predicate Sleeps(s: seq<Step>, o: nat) {
    exists k :: 0 <= k < |s| && s[k] == Out(false, o) && Sleeping(s, k, o)
  }

  ghost predicate Sleeping(s: seq<Step>, k: int, o: nat) {
    forall m :: k < m < |s| ==> 0 <= m && !s[m].Out? && !(s[m].Woken? && s[m].time >= o)
  }

  /** A wait for the CPU begins at `b` with step `j`: switched out while runnable, or woken from sleep. */
  ghost predicate Begins(s: seq<Step>, j: int, b: nat) {
    0 <= j < |s| && (s[j] == Out(true, b) || (s[j] == Woken(b) && exists o: nat :: Sleeps(s[..j], o) && o <= b))
  }

  /** The task waits since `b`: since then it was neither switched out nor in. */
  ghost predicate Waits(s: seq<Step>, b: nat) { exists j :: Begins(s, j, b) && Waiting(s, j) }

  ghost predicate Waiting(s: seq<Step>, j: int) {
    forall m :: j < m < |s| ==> 0 <= m && !s[m].Out? && !s[m].In?
  }

  /** A wait that is over. */
  datatype Span = Span(from: nat, to: nat)

  /** All waits that a switch-in has ended, in order; one that comes before the wait ends it too, but
      does not count. */
  ghost function Finished(s: seq<Step>): seq<Span> {
    if s == [] then []
    else
      var before, x := s[..|s| - 1], s[|s| - 1];
      if x.In? && exists b: nat :: Waits(before, b) && b <= x.time then
        var b: nat :| Waits(before, b) && b <= x.time;
        Finished(before) + [Span(b, x.time)]
      else Finished(before)
  }

  ghost function RanFor(s: seq<Step>): nat {
    if s == [] then 0 else RanFor(s[..|s| - 1]) + if s[|s| - 1].Ran? then s[|s| - 1].delta else 0
  }

  lemma SleepsMore(s: seq<Step>, x: Step, o: nat)
    ensures Sleeps(s + [x], o) <==> x == Out(false, o) || (Sleeps(s, o) && !x.Out? && !(x.Woken? && x.time >= o))
  {
    var s' := s + [x];
    if Sleeps(s', o) && x != Out(false, o) {
      var k :| 0 <= k < |s'| && s'[k] == Out(false, o) && Sleeping(s', k, o);
      assert s[k] == Out(false, o) && s'[|s|] == x;
      assert Sleeping(s, k, o) by {
        forall m | k < m < |s|
          ensures 0 <= m && !s[m].Out? && !(s[m].Woken? && s[m].time >= o)
        {
          assert s'[m] == s[m];
        }
      }
    }
    if x == Out(false, o) { assert s'[|s|] == x && Sleeping(s', |s|, o); }
    if Sleeps(s, o) && !x.Out? && !(x.Woken? && x.time >= o) {
      var k :| 0 <= k < |s| && s[k] == Out(false, o) && Sleeping(s, k, o);
      assert s'[k] == s[k] && Sleeping(s', k, o);
    }
  }

  lemma BeginsMore(s: seq<Step>, x: Step, j: int, b: nat)
    requires j < |s|
    ensures Begins(s + [x], j, b) <==> Begins(s, j, b)
  {
    if 0 <= j { assert (s + [x])[..j] == s[..j] && (s + [x])[j] == s[j]; }
  }

  lemma BeginsLast(s: seq<Step>, x: Step, b: nat)
    ensures Begins(s + [x], |s|, b) <==> x == Out(true, b) || (x == Woken(b) && exists o: nat :: Sleeps(s, o) && o <= b)
  {
    assert (s + [x])[..|s|] == s && (s + [x])[|s|] == x;
  }

  lemma WaitsMore(s: seq<Step>, x: Step, b: nat)
    ensures Waits(s + [x], b) <==>
      || x == Out(true, b) || (x == Woken(b) && exists o: nat :: Sleeps(s, o) && o <= b)
      || (Waits(s, b) && !x.Out? && !x.In?)
  {
    var s' := s + [x];
    BeginsLast(s, x, b);
    if Waits(s', b) {
      var j :| Begins(s', j, b) && Waiting(s', j);
      if j < |s| {
        BeginsMore(s, x, j, b);
        assert s'[|s|] == x;
        assert Waiting(s, j) by {
          forall m | j < m < |s|
            ensures 0 <= m && !s[m].Out? && !s[m].In?
          {
            assert s'[m] == s[m];
          }
        }
      }
    }
    if Begins(s', |s|, b) { assert Waiting(s', |s|); }
    if Waits(s, b) && !x.Out? && !x.In? {
      var j :| Begins(s, j, b) && Waiting(s, j);
      BeginsMore(s, x, j, b);
      assert Waiting(s', j);
    }
  }

  lemma FinishedMore(s: seq<Step>, x: Step)
    ensures RanFor(s + [x]) == RanFor(s) + if x.Ran? then x.delta else 0
    ensures !x.In? ==> Finished(s + [x]) == Finished(s)
    ensures x.In? && !(exists b: nat :: Waits(s, b) && b <= x.time) ==> Finished(s + [x]) == Finished(s)
    ensures x.In? && (exists b: nat :: Waits(s, b) && b <= x.time) ==>
      exists b: nat :: Waits(s, b) && b <= x.time && Finished(s + [x]) == Finished(s) + [Span(b, x.time)]
  {
    assert (s + [x])[..|s|] == s;
  }

  // --- One list ------------------------------------------------------------------------------------

  /** The finished waits in a list. */
  ghost function Spans(w: Work): seq<Span> {
    if w == [] then []
    else
      var a := Last(w);
      Spans(w[..|w| - 1]) + if a.state == SchedIn then [Span(a.wake, a.into)] else []
  }

  lemma SpansAppend(w: Work, a: WorkAtom)
    ensures Spans(w + [a]) == Spans(w) + if a.state == SchedIn then [Span(a.wake, a.into)] else []
    ensures Summary(w + [a]) == Plus(Summary(w), Share(a))
  {
    assert (w + [a])[..|w|] == w;
  }

  lemma SpansSetLast(w: Work, a: WorkAtom)
    requires w != []
    ensures Spans(SetLast(w, a)) == Spans(w[..|w| - 1]) + if a.state == SchedIn then [Span(a.wake, a.into)] else []
    ensures Summary(SetLast(w, a)) == Plus(Summary(w[..|w| - 1]), Share(a))
  {
    assert SetLast(w, a)[..|w| - 1] == w[..|w| - 1];
  }

  /** The last atom says whether and since when the task sleeps or waits. */
  ghost predicate Stands(a: WorkAtom, s: seq<Step>) {
    && (forall o: nat :: Sleeps(s, o) <==> a.state == ThreadState.Sleeping && a.out == o)
    && (forall b: nat :: Waits(s, b) <==> a.state == WaitCpu && a.wake == b)
  }

  /** The list tells what has happened to its task. */
  ghost predicate Tells(w: Work, s: seq<Step>) {
    && (w == [] <==> s == []) && Spans(w) == Finished(s) && Summary(w).run == RanFor(s)
    && (w != [] ==> Stands(Last(w), s))
  }

  function Stepped(w: Work, x: Step): Work
    requires w != [] || x.Out?
  {
    match x
    case Out(runnable, time) => w + [OutAtom(runnable, time)]
    case In(time) => AfterIn(w, time)
    case Woken(time) => AfterWakeup(w, time)
    case Ran(delta) => AfterRuntime(w, delta)
  }

  lemma StandsMore(w: Work, s: seq<Step>, x: Step)
    requires Tells(w, s) && (w != [] || x.Out?)
    ensures Stands(Last(Stepped(w, x)), s + [x])
  {
    var a := Last(Stepped(w, x));
    forall o: nat
      ensures Sleeps(s + [x], o) <==> a.state == ThreadState.Sleeping && a.out == o
    {
      SleepsMore(s, x, o);
    }
    forall b: nat
      ensures Waits(s + [x], b) <==> a.state == WaitCpu && a.wake == b
    {
      WaitsMore(s, x, b);
      if x.Woken? && w != [] && Last(w).state == ThreadState.Sleeping { assert Sleeps(s, Last(w).out); }
    }
  }

  lemma SpansIn(w: Work, s: seq<Step>, time: nat)
    requires Tells(w, s) && w != []
    ensures Spans(AfterIn(w, time)) == Finished(s + [In(time)]) && Summary(AfterIn(w, time)).run == Summary(w).run
  {
    FinishedMore(s, In(time));
    if Last(w).state == WaitCpu {
      assert Waits(s, Last(w).wake);
      SpansSetLast(w, Last(AfterIn(w, time)));
    }
  }

  /** Anything but a switch-in leaves the finished waits alone. */
  lemma SpansSame(w: Work, x: Step)
    requires (w != [] || x.Out?) && !x.In?
    ensures Spans(Stepped(w, x)) == Spans(w)
    ensures Summary(Stepped(w, x)).run == Summary(w).run + if x.Ran? then x.delta else 0
  {
    if x.Out? {
      SpansAppend(w, OutAtom(x.runnable, x.time));
    } else {
      SpansSetLast(w, Last(Stepped(w, x)));
      assert SetLast(w, Last(Stepped(w, x))) == Stepped(w, x);
    }
  }

  lemma SpansMore(w: Work, s: seq<Step>, x: Step)
    requires Tells(w, s) && (w != [] || x.Out?)
    ensures Spans(Stepped(w, x)) == Finished(s + [x]) && Summary(Stepped(w, x)).run == RanFor(s + [x])
  {
    FinishedMore(s, x);
    if x.In? { SpansIn(w, s, x.time); } else { SpansSame(w, x); }
  }

  lemma TellsMore(w: Work, s: seq<Step>, x: Step)
    requires Tells(w, s) && (w != [] || x.Out?)
    ensures Tells(Stepped(w, x), s + [x])
  {
    StandsMore(w, s, x);
    SpansMore(w, s, x);
  }

  // --- All lists -------------------------------------------------------------------------------------

  ghost function ListOf(w: Trace, t: nat): Work { if t in w.lists then w.lists[t] else [] }

  /** What one or two steps, or none, make of a list. */
  ghost function Applied(w: Work, xs: seq<Step>): Work
    requires |xs| <= 2 && (w == [] && xs != [] ==> xs[0].Out?)
  {
    if xs == [] then w else if |xs| == 1 then Stepped(w, xs[0]) else Stepped(Stepped(w, xs[0]), xs[1])
  }

  lemma TellsApplied(w: Work, s: seq<Step>, xs: seq<Step>)
    requires |xs| <= 2 && (w == [] && xs != [] ==> xs[0].Out?) && Tells(w, s)
    ensures Tells(Applied(w, xs), s + xs)
  {
    if xs == [] {
      assert s + xs == s;
    } else if |xs| == 1 {
      TellsMore(w, s, xs[0]);
      assert [xs[0]] == xs;
    } else {
      TellsMore(w, s, xs[0]);
      TellsMore(Stepped(w, xs[0]), s + [xs[0]], xs[1]);
      assert s + [xs[0]] + [xs[1]] == s + xs;
    }
  }

  lemma NextSwitch(lists: map<nat, Work>, e: Event, t: nat)
    requires e.SwitchEvent? && forall u :: u in lists ==> lists[u] != []
    ensures var lists' := Switched(lists, e.prevPid, e.prevState == 0, e.nextPid, e.time);
      var w := if t in lists then lists[t] else [];
      (if t in lists' then lists'[t] else []) == Applied(w, StepsIn(w == [], e, t))
  {
  }

  /** Every event changes the list of a task by what it says about the task. */
  lemma NextList(w: Trace, e: Event, t: nat)
    requires Fits(w) && InRange(e) && w.ok && Next(w, e).ok
    ensures ListOf(Next(w, e), t) == Applied(ListOf(w, t), StepsIn(ListOf(w, t) == [], e, t))
  {
    if e.SwitchEvent? { NextSwitch(w.lists, e, t); }
  }

  const START: Trace := Trace(map[], seq(MAX_CPUS, _ => 0), 0, 0, true)

  /** After every recording without a failure, the list of every task tells what its events say. */
  lemma {:induction false} AllTell(events: seq<Event>, t: nat)
    requires (forall n :: 0 <= n < |events| ==> InRange(events[n])) && After(START, events).ok
    ensures Tells(ListOf(After(START, events), t), StepsOf(events, t))
  {
    if events != [] {
      var n := |events| - 1;
      AllTell(events[..n], t);
      var w, s := After(START, events[..n]), StepsOf(events[..n], t);
      NextList(w, events[n], t);
      TellsApplied(ListOf(w, t), s, StepsIn(s == [], events[n], t));
    }
  }

  // --- Wakeups -----------------------------------------------------------------------------------------

  /** A wakeup at `time` finds its task asleep, and asleep since later than that. */
  ghost predicate FindsAsleep(s: seq<Step>, time: nat, late: bool) {
    exists o: nat :: Sleeps(Heard(s, time), o) && (late ==> o > time)
  }

  ghost function Heard(s: seq<Step>, time: nat): seq<Step> { if s == [] then [Out(false, time)] else s }

  ghost function Wakeups(events: seq<Event>, late: bool): nat {
    if events == [] then 0
    else
      var before, e := events[..|events| - 1], events[|events| - 1];
      Wakeups(before, late) + if e.WakeupEvent? && FindsAsleep(StepsOf(before, e.pid), e.time, late) then 1 else 0
  }

  lemma OneWakeup(w: Work, s: seq<Step>, time: nat)
    requires Tells(w, s)
    ensures var met := if w == [] then [OutAtom(false, time)] else w;
      && Stamps(met) == (if FindsAsleep(s, time, false) then 1 else 0)
      && Late(met, time) == (if FindsAsleep(s, time, true) then 1 else 0)
  {
    if w == [] {
      TellsMore(w, s, Out(false, time));
      assert s + [Out(false, time)] == [Out(false, time)];
      assert Sleeps(Heard(s, time), time);
    } else if Last(w).state == ThreadState.Sleeping {
      assert Sleeps(Heard(s, time), Last(w).out);
    }
  }

  /** The wakeups to be stamped are those that find their task asleep, and the unordered ones those
      from before it went to sleep. */
  lemma {:induction false} WakeupsCounted(events: seq<Event>)
    requires (forall n :: 0 <= n < |events| ==> InRange(events[n])) && After(START, events).ok
    ensures After(START, events).stamps == Wakeups(events, false)
    ensures After(START, events).unordered == Wakeups(events, true)
  {
    if events != [] {
      var n := |events| - 1;
      var w, e := After(START, events[..n]), events[n];
      WakeupsCounted(events[..n]);
      if e.WakeupEvent? {
        AllTell(events[..n], e.pid);
        OneWakeup(ListOf(w, e.pid), StepsOf(events[..n], e.pid), e.time);
      }
    }
  }

  // --- Failing ---------------------------------------------------------------------------------------

  ghost function TickOf(e: Event): Tick { if e.SwitchEvent? then Tick(e.cpu, e.time) else NoTick }

  ghost function TicksOf(events: seq<Event>): (ticks: seq<Tick>)
    ensures |ticks| == |events| && forall k :: 0 <= k < |events| ==> ticks[k] == TickOf(events[k])
  {
    seq(|events|, k requires 0 <= k < |events| => TickOf(events[k]))
  }

  ghost predicate LastTold(events: seq<Event>, last: seq<nat>) {
    |last| == MAX_CPUS && forall cpu :: 0 <= cpu < MAX_CPUS ==> last[cpu] == SwitchedAt(TicksOf(events), cpu)
  }

  lemma LastNext(events: seq<Event>, e: Event, last: seq<nat>)
    requires LastTold(events, last) && InRange(e)
    ensures LastTold(events + [e], if e.SwitchEvent? then last[e.cpu := e.time] else last)
  {
    assert TicksOf(events + [e]) == TicksOf(events) + [TickOf(e)];
    forall cpu | 0 <= cpu < MAX_CPUS
      ensures SwitchedAt(TicksOf(events + [e]), cpu) == if TicksOn(TickOf(e), cpu) then e.time else last[cpu]
    {
      SwitchedNext(TicksOf(events), TickOf(e), cpu);
    }
  }

  lemma BackwardsIsBack(events: seq<Event>, last: seq<nat>, e: Event)
    requires (forall n :: 0 <= n < |events| ==> InRange(events[n])) && LastTold(events, last)
    requires InRange(e) && e.SwitchEvent?
    ensures Backwards(last[e.cpu], e.time) <==> !Follows(TicksOf(events), TickOf(e))
  {
    SwitchedWord(TicksOf(events), e.cpu);
    DistanceIsMod(last[e.cpu], e.time);
  }

  /** A recording fails exactly if the clock of a CPU goes back from one switch to the next. */
  lemma {:induction false} FailsOnBack(events: seq<Event>)
    requires forall n :: 0 <= n < |events| ==> InRange(events[n])
    ensures After(START, events).ok <==> InOrder(TicksOf(events))
    ensures InOrder(TicksOf(events)) ==> LastTold(events, After(START, events).last)
  {
    if events != [] {
      var before, e := events[..|events| - 1], events[|events| - 1];
      FailsOnBack(before);
      assert TicksOf(events) == TicksOf(before) + [TickOf(e)] && events == before + [e];
      OrderNext(TicksOf(before), TickOf(e));
      if InOrder(TicksOf(before)) {
        LastNext(before, e, After(START, before).last);
        if e.SwitchEvent? { BackwardsIsBack(before, After(START, before).last, e); }
      }
    }
  }

  /** A recording in time order, with times below 2^63, never fails. */
  lemma SortedNeverFails(events: seq<Event>)
    requires forall n :: 0 <= n < |events| ==> InRange(events[n])
    requires forall i, j :: 0 <= i < j < |events| && events[i].SwitchEvent? && events[j].SwitchEvent? ==>
      events[i].time <= events[j].time < TWO_63
    ensures After(START, events).ok
  {
    SortedInOrder(TicksOf(events));
    FailsOnBack(events);
  }

  // --- The report ------------------------------------------------------------------------------------

  ghost function Length(x: Span): int { x.to - x.from }

  ghost function TotalLength(f: seq<Span>): int {
    if f == [] then 0 else TotalLength(f[..|f| - 1]) + Length(f[|f| - 1])
  }

  /** `max` is the length of the longest of some waits, zero if there are none, and one that long
      ended at `at`. */
  ghost predicate Longest(f: seq<Span>, max: nat, at: nat) {
    && (forall k :: 0 <= k < |f| ==> Length(f[k]) <= max)
    && (max > 0 ==> exists k :: 0 <= k < |f| && Length(f[k]) == max && f[k].to == at)
  }

  /** The figures of some waits and a time of running. */
  ghost predicate Reports(f: seq<Span>, run: nat, x: Totals, at: nat) {
    x.nb == |f| && x.lat == TotalLength(f) && Longest(f, x.max, at) && x.run == run
  }

  lemma Kept(w: Work, k: nat)
    requires k < |w| && w[k].state == SchedIn
    ensures Span(w[k].wake, w[k].into) in Spans(w)
  {
    if k < |w| - 1 { Kept(w[..|w| - 1], k); }
  }

  /** The running totals of a list are the figures of its finished waits. */
  lemma {:induction false} SummaryReports(w: Work)
    requires AllOrdered(w)
    ensures var x, f := Summary(w), Spans(w);
      x.nb == |f| && x.lat == TotalLength(f) && forall k :: 0 <= k < |f| ==> Length(f[k]) <= x.max
  {
    if w != [] {
      var v := w[..|w| - 1];
      SummaryReports(v);
      assert Ordered(Last(w));
      if Last(w).state == SchedIn {
        assert Spans(w)[..|Spans(w)| - 1] == Spans(v);
      } else {
        assert Spans(w) == Spans(v);
      }
    }
  }

  lemma AccountReports(w: Work, x: Totals, at: nat)
    requires Account(w, x, at)
    ensures Reports(Spans(w), Summary(w).run, x, at)
  {
    SummaryReports(w);
    if x.max > 0 {
      var k :| 0 <= k < |w| && w[k].state == SchedIn && Wait(w[k]) == x.max && w[k].into == at;
      assert Ordered(w[k]);
      Kept(w, k);
      var j :| 0 <= j < |Spans(w)| && Spans(w)[j] == Span(w[k].wake, w[k].into);
    }
  }

  /** The figures of a task are those of the waits and the running time that its events say. */
  ghost predicate TaskReported(events: seq<Event>, t: nat, x: Totals, at: nat) {
    Reports(Finished(StepsOf(events, t)), RanFor(StepsOf(events, t)), x, at)
  }

  lemma WaitsFromEvents(events: seq<Event>, t: nat, x: Totals, at: nat)
    requires (forall n :: 0 <= n < |events| ==> InRange(events[n])) && After(START, events).ok
    requires Account(ListOf(After(START, events), t), x, at)
    ensures ListOf(After(START, events), t) == [] <==> StepsOf(events, t) == []
    ensures TaskReported(events, t, x, at)
  {
    AllTell(events, t);
    AccountReports(ListOf(After(START, events), t), x, at);
  }

  /** `perf sched latency` on a whole recording: the tasks heard of, each with its figures. */
  method Latencies(events: seq<Event>, commOf: nat -> string) returns (sched: Sched, ok: bool)
    requires forall n :: 0 <= n < |events| ==> InRange(events[n])
    ensures fresh(sched) && fresh(sched.repr) && sched.commOf == commOf && sched.Valid()
    ensures ok <==> InOrder(TicksOf(events))
    ensures ok ==> forall t: nat :: t in sched.atoms <==> StepsOf(events, t) != []
    ensures ok ==> forall t: nat :: t in sched.atoms ==> sched.atoms[t].comm == commOf(t)
    ensures ok ==> forall t: nat :: t in sched.atoms ==>
      TaskReported(events, t, sched.atoms[t].Sums(), sched.atoms[t].maxLatAt)
    ensures ok ==> sched.nrTimestamps == Wakeups(events, false) && sched.nrUnorderedTimestamps == Wakeups(events, true)
    ensures ok ==> forall t: nat :: t in sched.lists ==> Tells(sched.lists[t], StepsOf(events, t))
  {
    sched := new Sched(commOf);
    ok := sched.Process(events);
    FailsOnBack(events);
    if ok {
      WakeupsCounted(events);
      forall t: nat
        ensures t in sched.atoms <==> StepsOf(events, t) != []
        ensures t in sched.atoms ==> sched.atoms[t].comm == commOf(t)
        ensures t in sched.atoms ==> TaskReported(events, t, sched.atoms[t].Sums(), sched.atoms[t].maxLatAt)
      {
        AllTell(events, t);
        if t in sched.atoms {
          assert Good(sched.atoms[t], t, sched.lists[t]);
          WaitsFromEvents(events, t, sched.atoms[t].Sums(), sched.atoms[t].maxLatAt);
        }
      }
      forall t: nat | t in sched.lists
        ensures Tells(sched.lists[t], StepsOf(events, t))
      {
        AllTell(events, t);
      }
    }
  }

  // --- The report by name -----------------------------------------------------------------------------

  /** The tasks among `tids` that are called `c`. */
  ghost function Namesakes(tids: seq<nat>, commOf: nat -> string, c: string): seq<nat> {
    if tids == [] then []
    else Namesakes(tids[..|tids| - 1], commOf, c)
         + if commOf(tids[|tids| - 1]) == c then [tids[|tids| - 1]] else []
  }

  /** The waits of all tasks of `tids`, the last task's first. */
  ghost function WaitsOfAll(events: seq<Event>, tids: seq<nat>): seq<Span> {
    if tids == [] then []
    else Finished(StepsOf(events, tids[|tids| - 1])) + WaitsOfAll(events, tids[..|tids| - 1])
  }

  ghost function RunOfAll(events: seq<Event>, tids: seq<nat>): nat {
    if tids == [] then 0
    else RanFor(StepsOf(events, tids[|tids| - 1])) + RunOfAll(events, tids[..|tids| - 1])
  }

  lemma {:induction false} SpansConcat(v: Work, w: Work)
    ensures Spans(v + w) == Spans(v) + Spans(w)
  {
    if w == [] {
      assert v + w == v;
    } else {
      var n := |w| - 1;
      SpansConcat(v, w[..n]);
      assert (v + w)[..|v| + n] == v + w[..n];
    }
  }

  /** Each item is the name and the list of its task. */
  ghost predicate ItemsTell(s: seq<Item>, events: seq<Event>, tids: seq<nat>, commOf: nat -> string) {
    && |s| == |tids|
    && forall i :: 0 <= i < |s| ==> s[i].comm == commOf(tids[i]) && Tells(s[i].list, StepsOf(events, tids[i]))
  }

  /** A list gathered from several tasks says what their events say. */
  ghost predicate ListTells(w: Work, events: seq<Event>, tids: seq<nat>) {
    Spans(w) == WaitsOfAll(events, tids) && Summary(w).run == RunOfAll(events, tids)
  }

  lemma AllMore(events: seq<Event>, tids: seq<nat>, t: nat)
    ensures WaitsOfAll(events, tids + [t]) == Finished(StepsOf(events, t)) + WaitsOfAll(events, tids)
    ensures RunOfAll(events, tids + [t]) == RanFor(StepsOf(events, t)) + RunOfAll(events, tids)
  {
    assert (tids + [t])[..|tids|] == tids;
  }

  lemma ListTellsMore(v: Work, w: Work, events: seq<Event>, tids: seq<nat>, t: nat, s: seq<Step>)
    requires ListTells(w, events, tids) && s == StepsOf(events, t)
    requires Spans(v) == Finished(s) && Summary(v).run == RanFor(s)
    ensures ListTells(v + w, events, tids + [t])
  {
    AllMore(events, tids, t);
    SpansConcat(v, w);
    assert Summary(v + w).run == Summary(v).run + Summary(w).run by { SummaryConcat(v, w); }
  }

  lemma {:induction false} GatheredTell(s: seq<Item>, events: seq<Event>, tids: seq<nat>, commOf: nat -> string,
                                        c: string, called: seq<nat>)
    requires ItemsTell(s, events, tids, commOf) && called == Namesakes(tids, commOf, c)
    ensures ListTells(Gathered(s, c), events, called) && Called(s, c) == |called|
  {
    if s != [] {
      var n := |s| - 1;
      var before := Namesakes(tids[..n], commOf, c);
      GatheredTell(s[..n], events, tids[..n], commOf, c, before);
      if s[n].comm == c {
        ListTellsMore(s[n].list, Gathered(s[..n], c), events, before, tids[n], StepsOf(events, tids[n]));
      } else {
        assert called == before;
      }
    }
  }

  /** The record counts the tasks `called` alike and has the figures of all their waits. */
  ghost predicate NameReported(events: seq<Event>, called: seq<nat>, w: WorkAtoms)
    reads w
  {
    && w.numMerged == |called|
    && Reports(WaitsOfAll(events, called), RunOfAll(events, called), w.Sums(), w.maxLatAt)
  }

  lemma StandsReported(events: seq<Event>, s: seq<Item>, c: string, called: seq<nat>, w: WorkAtoms)
    requires Latency.Stands(w, s, c) && ListTells(Gathered(s, c), events, called) && Called(s, c) == |called|
    ensures NameReported(events, called, w)
  {
    AccountReports(w.workList, w.Sums(), w.maxLatAt);
  }

  ghost predicate Falls(tids: seq<nat>) { forall i, j :: 0 <= i < j < |tids| ==> tids[i] > tids[j] }

  /** The order of the tree of tasks: the highest number first. */
  method Descending(keys: set<nat>) returns (tids: seq<nat>)
    ensures Falls(tids) && forall t :: t in tids <==> t in keys
  {
    tids := [];
    var rest := keys;
    while rest != {}
      invariant rest <= keys && Falls(tids) && forall t :: t in tids <==> t in keys && t !in rest
      decreases |rest|
    {
      var x :| x in rest;
      rest := rest - {x};
      var j := 0;
      while j < |tids| && tids[j] > x
        invariant 0 <= j <= |tids| && forall k :: 0 <= k < j ==> tids[k] > x
      {
        j := j + 1;
      }
      tids := Inserted(tids, j, x);
    }
  }

  function Inserted(tids: seq<nat>, j: nat, x: nat): (r: seq<nat>)
    requires j <= |tids| && Falls(tids) && x !in tids
    requires (forall k :: 0 <= k < j ==> tids[k] > x) && (j < |tids| ==> tids[j] <= x)
    ensures Falls(r) && forall t :: t in r <==> t == x || t in tids
  {
    var r := tids[..j] + [x] + tids[j..];
    assert forall k :: j <= k < |tids| ==> tids[k] <= tids[j];
    assert forall t :: t in r <==> t == x || t in tids by { assert tids == tids[..j] + tids[j..]; }
    r
  }

  /** The records of `tids`, none of them merged yet. */
  ghost predicate Listed(sched: Sched, tids: seq<nat>, order: seq<WorkAtoms>)
    reads order
  {
    && |order| == |tids| && Latency.Distinct(order)
    && forall i :: 0 <= i < |tids| ==>
         order[i].Ok() && order[i].numMerged == 0 && order[i].comm == sched.commOf(tids[i])
  }

  method InTreeOrder(sched: Sched) returns (tids: seq<nat>, order: seq<WorkAtoms>)
    requires sched.Valid()
    ensures Falls(tids) && (forall t :: t in tids <==> t in sched.atoms) && Listed(sched, tids, order)
    ensures forall i :: 0 <= i < |tids| ==> order[i] in sched.repr && order[i].workList == sched.lists[tids[i]]
  {
    tids := Descending(sched.atoms.Keys);
    var atoms := sched.atoms;
    order := seq(|tids|, i requires 0 <= i < |tids| && tids[i] in atoms => atoms[tids[i]]);
    forall i | 0 <= i < |tids|
      ensures Good(order[i], tids[i], sched.lists[tids[i]]) && order[i] in sched.repr
    {
    }
  }

  /** `perf_sched__lat` up to its printing: one record for each name, with the figures of all tasks
      of that name as the events say them. */
  method LatenciesByName(events: seq<Event>, commOf: nat -> string)
    returns (tids: seq<nat>, merged: map<string, WorkAtoms>, ok: bool)
    requires forall n :: 0 <= n < |events| ==> InRange(events[n])
    ensures ok <==> InOrder(TicksOf(events))
    ensures ok ==> Falls(tids) && forall t: nat :: t in tids <==> StepsOf(events, t) != []
    ensures ok ==> forall c :: c in merged <==> Namesakes(tids, commOf, c) != []
    ensures ok ==> forall c :: c in merged ==>
      merged[c].comm == c && NameReported(events, Namesakes(tids, commOf, c), merged[c])
  {
    var sched, order;
    sched, ok := Latencies(events, commOf);
    tids, merged := [], map[];
    if !ok { return; }
    tids, order := InTreeOrder(sched);
    ghost var s := Items(order);
    assert ItemsTell(s, events, tids, commOf);
    merged := MergeLat(order);
    forall c: string
      ensures c in merged <==> Namesakes(tids, commOf, c) != []
      ensures c in merged ==> NameReported(events, Namesakes(tids, commOf, c), merged[c])
    {
      GatheredTell(s, events, tids, commOf, c, Namesakes(tids, commOf, c));
      if c in merged { StandsReported(events, s, c, Namesakes(tids, commOf, c), merged[c]); }
    }
  }
}
