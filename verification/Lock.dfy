/** `perf lock report`: the state machine over lock events and the statistics it keeps. */
module Lock {
  import opened Machine

  datatype SeqState = Uninitialized | Released | Acquiring | Acquired | ReadAcquired | Contended

  /** `struct lock_seq_stat`: where a thread is with a lock. */
  datatype LockSeq = LockSeq(state: SeqState, prevTime: nat, readCount: int)

  datatype LockStat = LockStat(
    nrAcquire: nat, nrAcquired: nat, nrContended: nat, nrRelease: nat, nrReadlock: nat, nrTrylock: nat,
    avgWait: nat, waitTotal: nat, waitMin: nat, waitMax: nat, discard: bool)

  const ULLONG_MAX: nat := TWO_64 - 1
  const NEW_LOCK := LockStat(0, 0, 0, 0, 0, 0, 0, 0, ULLONG_MAX, 0, false)
  const NEW_SEQ := LockSeq(Uninitialized, 0, 0)

  /** A thread and a lock. */
  datatype Key = Key(tid: nat, addr: nat)

  datatype Kind = AcquireEvent(flag: nat) | AcquiredEvent | ContendedEvent | ReleaseEvent

  datatype Event = Event(kind: Kind, key: Key, time: nat)

  predicate TryLock(flag: nat) { flag % 2 == 1 }

  predicate ReadLock(flag: nat) { flag / 2 % 2 == 1 }

  /** What an event does to the lock and the sequence it is about. */
  datatype Effect =
    | Update(ls: LockStat, sq: LockSeq)
    | Free(ls: LockStat)
    | Broken
    | Bug

  function OnAcquire(ls: LockStat, sq: LockSeq, flag: nat, time: nat): Effect {
    match sq.state
    case ReadAcquired =>
      if ReadLock(flag) then Update(ls.(nrAcquired := ls.nrAcquired + 1), sq.(readCount := sq.readCount + 1))
      else Broken
    case Uninitialized => FirstAcquire(ls, sq, flag, time)
    case Released => FirstAcquire(ls, sq, flag, time)
    case _ => Broken
  }

  function FirstAcquire(ls: LockStat, sq: LockSeq, flag: nat, time: nat): Effect {
    if flag == 0 then Update(ls.(nrAcquire := ls.nrAcquire + 1), sq.(state := Acquiring, prevTime := time))
    else
      Update(ls.(nrTrylock := ls.nrTrylock + (if TryLock(flag) then 1 else 0),
                 nrReadlock := ls.nrReadlock + (if ReadLock(flag) then 1 else 0),
                 nrAcquired := ls.nrAcquired + 1, nrAcquire := ls.nrAcquire + 1),
             LockSeq(ReadAcquired, time, 1))
  }

  function Min(a: nat, b: nat): nat { if a < b then a else b }

  function Max(a: nat, b: nat): nat { if a < b then b else a }

  function Average(total: nat, n: nat): nat { if n == 0 then 0 else total / n }

  function OnAcquired(ls: LockStat, sq: LockSeq, time: nat): Effect {
    match sq.state
    case Uninitialized => Update(ls, sq)
    case Acquiring => GotIt(ls, sq, time)
    case Contended => GotIt(Waited(ls, (time - sq.prevTime) % TWO_64), sq, time)
    case _ => Broken
  }

  function Waited(ls: LockStat, term: nat): LockStat {
    ls.(waitTotal := ls.waitTotal + term, waitMin := Min(term, ls.waitMin), waitMax := Max(ls.waitMax, term))
  }

  function GotIt(ls: LockStat, sq: LockSeq, time: nat): Effect {
    Update(ls.(nrAcquired := ls.nrAcquired + 1, avgWait := Average(ls.waitTotal, ls.nrContended)),
           sq.(state := Acquired, prevTime := time))
  }

  function OnContended(ls: LockStat, sq: LockSeq, time: nat): Effect {
    match sq.state
    case Uninitialized => Update(ls, sq)
    case Acquiring =>
      Update(ls.(nrContended := ls.nrContended + 1, avgWait := Average(ls.waitTotal, ls.nrContended + 1)),
             sq.(state := Contended, prevTime := time))
    case _ => Broken
  }

  function OnRelease(ls: LockStat, sq: LockSeq): Effect {
    match sq.state
    case Uninitialized => Update(ls, sq)
    case Acquired => Free(ls.(nrRelease := ls.nrRelease + 1))
    case ReadAcquired =>
      if sq.readCount < 1 then Bug
      else if sq.readCount == 1 then Update(ls.(nrRelease := ls.nrRelease + 1), sq.(readCount := 0))
      else Free(ls.(nrRelease := ls.nrRelease + 1))
    case _ => Broken
  }

  function EffectOf(ls: LockStat, sq: LockSeq, e: Event): Effect {
    match e.kind
    case AcquireEvent(flag) => OnAcquire(ls, sq, flag, e.time)
    case AcquiredEvent => OnAcquired(ls, sq, e.time)
    case ContendedEvent => OnContended(ls, sq, e.time)
    case ReleaseEvent => OnRelease(ls, sq)
  }

  // --- All locks and threads ------------------------------------------------------------------

  datatype World = World(locks: map<nat, LockStat>, seqs: map<Key, LockSeq>, badHist: seq<nat>, bug: bool)

  ghost function LockOf(w: World, addr: nat): LockStat { if addr in w.locks then w.locks[addr] else NEW_LOCK }

  ghost function SeqOf(w: World, key: Key): LockSeq { if key in w.seqs then w.seqs[key] else NEW_SEQ }

  function Slot(k: Kind): nat {
    match k
    case AcquireEvent(_) => 0
    case AcquiredEvent => 1
    case ContendedEvent => 2
    case ReleaseEvent => 3
  }

  /** One event. A discarded lock is left alone; a broken sequence discards its lock; a
      failed assertion ends the run. */
  ghost function Next(w: World, e: Event): World
    requires |w.badHist| == 4
  {
    var ls, sq := LockOf(w, e.key.addr), SeqOf(w, e.key);
    if w.bug then w
    else if ls.discard then w.(locks := w.locks[e.key.addr := ls])
    else Apply(w, e.key, Slot(e.kind), EffectOf(ls, sq, e))
  }

  ghost function Apply(w: World, key: Key, slot: nat, f: Effect): World
    requires slot < |w.badHist|
  {
    match f
    case Update(ls', sq') => w.(locks := w.locks[key.addr := ls'], seqs := w.seqs[key := sq'])
    case Free(ls') => w.(locks := w.locks[key.addr := ls'], seqs := w.seqs - {key})
    case Broken =>
      w.(locks := w.locks[key.addr := LockOf(w, key.addr).(discard := true)], seqs := w.seqs - {key},
         badHist := w.badHist[slot := w.badHist[slot] + 1])
    case Bug =>
      w.(locks := w.locks[key.addr := LockOf(w, key.addr)], seqs := w.seqs[key := SeqOf(w, key)], bug := true)
  }

  // --- Whole runs -----------------------------------------------------------------------------------

  ghost function After(events: seq<Event>): (w: World)
    ensures |w.badHist| == 4
  {
    if events == [] then World(map[], map[], [0, 0, 0, 0], false)
    else Next(After(events[..|events| - 1]), events[|events| - 1])
  }

  lemma AfterMore(events: seq<Event>, e: Event)
    ensures After(events + [e]) == Next(After(events), e)
  {
    assert (events + [e])[..|events|] == events;
  }

  lemma FrozenStep(w: World, e: Event, a: nat)
    requires |w.badHist| == 4 && a in w.locks && w.locks[a].discard
    ensures a in Next(w, e).locks && Next(w, e).locks[a] == w.locks[a]
  {
  }

  /** The statistics of a discarded lock never change again. */
  lemma {:induction false} Frozen(events: seq<Event>, more: seq<Event>, a: nat)
    requires a in After(events).locks && After(events).locks[a].discard
    ensures a in After(events + more).locks && After(events + more).locks[a] == After(events).locks[a]
  {
    if more == [] {
      assert events + more == events;
    } else {
      var n := |more| - 1;
      var before := events + more[..n];
      Frozen(events, more[..n], a);
      AfterMore(before, more[n]);
      assert before + [more[n]] == events + more;
      FrozenStep(After(before), more[n], a);
    }
  }

  // --- What the events say -------------------------------------------------------------------------

  /** The events of one thread on one lock. */
  ghost function Mine(events: seq<Event>, key: Key): seq<Event> {
    if events == [] then []
    else
      var mine, e := Mine(events[..|events| - 1], key), events[|events| - 1];
      if e.key == key then mine + [e] else mine
  }

  /** The event number `i` from the end is of the given kind. */
  ghost predicate Asked(s: seq<Event>, i: nat) { i < |s| && s[|s| - 1 - i].kind == AcquireEvent(0) }
  ghost predicate Tried(s: seq<Event>, i: nat) {
    i < |s| && var k := s[|s| - 1 - i].kind; k.AcquireEvent? && k.flag != 0
  }
  ghost predicate Was(s: seq<Event>, i: nat, kind: Kind) { i < |s| && s[|s| - 1 - i].kind == kind }

  /** The thread waits: it asked for the lock, and found it contended. */
  ghost predicate Waits(s: seq<Event>) { Was(s, 0, ContendedEvent) && Asked(s, 1) }

  ghost predicate Holds(s: seq<Event>) {
    Was(s, 0, AcquiredEvent) && (Asked(s, 1) || (Was(s, 1, ContendedEvent) && Asked(s, 2)))
  }

  /** The thread has the lock for reading, or by trying, or has released it after doing so just once. */
  ghost predicate Reads(s: seq<Event>) { Tried(s, 0) || (Was(s, 0, ReleaseEvent) && Tried(s, 1) && !Tried(s, 2)) }

  ghost function StateOf(s: seq<Event>): SeqState {
    if Asked(s, 0) then Acquiring else if Waits(s) then Contended else if Holds(s) then Acquired
    else if Reads(s) then ReadAcquired else Uninitialized
  }

  ghost predicate SeqIs(sq: LockSeq, s: seq<Event>) {
    && sq.state == StateOf(s) && (Waits(s) ==> sq.prevTime == s[|s| - 1].time)
    && (Tried(s, 0) ==> if Tried(s, 1) then sq.readCount >= 2 else sq.readCount == 1)
    && (Reads(s) && !Tried(s, 0) ==> sq.readCount == 0)
  }

  /** An event of this kind does not fit after the thread's events `s`. */
  ghost predicate Breaks(s: seq<Event>, kind: Kind) {
    match kind
    case AcquireEvent(flag) => Asked(s, 0) || Waits(s) || Holds(s) || (Reads(s) && !ReadLock(flag))
    case AcquiredEvent => Holds(s) || Reads(s)
    case ContendedEvent => Waits(s) || Holds(s) || Reads(s)
    case ReleaseEvent => Asked(s, 0) || Waits(s)
  }

  /** A second release after one read acquisition. */
  ghost predicate Underflows(s: seq<Event>, kind: Kind) { kind == ReleaseEvent && Reads(s) && !Tried(s, 0) }

  /** The locks with an event that did not fit, and whether an assertion has ended the run. */
  datatype Fate = Fate(lost: set<nat>, over: bool)

  ghost function FateOf(events: seq<Event>): Fate {
    if events == [] then Fate({}, false)
    else
      var before, e := events[..|events| - 1], events[|events| - 1];
      FateNext(FateOf(before), Mine(before, e.key), e)
  }

  ghost function FateNext(f: Fate, mine: seq<Event>, e: Event): Fate {
    if f.over || e.key.addr in f.lost then f
    else if Breaks(mine, e.kind) then f.(lost := f.lost + {e.key.addr})
    else if Underflows(mine, e.kind) then f.(over := true)
    else f
  }

  /** The run goes on and all events of the lock have fitted. */
  ghost predicate Live(events: seq<Event>, a: nat) { !FateOf(events).over && a !in FateOf(events).lost }

  /** The wait that ends with the event: from the contended event before it, in unsigned arithmetic. */
  ghost predicate EndsWait(before: seq<Event>, e: Event) {
    e.kind == AcquiredEvent && Live(before, e.key.addr) && Waits(Mine(before, e.key))
  }

  ghost function Wait(before: seq<Event>, e: Event): nat
    requires Mine(before, e.key) != []
  {
    var mine := Mine(before, e.key);
    (e.time - mine[|mine| - 1].time) % TWO_64
  }

  /** A read acquisition by a thread that reads already. */
  ghost predicate Nests(before: seq<Event>, e: Event) {
    e.kind.AcquireEvent? && ReadLock(e.kind.flag) && Live(before, e.key.addr) && Reads(Mine(before, e.key))
  }

  /** All waits for a lock, in the order in which they end. */
  ghost function Gaps(events: seq<Event>, a: nat): seq<nat> {
    if events == [] then []
    else
      var before, e := events[..|events| - 1], events[|events| - 1];
      Gaps(before, a) + if e.key.addr == a && EndsWait(before, e) then [Wait(before, e)] else []
  }

  ghost function NestedReads(events: seq<Event>, a: nat): nat {
    if events == [] then 0
    else
      var before, e := events[..|events| - 1], events[|events| - 1];
      NestedReads(before, a) + One(e.key.addr == a && Nests(before, e))
  }

  ghost function One(b: bool): nat { if b then 1 else 0 }

  // --- The state follows from the events ------------------------------------------------------------

  lemma OneLater(s: seq<Event>, e: Event)
    ensures var t := s + [e];
      && Asked(t, 1) == Asked(s, 0) && Asked(t, 2) == Asked(s, 1) && Tried(t, 1) == Tried(s, 0)
      && Tried(t, 2) == Tried(s, 1)
      && Was(t, 1, ContendedEvent) == Was(s, 0, ContendedEvent) && t[|t| - 1] == e
  {
  }

  /** An event of the sequence's own. */
  lemma OwnEvent(ls: LockStat, sq: LockSeq, s: seq<Event>, e: Event)
    requires SeqIs(sq, s)
    ensures var f := EffectOf(ls, sq, e);
      && (f.Update? ==> SeqIs(f.sq, s + [e]))
      && (f.Free? ==> SeqIs(NEW_SEQ, s + [e]))
  {
    OneLater(s, e);
  }

  /** Which locks are discarded, whether the run is over, and every sequence of a live lock. */
  ghost predicate Tells(w: World, events: seq<Event>) {
    && |w.badHist| == 4 && w.bug == FateOf(events).over
    && (forall a :: LockOf(w, a).discard <==> a in FateOf(events).lost)
    && forall key: Key :: Live(events, key.addr) ==> SeqIs(SeqOf(w, key), Mine(events, key))
  }

  /** A sequence breaks, or an assertion fails, just when its events say so. */
  lemma EffectFate(ls: LockStat, sq: LockSeq, s: seq<Event>, e: Event)
    requires SeqIs(sq, s)
    ensures EffectOf(ls, sq, e).Broken? <==> Breaks(s, e.kind)
    ensures EffectOf(ls, sq, e).Bug? <==> Underflows(s, e.kind)
    ensures var f := EffectOf(ls, sq, e); f.Update? || f.Free? ==> f.ls.discard == ls.discard
  {
  }

  lemma OneEvent(events: seq<Event>, e: Event, key: Key)
    ensures FateOf(events + [e]) == FateNext(FateOf(events), Mine(events, e.key), e)
    ensures Mine(events + [e], key) == if e.key == key then Mine(events, key) + [e] else Mine(events, key)
  {
    assert (events + [e])[..|events|] == events;
  }

  lemma NextSeq(w: World, e: Event, key: Key)
    requires |w.badHist| == 4 && !w.bug && !LockOf(w, key.addr).discard
    ensures SeqOf(Next(w, e), key) ==
      if e.key != key then SeqOf(w, key)
      else
        match EffectOf(LockOf(w, key.addr), SeqOf(w, key), e)
        case Update(_, sq) => sq
        case Bug => SeqOf(w, key)
        case _ => NEW_SEQ
  {
  }

  lemma TellsSeq(w: World, events: seq<Event>, e: Event, key: Key)
    requires Tells(w, events) && Live(events + [e], key.addr)
    ensures SeqIs(SeqOf(Next(w, e), key), Mine(events + [e], key))
  {
    OneEvent(events, e, key);
    assert Live(events, key.addr);
    NextSeq(w, e, key);
    if e.key == key {
      EffectFate(LockOf(w, key.addr), SeqOf(w, key), Mine(events, key), e);
      OwnEvent(LockOf(w, key.addr), SeqOf(w, key), Mine(events, key), e);
    }
  }

  lemma TellsFate(w: World, events: seq<Event>, e: Event)
    requires Tells(w, events)
    ensures Next(w, e).bug == FateOf(events + [e]).over
    ensures forall a :: LockOf(Next(w, e), a).discard <==> a in FateOf(events + [e]).lost
  {
    OneEvent(events, e, e.key);
    if Live(events, e.key.addr) { EffectFate(LockOf(w, e.key.addr), SeqOf(w, e.key), Mine(events, e.key), e); }
  }

  lemma TellsNext(w: World, events: seq<Event>, e: Event)
    requires Tells(w, events)
    ensures Tells(Next(w, e), events + [e])
  {
    TellsFate(w, events, e);
    forall key: Key | Live(events + [e], key.addr)
      ensures SeqIs(SeqOf(Next(w, e), key), Mine(events + [e], key))
    {
      TellsSeq(w, events, e, key);
    }
  }

  lemma {:induction false} AfterTells(events: seq<Event>)
    ensures Tells(After(events), events)
  {
    if events != [] {
      var n := |events| - 1;
      AfterTells(events[..n]);
      TellsNext(After(events[..n]), events[..n], events[n]);
      assert events[..n] + [events[n]] == events;
    }
  }

  /** A lock is discarded exactly if one of its events did not fit, and the assertion fires exactly
      at a release too many. */
  lemma FateFromEvents(events: seq<Event>)
    ensures Discarded(After(events).locks) == FateOf(events).lost && After(events).bug == FateOf(events).over
  {
    AfterTells(events);
    forall a
      ensures a in Discarded(After(events).locks) <==> a in FateOf(events).lost
    {
      assert LockOf(After(events), a).discard <==> a in FateOf(events).lost;
    }
  }

  /** On a live lock, every sequence is in the state that its own last events say. */
  lemma SeqFromEvents(events: seq<Event>, key: Key)
    requires Live(events, key.addr)
    ensures SeqIs(SeqOf(After(events), key), Mine(events, key))
  {
    AfterTells(events);
  }

  // --- Histories -------------------------------------------------------------------------------

  /** The waits of a lock, from contended to acquired, and its nested reads. */
  datatype History = History(gaps: seq<nat>, nested: nat)

  ghost function HistoryOf(events: seq<Event>, a: nat): History { History(Gaps(events, a), NestedReads(events, a)) }

  /** What the transition itself measures. */
  ghost function HistoryStep(sq: LockSeq, hist: History, e: Event): History {
    if e.kind == AcquiredEvent && sq.state == Contended then
      hist.(gaps := hist.gaps + [(e.time - sq.prevTime) % TWO_64])
    else if e.kind.AcquireEvent? && sq.state == ReadAcquired && ReadLock(e.kind.flag) then
      hist.(nested := hist.nested + 1)
    else hist
  }

  lemma OneMoreEvent(events: seq<Event>, e: Event, a: nat)
    ensures Gaps(events + [e], a) ==
      Gaps(events, a) + if e.key.addr == a && EndsWait(events, e) then [Wait(events, e)] else []
    ensures NestedReads(events + [e], a) == NestedReads(events, a) + One(e.key.addr == a && Nests(events, e))
  {
    assert (events + [e])[..|events|] == events;
  }

  /** What a sequence in the right state measures. */
  lemma StepTells(sq: LockSeq, s: seq<Event>, hist: History, e: Event)
    requires SeqIs(sq, s)
    ensures HistoryStep(sq, hist, e) ==
      if e.kind == AcquiredEvent && Waits(s) then hist.(gaps := hist.gaps + [(e.time - s[|s| - 1].time) % TWO_64])
      else hist.(nested := hist.nested + One(e.kind.AcquireEvent? && ReadLock(e.kind.flag) && Reads(s)))
  {
  }

  /** What the transition measures is what the events tell. */
  lemma HistoryFromEvents(events: seq<Event>, e: Event, sq: LockSeq)
    requires SeqIs(sq, Mine(events, e.key)) && Live(events, e.key.addr)
    ensures HistoryStep(sq, HistoryOf(events, e.key.addr), e) == HistoryOf(events + [e], e.key.addr)
  {
    StepTells(sq, Mine(events, e.key), HistoryOf(events, e.key.addr), e);
    OneMoreEvent(events, e, e.key.addr);
  }

  lemma HistoryOther(events: seq<Event>, e: Event, a: nat)
    requires e.key.addr != a || !Live(events, a) || Breaks(Mine(events, e.key), e.kind)
      || Underflows(Mine(events, e.key), e.kind)
    ensures HistoryOf(events + [e], a) == HistoryOf(events, a)
  {
    OneMoreEvent(events, e, a);
  }

  ghost function Sum(s: seq<nat>): nat { if s == [] then 0 else Sum(s[..|s| - 1]) + s[|s| - 1] }

  ghost function Largest(s: seq<nat>): nat { if s == [] then 0 else Max(Largest(s[..|s| - 1]), s[|s| - 1]) }

  ghost function Smallest(s: seq<nat>): nat {
    if s == [] then ULLONG_MAX else Min(s[|s| - 1], Smallest(s[..|s| - 1]))
  }

  /** The waiting times are those of the history. */
  ghost predicate WaitsOk(ls: LockStat, hist: History) {
    && ls.waitTotal == Sum(hist.gaps) && ls.waitMax == Largest(hist.gaps) && ls.waitMin == Smallest(hist.gaps)
    && |hist.gaps| <= ls.nrContended
  }

  ghost predicate TimesOk(ls: LockStat, hist: History) {
    WaitsOk(ls, hist) && ls.avgWait == Average(ls.waitTotal, ls.nrContended)
  }

  lemma OneMore(n: nat, sum: nat, below: nat, last: nat, max: nat)
    requires sum <= n * below && below <= max && last <= max
    ensures sum + last <= (n + 1) * max
  {
    Monotone(n, below, max);
    assert (n + 1) * max == n * max + max;
  }

  lemma {:induction false} SumBound(s: seq<nat>)
    ensures Sum(s) <= |s| * Largest(s)
  {
    if s != [] {
      var n := |s| - 1;
      SumBound(s[..n]);
      OneMore(n, Sum(s[..n]), Largest(s[..n]), s[n], Largest(s));
    }
  }

  lemma Monotone(n: nat, a: nat, b: nat)
    requires a <= b
    ensures n * a <= n * b && a * n <= b * n
  {
  }

  lemma AtMost(total: nat, n: nat, max: nat)
    requires n > 0 && total <= n * max
    ensures total / n <= max
  {
    assert n * (max + 1) == n * max + n;
    if total / n > max { Monotone(n, max + 1, total / n); }
  }

  /** The average wait is never above the longest. */
  lemma AverageBelowMax(ls: LockStat, hist: History)
    requires TimesOk(ls, hist)
    ensures ls.avgWait <= ls.waitMax
  {
    if ls.nrContended > 0 {
      SumBound(hist.gaps);
      Monotone(ls.waitMax, |hist.gaps|, ls.nrContended);
      AtMost(ls.waitTotal, ls.nrContended, ls.waitMax);
    }
  }

  // --- Counting sequences ------------------------------------------------------------------------

  ghost function InState(seqs: map<Key, LockSeq>, addr: nat, st: SeqState): set<Key> {
    set k | k in seqs && k.addr == addr && seqs[k].state == st
  }

  ghost predicate Is(seqs: map<Key, LockSeq>, key: Key, addr: nat, st: SeqState) {
    key in seqs && key.addr == addr && seqs[key].state == st
  }

  lemma CountPut(seqs: map<Key, LockSeq>, key: Key, sq: LockSeq, addr: nat, st: SeqState)
    ensures |InState(seqs[key := sq], addr, st)| + One(Is(seqs, key, addr, st))
            == |InState(seqs, addr, st)| + One(key.addr == addr && sq.state == st)
  {
    CountDrop(seqs, key, addr, st);
    CountDrop(seqs[key := sq], key, addr, st);
    assert seqs[key := sq] - {key} == seqs - {key};
  }

  lemma CountDrop(seqs: map<Key, LockSeq>, key: Key, addr: nat, st: SeqState)
    ensures |InState(seqs - {key}, addr, st)| + One(Is(seqs, key, addr, st)) == |InState(seqs, addr, st)|
  {
    var all := InState(seqs, addr, st);
    assert InState(seqs - {key}, addr, st) == all - {key};
  }

  // --- What every run keeps ------------------------------------------------------------------------

  /** Every contention is over or under way; every acquisition is done or under way. */
  ghost predicate Balanced(ls: LockStat, hist: History, contended: nat, acquiring: nat) {
    && ls.nrContended == |hist.gaps| + contended
    && ls.nrAcquire + hist.nested == ls.nrAcquired + acquiring + contended
  }

  ghost function Discarded(locks: map<nat, LockStat>): set<nat> {
    set a | a in locks && locks[a].discard
  }

  ghost predicate LockOk(w: World, hist: History, a: nat) {
    && TimesOk(LockOf(w, a), hist)
    && (!LockOf(w, a).discard ==> Balanced(LockOf(w, a), hist, Contenders(w, a), Acquirers(w, a)))
  }

  ghost function Contenders(w: World, a: nat): nat { |InState(w.seqs, a, Contended)| }

  ghost function Acquirers(w: World, a: nat): nat { |InState(w.seqs, a, Acquiring)| }

  ghost predicate SeqOk(w: World, k: Key)
    requires k in w.seqs
  {
    k.addr in w.locks && w.seqs[k].state != Released
  }

  ghost predicate Inv(w: World, events: seq<Event>) {
    && Tells(w, events) && Sum(w.badHist) == |Discarded(w.locks)|
    && (forall k :: k in w.seqs ==> SeqOk(w, k))
    && forall a :: LockOk(w, HistoryOf(events, a), a)
  }

  lemma GapAdded(hist: History, gap: nat)
    ensures var gaps := hist.gaps + [gap];
      && Sum(gaps) == Sum(hist.gaps) + gap && Largest(gaps) == Max(Largest(hist.gaps), gap)
      && Smallest(gaps) == Min(gap, Smallest(hist.gaps))
  {
    assert (hist.gaps + [gap])[..|hist.gaps|] == hist.gaps;
  }

  /** `c` and `a` count the sequences of the lock that are contended and acquiring, before
      and after the effect `f` on the sequence `sq`. */
  ghost predicate Counted(sq: LockSeq, f: Effect, c: nat, a: nat, c': nat, a': nat) {
    && (f.Update? || f.Free?) && c >= One(sq.state == Contended)
    && c' + One(sq.state == Contended) == c + One(f.Update? && f.sq.state == Contended)
    && a' + One(sq.state == Acquiring) == a + One(f.Update? && f.sq.state == Acquiring)
  }

  ghost predicate Sums(ls: LockStat, hist: History, c: nat, a: nat) {
    TimesOk(ls, hist) && Balanced(ls, hist, c, a)
  }

  lemma AcquireKeeps(ls: LockStat, sq: LockSeq, hist: History, e: Event, c: nat, a: nat, c': nat, a': nat)
    requires Sums(ls, hist, c, a) && sq.state != Released && e.kind.AcquireEvent?
    requires Counted(sq, EffectOf(ls, sq, e), c, a, c', a')
    ensures Sums(EffectOf(ls, sq, e).ls, HistoryStep(sq, hist, e), c', a')
  {
  }

  lemma WaitedKeeps(ls: LockStat, hist: History, gap: nat)
    requires WaitsOk(ls, hist) && |hist.gaps| < ls.nrContended
    ensures WaitsOk(Waited(ls, gap), hist.(gaps := hist.gaps + [gap]))
  {
    GapAdded(hist, gap);
  }

  lemma GainKeeps(ls: LockStat, sq: LockSeq, hist: History, time: nat, c: nat, a: nat)
    requires WaitsOk(ls, hist) && Balanced(ls.(nrAcquired := ls.nrAcquired + 1), hist, c, a)
    ensures Sums(GotIt(ls, sq, time).ls, hist, c, a)
  {
  }

  lemma AcquiredKeeps(ls: LockStat, sq: LockSeq, hist: History, e: Event, c: nat, a: nat, c': nat, a': nat)
    requires Sums(ls, hist, c, a) && e.kind.AcquiredEvent?
    requires Counted(sq, EffectOf(ls, sq, e), c, a, c', a')
    ensures Sums(EffectOf(ls, sq, e).ls, HistoryStep(sq, hist, e), c', a')
  {
    if sq.state == Contended {
      var gap: nat := (e.time - sq.prevTime) % TWO_64;
      WaitedKeeps(ls, hist, gap);
      GainKeeps(Waited(ls, gap), sq, hist.(gaps := hist.gaps + [gap]), e.time, c', a');
    } else if sq.state == Acquiring {
      GainKeeps(ls, sq, hist, e.time, c', a');
    }
  }

  lemma ContendedKeeps(ls: LockStat, sq: LockSeq, hist: History, e: Event, c: nat, a: nat, c': nat, a': nat)
    requires Sums(ls, hist, c, a) && e.kind.ContendedEvent?
    requires Counted(sq, EffectOf(ls, sq, e), c, a, c', a')
    ensures Sums(EffectOf(ls, sq, e).ls, HistoryStep(sq, hist, e), c', a')
  {
  }

  lemma ReleaseKeeps(ls: LockStat, sq: LockSeq, hist: History, e: Event, c: nat, a: nat, c': nat, a': nat)
    requires Sums(ls, hist, c, a) && e.kind.ReleaseEvent?
    requires Counted(sq, EffectOf(ls, sq, e), c, a, c', a')
    ensures Sums(EffectOf(ls, sq, e).ls, HistoryStep(sq, hist, e), c', a')
  {
  }

  lemma EffectKeeps(ls: LockStat, sq: LockSeq, hist: History, e: Event, f: Effect, c: nat, a: nat, c': nat, a': nat)
    requires Sums(ls, hist, c, a) && sq.state != Released
    requires f == EffectOf(ls, sq, e) && Counted(sq, f, c, a, c', a')
    ensures Sums(f.ls, HistoryStep(sq, hist, e), c', a') && f.ls.discard == ls.discard
  {
    match e.kind {
      case AcquireEvent(_) => AcquireKeeps(ls, sq, hist, e, c, a, c', a');
      case AcquiredEvent => AcquiredKeeps(ls, sq, hist, e, c, a, c', a');
      case ContendedEvent => ContendedKeeps(ls, sq, hist, e, c, a, c', a');
      case ReleaseEvent => ReleaseKeeps(ls, sq, hist, e, c, a, c', a');
    }
  }

  // --- One event keeps the invariant ---------------------------------------------------------------

  lemma SeqOfOk(w: World, events: seq<Event>, key: Key)
    requires Inv(w, events)
    ensures SeqOf(w, key).state != Released && Contenders(w, key.addr) >= One(SeqOf(w, key).state == Contended)
  {
    if key in w.seqs {
      assert SeqOk(w, key);
      if SeqOf(w, key).state == Contended { assert key in InState(w.seqs, key.addr, Contended); }
    }
  }

  lemma EffectSeq(ls: LockStat, sq: LockSeq, e: Event)
    requires EffectOf(ls, sq, e).Update? && sq.state != Released
    ensures EffectOf(ls, sq, e).sq.state != Released
  {
  }

  lemma CountsMove(w: World, key: Key, slot: nat, f: Effect, b: nat)
    requires slot < |w.badHist| && (f.Update? || f.Free? || f.Broken?)
    ensures CountsMoved(w, Apply(w, key, slot, f), key, f, b)
  {
    if f.Update? {
      CountPut(w.seqs, key, f.sq, b, Contended);
      CountPut(w.seqs, key, f.sq, b, Acquiring);
    } else {
      CountDrop(w.seqs, key, b, Contended);
      CountDrop(w.seqs, key, b, Acquiring);
    }
  }

  ghost predicate CountsMoved(w: World, w': World, key: Key, f: Effect, b: nat) {
    && Contenders(w', b) + One(Is(w.seqs, key, b, Contended))
       == Contenders(w, b) + One(f.Update? && key.addr == b && f.sq.state == Contended)
    && Acquirers(w', b) + One(Is(w.seqs, key, b, Acquiring))
       == Acquirers(w, b) + One(f.Update? && key.addr == b && f.sq.state == Acquiring)
  }

  /** Other locks do not notice. */
  lemma ApplyOther(w: World, hist: History, key: Key, slot: nat, f: Effect, b: nat)
    requires slot < |w.badHist| && (f.Update? || f.Free? || f.Broken?) && b != key.addr && LockOk(w, hist, b)
    ensures LockOk(Apply(w, key, slot, f), hist, b)
  {
    CountsMove(w, key, slot, f, b);
  }

  lemma ApplySeqs(w: World, key: Key, slot: nat, f: Effect)
    requires slot < |w.badHist| && (f.Update? || f.Free? || f.Broken?) && forall k :: k in w.seqs ==> SeqOk(w, k)
    requires f.Update? ==> f.sq.state != Released
    ensures var w' := Apply(w, key, slot, f); forall k :: k in w'.seqs ==> SeqOk(w', k)
  {
    var w' := Apply(w, key, slot, f);
    forall k | k in w'.seqs
      ensures SeqOk(w', k)
    {
      if k in w.seqs { assert SeqOk(w, k); }
    }
  }

  lemma EffectSums(w: World, events: seq<Event>, e: Event, f: Effect)
    requires Inv(w, events) && Live(events, e.key.addr)
    requires f == EffectOf(LockOf(w, e.key.addr), SeqOf(w, e.key), e) && (f.Update? || f.Free?)
    ensures LockOk(Apply(w, e.key, Slot(e.kind), f), HistoryOf(events + [e], e.key.addr), e.key.addr)
  {
    var w', a, sq, hist := Apply(w, e.key, Slot(e.kind), f), e.key.addr, SeqOf(w, e.key), HistoryOf(events, e.key.addr);
    SeqOfOk(w, events, e.key);
    CountsMove(w, e.key, Slot(e.kind), f, a);
    assert LockOk(w, hist, a) && !LockOf(w, a).discard;
    EffectKeeps(LockOf(w, a), sq, hist, e, f, Contenders(w, a), Acquirers(w, a), Contenders(w', a), Acquirers(w', a));
    HistoryFromEvents(events, e, sq);
  }

  /** The effect of an event that fits on all locks. */
  lemma EffectLocks(w: World, events: seq<Event>, e: Event, f: Effect)
    requires Inv(w, events) && Live(events, e.key.addr)
    requires f == EffectOf(LockOf(w, e.key.addr), SeqOf(w, e.key), e) && (f.Update? || f.Free?)
    ensures forall b :: LockOk(Apply(w, e.key, Slot(e.kind), f), HistoryOf(events + [e], b), b)
  {
    forall b: nat
      ensures LockOk(Apply(w, e.key, Slot(e.kind), f), HistoryOf(events + [e], b), b)
    {
      if b == e.key.addr {
        EffectSums(w, events, e, f);
      } else {
        assert LockOk(w, HistoryOf(events, b), b);
        HistoryOther(events, e, b);
        ApplyOther(w, HistoryOf(events, b), e.key, Slot(e.kind), f, b);
      }
    }
  }

  lemma SameDiscarded(w: World, key: Key, slot: nat, f: Effect)
    requires slot < |w.badHist| && (f.Update? || f.Free?) && !f.ls.discard && !LockOf(w, key.addr).discard
    ensures Discarded(Apply(w, key, slot, f).locks) == Discarded(w.locks)
  {
  }

  lemma EffectInv(w: World, events: seq<Event>, e: Event, f: Effect)
    requires Inv(w, events) && Live(events, e.key.addr)
    requires f == EffectOf(LockOf(w, e.key.addr), SeqOf(w, e.key), e) && (f.Update? || f.Free?)
    ensures Inv(Next(w, e), events + [e])
  {
    assert !LockOf(w, e.key.addr).discard && Next(w, e) == Apply(w, e.key, Slot(e.kind), f);
    EffectFate(LockOf(w, e.key.addr), SeqOf(w, e.key), Mine(events, e.key), e);
    SeqOfOk(w, events, e.key);
    if f.Update? { EffectSeq(LockOf(w, e.key.addr), SeqOf(w, e.key), e); }
    EffectLocks(w, events, e, f);
    ApplySeqs(w, e.key, Slot(e.kind), f);
    SameDiscarded(w, e.key, Slot(e.kind), f);
    TellsNext(w, events, e);
  }

  lemma {:induction false} SumUpdate(s: seq<nat>, i: nat)
    requires i < |s|
    ensures Sum(s[i := s[i] + 1]) == Sum(s) + 1
  {
    var n, t := |s| - 1, s[i := s[i] + 1];
    if i == n {
      assert t[..n] == s[..n];
    } else {
      SumUpdate(s[..n], i);
      assert t[..n] == s[..n][i := s[i] + 1];
    }
  }

  lemma OneDiscarded(locks: map<nat, LockStat>, a: nat, ls: LockStat)
    requires (a in locks ==> !locks[a].discard) && ls.discard
    ensures |Discarded(locks[a := ls])| == |Discarded(locks)| + 1
  {
    assert a !in Discarded(locks) && Discarded(locks[a := ls]) == Discarded(locks) + {a};
  }

  lemma BrokenCount(w: World, key: Key, slot: nat)
    requires slot < |w.badHist| && !LockOf(w, key.addr).discard && Sum(w.badHist) == |Discarded(w.locks)|
    ensures var w' := Apply(w, key, slot, Broken); Sum(w'.badHist) == |Discarded(w'.locks)|
  {
    SumUpdate(w.badHist, slot);
    OneDiscarded(w.locks, key.addr, LockOf(w, key.addr).(discard := true));
  }

  lemma BrokenLocks(w: World, events: seq<Event>, e: Event)
    requires Inv(w, events) && Live(events, e.key.addr) && Breaks(Mine(events, e.key), e.kind)
    ensures forall b :: LockOk(Apply(w, e.key, Slot(e.kind), Broken), HistoryOf(events + [e], b), b)
  {
    forall b: nat
      ensures LockOk(Apply(w, e.key, Slot(e.kind), Broken), HistoryOf(events + [e], b), b)
    {
      assert LockOk(w, HistoryOf(events, b), b);
      HistoryOther(events, e, b);
      if b != e.key.addr { ApplyOther(w, HistoryOf(events, b), e.key, Slot(e.kind), Broken, b); }
    }
  }

  /** A broken sequence costs its lock one entry in `bad_hist`. */
  lemma BrokenInv(w: World, events: seq<Event>, e: Event)
    requires Inv(w, events) && Live(events, e.key.addr) && Breaks(Mine(events, e.key), e.kind)
    ensures Inv(Next(w, e), events + [e])
  {
    EffectFate(LockOf(w, e.key.addr), SeqOf(w, e.key), Mine(events, e.key), e);
    assert !LockOf(w, e.key.addr).discard && Next(w, e) == Apply(w, e.key, Slot(e.kind), Broken);
    BrokenLocks(w, events, e);
    ApplySeqs(w, e.key, Slot(e.kind), Broken);
    BrokenCount(w, e.key, Slot(e.kind));
    TellsNext(w, events, e);
  }

  /** Nothing happens after the end, to a discarded lock, or at a failed assertion, except that a
      lock or a sequence may be met for the first time. */
  lemma QuietSame(w: World, events: seq<Event>, e: Event)
    requires Inv(w, events) && (!Live(events, e.key.addr) || Underflows(Mine(events, e.key), e.kind))
    ensures var w' := Next(w, e);
      && w'.seqs == w.seqs && w'.badHist == w.badHist && Discarded(w'.locks) == Discarded(w.locks)
      && (forall a :: LockOf(w', a) == LockOf(w, a)) && w.locks.Keys <= w'.locks.Keys
  {
    if Live(events, e.key.addr) {
      EffectFate(LockOf(w, e.key.addr), SeqOf(w, e.key), Mine(events, e.key), e);
      assert e.key in w.seqs;
    }
  }

  lemma QuietInv(w: World, events: seq<Event>, e: Event)
    requires Inv(w, events) && (!Live(events, e.key.addr) || Underflows(Mine(events, e.key), e.kind))
    ensures Inv(Next(w, e), events + [e])
  {
    var w' := Next(w, e);
    QuietSame(w, events, e);
    forall b: nat
      ensures LockOk(w', HistoryOf(events + [e], b), b)
    {
      assert LockOk(w, HistoryOf(events, b), b);
      HistoryOther(events, e, b);
    }
    forall k | k in w'.seqs
      ensures SeqOk(w', k)
    {
      assert SeqOk(w, k);
    }
    TellsNext(w, events, e);
  }

  lemma NextInv(w: World, events: seq<Event>, e: Event)
    requires Inv(w, events)
    ensures Inv(Next(w, e), events + [e])
  {
    var f := EffectOf(LockOf(w, e.key.addr), SeqOf(w, e.key), e);
    if Live(events, e.key.addr) {
      EffectFate(LockOf(w, e.key.addr), SeqOf(w, e.key), Mine(events, e.key), e);
      if f.Broken? {
        BrokenInv(w, events, e);
      } else if f.Bug? {
        QuietInv(w, events, e);
      } else {
        EffectInv(w, events, e, f);
      }
    } else {
      QuietInv(w, events, e);
    }
  }

  lemma NothingYet()
    ensures Inv(World(map[], map[], [0, 0, 0, 0], false), [])
  {
    assert [0, 0, 0, 0][..3] == [0, 0, 0] && [0, 0, 0][..2] == [0, 0] && [0, 0][..1] == [0] && [0][..0] == [];
    assert Sum([0]) == 0 && Sum([0, 0]) == 0 && Sum([0, 0, 0]) == 0;
  }

  lemma {:induction false} RunInv(events: seq<Event>)
    ensures Inv(After(events), events)
  {
    if events == [] {
      NothingYet();
    } else {
      var n := |events| - 1;
      RunInv(events[..n]);
      NextInv(After(events[..n]), events[..n], events[n]);
      assert events[..n] + [events[n]] == events;
    }
  }

  ghost function Keys(events: seq<Event>): set<Key> { set e | e in events :: e.key }

  lemma {:induction false} MineIn(events: seq<Event>, key: Key)
    ensures forall e :: e in Mine(events, key) ==> e in events && e.key == key
  {
    if events != [] { MineIn(events[..|events| - 1], key); }
  }

  /** The threads that wait for a lock, and those that have asked for it and heard nothing. */
  ghost function Waiting(events: seq<Event>, a: nat): set<Key> {
    set k | k in Keys(events) && k.addr == a && Waits(Mine(events, k))
  }

  ghost function Asking(events: seq<Event>, a: nat): set<Key> {
    set k | k in Keys(events) && k.addr == a && Asked(Mine(events, k), 0)
  }

  lemma UnderWay(events: seq<Event>, a: nat)
    requires Live(events, a)
    ensures InState(After(events).seqs, a, Contended) == Waiting(events, a)
    ensures InState(After(events).seqs, a, Acquiring) == Asking(events, a)
  {
    var seqs := After(events).seqs;
    forall k: Key | k.addr == a
      ensures k in InState(seqs, a, Contended) <==> k in Waiting(events, a)
      ensures k in InState(seqs, a, Acquiring) <==> k in Asking(events, a)
    {
      SeqFromEvents(events, k);
      MineIn(events, k);
      var mine := Mine(events, k);
      if mine != [] { assert mine[|mine| - 1] in events; }
    }
  }

  // --- What the counters count ------------------------------------------------------------------------

  /** The flags of an acquire event, as bits. */
  lemma FlagBits(flag: nat)
    ensures TryLock(flag) <==> BitAnd(flag, 1) == 1
    ensures ReadLock(flag) <==> BitAnd(flag, 2) == 2
  {
    assert BitAnd(flag / 2, 0) == 0 && BitAnd(flag / 2 / 2, 0) == 0;
    assert BitAnd(flag / 2, 1) == flag / 2 % 2;
  }

  datatype Counter = Begun | Completed | Contentions | Releases | ReadLocks | TryLocks

  function CounterOf(ls: LockStat, c: Counter): nat {
    match c
    case Begun => ls.nrAcquire
    case Completed => ls.nrAcquired
    case Contentions => ls.nrContended
    case Releases => ls.nrRelease
    case ReadLocks => ls.nrReadlock
    case TryLocks => ls.nrTrylock
  }

  /** The event begins a new acquisition, one that is not a read inside another. */
  ghost predicate AsksFirst(mine: seq<Event>, kind: Kind) {
    kind.AcquireEvent? && !Breaks(mine, kind) && !Reads(mine)
  }

  /** What an event counts as, after the events `mine` of its thread on its lock. */
  ghost predicate CountsAs(mine: seq<Event>, kind: Kind, c: Counter) {
    match c
    case Begun => AsksFirst(mine, kind)
    case Completed =>
      || (kind.AcquireEvent? && !Breaks(mine, kind) && kind != AcquireEvent(0))
      || (kind == AcquiredEvent && (Asked(mine, 0) || Waits(mine)))
    case Contentions => kind == ContendedEvent && Asked(mine, 0)
    case Releases => kind == ReleaseEvent && (Holds(mine) || Tried(mine, 0))
    case ReadLocks => AsksFirst(mine, kind) && BitAnd(kind.flag, 2) == 2
    case TryLocks => AsksFirst(mine, kind) && BitAnd(kind.flag, 1) == 1
  }

  ghost function HowMany(events: seq<Event>, a: nat, c: Counter): nat {
    if events == [] then 0
    else
      var before, e := events[..|events| - 1], events[|events| - 1];
      HowMany(before, a, c) + One(e.key.addr == a && Live(before, a) && CountsAs(Mine(before, e.key), e.kind, c))
  }

  lemma EffectCounts(ls: LockStat, sq: LockSeq, s: seq<Event>, e: Event, c: Counter)
    requires SeqIs(sq, s) && (EffectOf(ls, sq, e).Update? || EffectOf(ls, sq, e).Free?)
    ensures CounterOf(EffectOf(ls, sq, e).ls, c) == CounterOf(ls, c) + One(CountsAs(s, e.kind, c))
  {
    EffectFate(ls, sq, s, e);
    if e.kind.AcquireEvent? { FlagBits(e.kind.flag); }
  }

  lemma NextCounts(w: World, events: seq<Event>, e: Event, a: nat, c: Counter)
    requires Tells(w, events)
    ensures CounterOf(LockOf(Next(w, e), a), c)
         == CounterOf(LockOf(w, a), c)
            + One(e.key.addr == a && Live(events, a) && CountsAs(Mine(events, e.key), e.kind, c))
  {
    if e.key.addr == a && Live(events, a) {
      var s := Mine(events, e.key);
      EffectFate(LockOf(w, a), SeqOf(w, e.key), s, e);
      if !Breaks(s, e.kind) && !Underflows(s, e.kind) { EffectCounts(LockOf(w, a), SeqOf(w, e.key), s, e, c); }
    }
  }

  /** Every counter of every lock is the number of events that count as such. */
  lemma {:induction false} CountersFromEvents(events: seq<Event>, a: nat, c: Counter)
    ensures CounterOf(LockOf(After(events), a), c) == HowMany(events, a, c)
  {
    if events != [] {
      var n := |events| - 1;
      CountersFromEvents(events[..n], a, c);
      AfterTells(events[..n]);
      NextCounts(After(events[..n]), events[..n], events[n], a, c);
    }
  }

  ghost predicate SameKind(j: Kind, k: Kind) { j == k || (j.AcquireEvent? && k.AcquireEvent?) }

  /** The events of a kind that did not fit. */
  ghost function Misfits(events: seq<Event>, kind: Kind): nat {
    if events == [] then 0
    else
      var before, e := events[..|events| - 1], events[|events| - 1];
      Misfits(before, kind)
      + One(SameKind(e.kind, kind) && Live(before, e.key.addr) && Breaks(Mine(before, e.key), e.kind))
  }

  ghost function MisfitsByKind(events: seq<Event>): seq<nat> {
    [Misfits(events, AcquireEvent(0)), Misfits(events, AcquiredEvent), Misfits(events, ContendedEvent),
     Misfits(events, ReleaseEvent)]
  }

  lemma NextMisfits(w: World, events: seq<Event>, e: Event)
    requires Tells(w, events) && w.badHist == MisfitsByKind(events)
    ensures Next(w, e).badHist == MisfitsByKind(events + [e])
  {
    assert (events + [e])[..|events|] == events;
    var broken := Live(events, e.key.addr) && Breaks(Mine(events, e.key), e.kind);
    assert broken <==> Next(w, e).badHist != w.badHist by {
      if Live(events, e.key.addr) { EffectFate(LockOf(w, e.key.addr), SeqOf(w, e.key), Mine(events, e.key), e); }
    }
    assert broken ==> Next(w, e).badHist == w.badHist[Slot(e.kind) := w.badHist[Slot(e.kind)] + 1];
  }

  /** `bad_hist` counts the broken sequences by the kind of the event that broke them. */
  lemma {:induction false} BadHistFromEvents(events: seq<Event>)
    ensures After(events).badHist == MisfitsByKind(events)
  {
    if events != [] {
      var n := |events| - 1;
      BadHistFromEvents(events[..n]);
      AfterTells(events[..n]);
      NextMisfits(After(events[..n]), events[..n], events[n]);
      assert events[..n] + [events[n]] == events;
    }
  }

  // --- The report -------------------------------------------------------------------------------------

  /** `max` is the largest element, zero if there is none. */
  ghost predicate IsLargest(s: seq<nat>, max: nat) {
    (forall k :: 0 <= k < |s| ==> s[k] <= max) && (max == 0 || max in s)
  }

  /** `min` is the smallest element, all ones if there is none. */
  ghost predicate IsSmallest(s: seq<nat>, min: nat) {
    (forall k :: 0 <= k < |s| ==> min <= s[k]) && (if s == [] then min == ULLONG_MAX else min in s)
  }

  /** `avg` is the quotient rounded down, zero if there is nothing to divide by. */
  ghost predicate IsAverage(avg: nat, total: nat, n: nat) {
    if n == 0 then avg == 0 else avg * n <= total < (avg + 1) * n
  }

  lemma {:induction false} LargestIs(s: seq<nat>)
    ensures IsLargest(s, Largest(s))
  {
    if s != [] { LargestIs(s[..|s| - 1]); }
  }

  lemma {:induction false} SmallestIs(s: seq<nat>)
    requires forall k :: 0 <= k < |s| ==> s[k] <= ULLONG_MAX
    ensures IsSmallest(s, Smallest(s)) && Smallest(s) <= ULLONG_MAX
  {
    if s != [] { SmallestIs(s[..|s| - 1]); }
  }

  lemma {:induction false} GapsAreWords(events: seq<Event>, a: nat)
    ensures forall k :: 0 <= k < |Gaps(events, a)| ==> Gaps(events, a)[k] <= ULLONG_MAX
  {
    if events != [] { GapsAreWords(events[..|events| - 1], a); }
  }

  lemma AverageIs(total: nat, n: nat)
    ensures IsAverage(Average(total, n), total, n)
  {
  }

  ghost predicate WaitsReported(ls: LockStat, gaps: seq<nat>) {
    && ls.waitTotal == Sum(gaps) && IsLargest(gaps, ls.waitMax) && IsSmallest(gaps, ls.waitMin)
    && IsAverage(ls.avgWait, ls.waitTotal, ls.nrContended) && ls.avgWait <= ls.waitMax
  }

  lemma WaitsFromEvents(events: seq<Event>, a: nat)
    ensures WaitsReported(LockOf(After(events), a), Gaps(events, a))
  {
    var ls, gaps := LockOf(After(events), a), Gaps(events, a);
    RunInv(events);
    assert LockOk(After(events), HistoryOf(events, a), a);
    AverageBelowMax(ls, HistoryOf(events, a));
    LargestIs(gaps);
    GapsAreWords(events, a);
    SmallestIs(gaps);
    AverageIs(ls.waitTotal, ls.nrContended);
  }

  /** After every run: the broken sequences account for the discarded locks, the waiting times of
      every lock for its waits, every counter for its events, and the counters of every live lock
      for what its threads are about. */
  lemma Accounting(events: seq<Event>, a: nat)
    ensures After(events).badHist == MisfitsByKind(events) && Sum(After(events).badHist) == |FateOf(events).lost|
    ensures a in After(events).locks ==>
      && var ls := After(events).locks[a];
      && WaitsReported(ls, Gaps(events, a)) && (forall c :: CounterOf(ls, c) == HowMany(events, a, c))
      && (Live(events, a) ==>
            && ls.nrContended == |Gaps(events, a)| + |Waiting(events, a)|
            && ls.nrAcquire + NestedReads(events, a) == ls.nrAcquired + |Asking(events, a)| + |Waiting(events, a)|)
  {
    RunInv(events);
    FateFromEvents(events);
    BadHistFromEvents(events);
    WaitsFromEvents(events, a);
    assert LockOk(After(events), HistoryOf(events, a), a);
    forall c
      ensures CounterOf(LockOf(After(events), a), c) == HowMany(events, a, c)
    {
      CountersFromEvents(events, a, c);
    }
    if Live(events, a) { UnderWay(events, a); }
  }

  ghost predicate TimeOrdered(events: seq<Event>) {
    && (forall i :: 0 <= i < |events| ==> events[i].time < TWO_64)
    && forall i, j :: 0 <= i < j < |events| ==> events[i].time <= events[j].time
  }

  /** In a recording in time order, a wait is the plain difference of the two times. */
  lemma PlainWait(before: seq<Event>, e: Event)
    requires TimeOrdered(before + [e]) && EndsWait(before, e)
    ensures var mine := Mine(before, e.key); Wait(before, e) == e.time - mine[|mine| - 1].time
  {
    MineIn(before, e.key);
    var mine := Mine(before, e.key);
    var i :| 0 <= i < |before| && before[i] == mine[|mine| - 1];
    assert (before + [e])[i] == before[i] && (before + [e])[|before|] == e;
  }

  // --- The handlers -----------------------------------------------------------------------------------

  /** A first acquire event. */
  method Ask(ls: LockStat, sq: LockSeq, flag: nat, time: nat) returns (ls': LockStat, sq': LockSeq)
    ensures FirstAcquire(ls, sq, flag, time) == Update(ls', sq')
  {
    ls', sq' := ls, sq;
    if flag == 0 {
      sq' := sq'.(state := Acquiring);
    } else {
      if TryLock(flag) { ls' := ls'.(nrTrylock := ls'.nrTrylock + 1); }
      if ReadLock(flag) { ls' := ls'.(nrReadlock := ls'.nrReadlock + 1); }
      sq' := sq'.(state := ReadAcquired, readCount := 1);
      ls' := ls'.(nrAcquired := ls'.nrAcquired + 1);
    }
    ls', sq' := ls'.(nrAcquire := ls'.nrAcquire + 1), sq'.(prevTime := time);
  }

  /** A wait of the length `term` is over. */
  method EndWait(ls: LockStat, term: nat) returns (ls': LockStat)
    ensures ls' == Waited(ls, term)
  {
    ls' := ls.(waitTotal := ls.waitTotal + term);
    if term < ls'.waitMin { ls' := ls'.(waitMin := term); }
    if ls'.waitMax < term { ls' := ls'.(waitMax := term); }
  }

  method Gain(ls: LockStat, sq: LockSeq, time: nat) returns (ls': LockStat, sq': LockSeq)
    ensures GotIt(ls, sq, time) == Update(ls', sq')
  {
    sq' := sq.(state := Acquired, prevTime := time);
    ls' := ls.(nrAcquired := ls.nrAcquired + 1);
    ls' := ls'.(avgWait := if ls'.nrContended != 0 then ls'.waitTotal / ls'.nrContended else 0);
  }

  class Report {
    var locks: map<nat, LockStat>
    var seqs: map<Key, LockSeq>
    var badHist: seq<nat>
    /** A `BUG_ON` has fired. */
    var bug: bool

    ghost predicate Valid()
      reads this
    {
      |badHist| == 4
    }

    ghost function View(): World
      reads this
    {
      World(locks, seqs, badHist, bug)
    }

    constructor ()
      ensures Valid() && View() == After([])
    {
      locks, seqs, badHist, bug := map[], map[], [0, 0, 0, 0], false;
    }

    /** The lock and the sequence have been looked up since the state `w`. */
    ghost predicate Opened(w: World, key: Key)
      reads this
    {
      && locks == w.locks[key.addr := LockOf(w, key.addr)] && seqs == w.seqs[key := SeqOf(w, key)]
      && badHist == w.badHist && |badHist| == 4 && bug == w.bug
    }

    /** `lock_stat_findnew` */
    method FindLock(addr: nat) returns (ls: LockStat)
      modifies `locks
      ensures ls == old(LockOf(View(), addr)) && locks == old(locks)[addr := ls]
    {
      if addr !in locks { locks := locks[addr := NEW_LOCK]; }
      ls := locks[addr];
      assert locks == old(locks)[addr := ls];
    }

    /** `get_seq` */
    method GetSeq(key: Key) returns (sq: LockSeq)
      modifies `seqs
      ensures sq == old(SeqOf(View(), key)) && seqs == old(seqs)[key := sq]
    {
      if key !in seqs { seqs := seqs[key := NEW_SEQ]; }
      sq := seqs[key];
      assert seqs == old(seqs)[key := sq];
    }

    method Store(key: Key, ls: LockStat, sq: LockSeq, ghost w: World)
      requires Opened(w, key)
      modifies `locks, `seqs
      ensures View() == Apply(w, key, 0, Update(ls, sq))
    {
      locks, seqs := locks[key.addr := ls], seqs[key := sq];
      assert locks == w.locks[key.addr := ls] && seqs == w.seqs[key := sq];
    }

    method FreeSeq(key: Key, ls: LockStat, ghost w: World)
      requires Opened(w, key)
      modifies `locks, `seqs
      ensures View() == Apply(w, key, 0, Free(ls))
    {
      locks, seqs := locks[key.addr := ls], seqs - {key};
      assert locks == w.locks[key.addr := ls] && seqs == w.seqs - {key};
    }

    /** A broken lock sequence: its lock is discarded. */
    method DiscardLock(key: Key, ls: LockStat, slot: nat, ghost w: World)
      requires Opened(w, key) && slot < 4 && ls == LockOf(w, key.addr)
      modifies `locks, `seqs, `badHist
      ensures View() == Apply(w, key, slot, Broken)
    {
      locks := locks[key.addr := ls.(discard := true)];
      badHist := badHist[slot := badHist[slot] + 1];
      seqs := seqs - {key};
      assert locks == w.locks[key.addr := ls.(discard := true)] && seqs == w.seqs - {key};
    }

    /** `report_lock_acquire_event` */
    method AcquireHandler(key: Key, flag: nat, time: nat)
      requires Valid() && !bug
      modifies this
      ensures Valid() && View() == old(Next(View(), Event(AcquireEvent(flag), key, time)))
    {
      ghost var w := View();
      var ls := FindLock(key.addr);
      if ls.discard { return; }
      var sq := GetSeq(key);
      match sq.state {
        case ReadAcquired =>
          if ReadLock(flag) {
            Store(key, ls.(nrAcquired := ls.nrAcquired + 1), sq.(readCount := sq.readCount + 1), w);
          } else {
            DiscardLock(key, ls, 0, w);
          }
          return;
        case Acquired => DiscardLock(key, ls, 0, w); return;
        case Acquiring => DiscardLock(key, ls, 0, w); return;
        case Contended => DiscardLock(key, ls, 0, w); return;
        case _ =>
      }
      ls, sq := Ask(ls, sq, flag, time);
      Store(key, ls, sq, w);
    }

    /** `report_lock_acquired_event` */
    method AcquiredHandler(key: Key, time: nat)
      requires Valid() && !bug
      modifies this
      ensures Valid() && View() == old(Next(View(), Event(AcquiredEvent, key, time)))
    {
      ghost var w := View();
      var ls := FindLock(key.addr);
      if ls.discard { return; }
      var sq := GetSeq(key);
      match sq.state {
        case Uninitialized => return;
        case Acquiring =>
        case Contended => ls := EndWait(ls, (time - sq.prevTime) % TWO_64);
        case _ => DiscardLock(key, ls, 1, w); return;
      }
      ls, sq := Gain(ls, sq, time);
      Store(key, ls, sq, w);
    }

    /** `report_lock_contended_event` */
    method ContendedHandler(key: Key, time: nat)
      requires Valid() && !bug
      modifies this
      ensures Valid() && View() == old(Next(View(), Event(ContendedEvent, key, time)))
    {
      ghost var w := View();
      var ls := FindLock(key.addr);
      if ls.discard { return; }
      var sq := GetSeq(key);
      match sq.state {
        case Uninitialized => return;
        case Acquiring =>
        case _ => DiscardLock(key, ls, 2, w); return;
      }
      ls := ls.(nrContended := ls.nrContended + 1);
      ls := ls.(avgWait := ls.waitTotal / ls.nrContended);
      Store(key, ls, sq.(state := Contended, prevTime := time), w);
    }

    /** `report_lock_release_event` */
    method ReleaseHandler(key: Key, time: nat)
      requires Valid() && !bug
      modifies this
      ensures Valid() && View() == old(Next(View(), Event(ReleaseEvent, key, time)))
    {
      ghost var w := View();
      var ls := FindLock(key.addr);
      if ls.discard { return; }
      var sq := GetSeq(key);
      match sq.state {
        case Uninitialized => return;
        case Acquired =>
        case ReadAcquired =>
          sq := sq.(readCount := sq.readCount - 1);
          if sq.readCount < 0 {
            bug := true;
            return;
          }
          if sq.readCount == 0 {
            Store(key, ls.(nrRelease := ls.nrRelease + 1), sq, w);
            return;
          }
        case _ => DiscardLock(key, ls, 3, w); return;
      }
      FreeSeq(key, ls.(nrRelease := ls.nrRelease + 1), w);
    }

    /** A whole recording from the start. */
    method Process(events: seq<Event>)
      requires Valid() && View() == After([])
      modifies this
      ensures Valid() && View() == After(events)
    {
      for n := 0 to |events|
        invariant Valid() && View() == After(events[..n])
      {
        AfterMore(events[..n], events[n]);
        assert events[..n] + [events[n]] == events[..n + 1];
        if bug { continue; }
        var e := events[n];
        match e.kind {
          case AcquireEvent(flag) => AcquireHandler(e.key, flag, e.time);
          case AcquiredEvent => AcquiredHandler(e.key, e.time);
          case ContendedEvent => ContendedHandler(e.key, e.time);
          case ReleaseEvent => ReleaseHandler(e.key, e.time);
        }
      }
      assert events[..|events|] == events;
    }
  }
}
