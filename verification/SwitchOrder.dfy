/** When the clock goes back on a CPU, for the reports that keep the time of each CPU's last switch. */
module SwitchOrder {
  import opened Machine

  /** What an event says of the clocks: the time at which a CPU switches, or nothing. */
  datatype Tick = Tick(cpu: nat, time: nat) | NoTick

  ghost predicate TicksOn(t: Tick, cpu: nat) { t.Tick? && t.cpu == cpu }

  /** All times are 64-bit words. */
  ghost predicate Words(ticks: seq<Tick>) {
    forall k :: 0 <= k < |ticks| && ticks[k].Tick? ==> ticks[k].time < TWO_64
  }

  /** `i` and `j` are successive switches of one CPU. */
  ghost predicate Succeeds(ticks: seq<Tick>, i: int, j: int) {
    && 0 <= i < j < |ticks| && ticks[i].Tick? && TicksOn(ticks[j], ticks[i].cpu)
    && forall k :: i < k < j ==> !TicksOn(ticks[k], ticks[i].cpu)
  }

  /** The clock, a word of which distances are read as signed, goes back from `last` to `time`. */
  ghost predicate Back(last: nat, time: nat) { time < last <= time + TWO_63 || last + TWO_63 <= time }

  /** No switch has a time before that of the last one on its CPU; zero is no time. */
  ghost predicate InOrder(ticks: seq<Tick>) {
    forall i, j :: Succeeds(ticks, i, j) && ticks[i].time != 0 ==> !Back(ticks[i].time, ticks[j].time)
  }

  /** The time of the last switch on a CPU, zero if there was none. */
  ghost function SwitchedAt(ticks: seq<Tick>, cpu: nat): nat {
    if ticks == [] then 0
    else if TicksOn(ticks[|ticks| - 1], cpu) then ticks[|ticks| - 1].time
    else SwitchedAt(ticks[..|ticks| - 1], cpu)
  }

  lemma {:induction false} LastSwitch(ticks: seq<Tick>, cpu: nat) returns (i: int)
    ensures -1 <= i < |ticks| && (forall k :: i < k < |ticks| ==> !TicksOn(ticks[k], cpu))
    ensures if i < 0 then SwitchedAt(ticks, cpu) == 0
            else TicksOn(ticks[i], cpu) && SwitchedAt(ticks, cpu) == ticks[i].time
  {
    i := |ticks| - 1;
    if i >= 0 && !TicksOn(ticks[i], cpu) {
      i := LastSwitch(ticks[..i], cpu);
      forall k | i < k < |ticks|
        ensures !TicksOn(ticks[k], cpu)
      {
        if k < |ticks| - 1 { assert ticks[..|ticks| - 1][k] == ticks[k]; }
      }
    }
  }

  lemma SwitchedWord(ticks: seq<Tick>, cpu: nat)
    requires Words(ticks)
    ensures SwitchedAt(ticks, cpu) < TWO_64
  {
    var i := LastSwitch(ticks, cpu);
  }

  lemma SwitchedNext(ticks: seq<Tick>, t: Tick, cpu: nat)
    ensures SwitchedAt(ticks + [t], cpu) == if TicksOn(t, cpu) then t.time else SwitchedAt(ticks, cpu)
  {
    assert (ticks + [t])[..|ticks|] == ticks;
  }

  /** The tick, which comes after `ticks`, does not go back. */
  ghost predicate Follows(ticks: seq<Tick>, t: Tick) {
    t.Tick? && SwitchedAt(ticks, t.cpu) != 0 ==> !Back(SwitchedAt(ticks, t.cpu), t.time)
  }

  lemma SucceedsLast(ticks: seq<Tick>, t: Tick, i: int, at: int)
    requires t.Tick? && -1 <= at < |ticks| && (at >= 0 ==> TicksOn(ticks[at], t.cpu))
    requires forall k :: at < k < |ticks| ==> !TicksOn(ticks[k], t.cpu)
    ensures Succeeds(ticks + [t], i, |ticks|) <==> 0 <= i == at
  {
    var all := ticks + [t];
    assert forall k :: 0 <= k < |ticks| ==> all[k] == ticks[k];
    assert all[|ticks|] == t;
  }

  lemma SucceedsEarlier(ticks: seq<Tick>, t: Tick, i: int, j: int)
    requires j < |ticks|
    ensures Succeeds(ticks + [t], i, j) <==> Succeeds(ticks, i, j)
  {
    assert forall k :: 0 <= k < |ticks| ==> (ticks + [t])[k] == ticks[k];
  }

  lemma OrderNext(ticks: seq<Tick>, t: Tick)
    ensures InOrder(ticks + [t]) <==> InOrder(ticks) && Follows(ticks, t)
  {
    var all, n := ticks + [t], |ticks|;
    assert all[n] == t && forall k :: 0 <= k < n ==> all[k] == ticks[k];
    var at := -1;
    if t.Tick? { at := LastSwitch(ticks, t.cpu); }
    if InOrder(all) {
      forall i, j | Succeeds(ticks, i, j) && ticks[i].time != 0
        ensures !Back(ticks[i].time, ticks[j].time)
      {
        SucceedsEarlier(ticks, t, i, j);
      }
      if t.Tick? && at >= 0 { SucceedsLast(ticks, t, at, at); }
    }
    if InOrder(ticks) && Follows(ticks, t) {
      forall i, j | Succeeds(all, i, j) && all[i].time != 0
        ensures !Back(all[i].time, all[j].time)
      {
        if j < n { SucceedsEarlier(ticks, t, i, j); } else { SucceedsLast(ticks, t, i, at); }
      }
    }
  }

  /** Times that never decrease and are below 2^63 do not go back. */
  lemma SortedInOrder(ticks: seq<Tick>)
    requires forall i, j :: 0 <= i < j < |ticks| && ticks[i].Tick? && ticks[j].Tick? ==>
      ticks[i].time <= ticks[j].time < TWO_63
    ensures InOrder(ticks)
  {
  }

  /** The distance between two times, one round of the clock at most. */
  ghost function Distance(last: nat, time: nat): nat
    requires last < TWO_64
  {
    if time >= last then time - last else TWO_64 - last + time
  }

  lemma DistanceIsMod(last: nat, time: nat)
    requires last < TWO_64 && time < TWO_64
    ensures (time - last) % TWO_64 == Distance(last, time)
    ensures (time - last) % TWO_64 >= TWO_63 <==> Back(last, time)
  {
    if time < last { assert (time - last) % TWO_64 == time - last + TWO_64; }
  }

  /** Tick `n` is the first that goes back. */
  ghost predicate Fails(ticks: seq<Tick>, n: int) {
    0 <= n < |ticks| && InOrder(ticks[..n]) && !InOrder(ticks[..n + 1])
  }

  lemma {:induction false} FirstFailure(ticks: seq<Tick>) returns (n: nat)
    requires !InOrder(ticks)
    ensures Fails(ticks, n)
  {
    n := |ticks| - 1;
    assert ticks[..n + 1] == ticks;
    if !InOrder(ticks[..n]) {
      var before := ticks[..n];
      n := FirstFailure(before);
      assert ticks[..n] == before[..n] && ticks[..n + 1] == before[..n + 1];
    }
  }
}
