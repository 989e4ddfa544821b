/**
 The PM timer's maximum that several threads share (src/acpi.js): a cell that every reader raises
 with compare-and-swap.
 */
module PmTimer {
  import opened Numbers

  // ---- Any number of threads ----

  /** An operation of a maximum that is raised at once: what was given and what was returned. */
  datatype Op = Op(ticks: int, result: int)

  /**
   A call of pm_timer_shared_max. `since` is the number of operations that had taken effect when it
   began and `after` the number of calls that had returned; operation `at` is the call's own.
   */
  datatype Call =
    | Trying(ticks: int, seen: int, since: nat, after: nat)
    | Ready(ticks: int, result: int, since: nat, after: nat, at: nat)

  /** The cell, the calls in progress, the operations in the order they took effect, and the calls that returned. */
  datatype System = System(last: int, calls: map<nat, Call>, log: seq<Op>, returned: seq<Call>)

  /** What a thread does next: begin a call, one compare-and-swap of its loop, or return. */
  datatype Action = Start(thread: nat, ticks: int) | Try(thread: nat) | Return(thread: nat)

  predicate Enabled(s: System, a: Action) {
    match a
    case Start(t, _) => t !in s.calls
    case Try(t) => t in s.calls && s.calls[t].Trying?
    case Return(t) => t in s.calls && s.calls[t].Ready?
  }

  /** The thread saw `seen` in the cell: it goes on if its value is larger. */
  function Look(s: System, t: nat, ticks: int, seen: int, since: nat, after: nat): System {
    if ticks > seen then s.(calls := s.calls[t := Trying(ticks, seen, since, after)])
    else s.(calls := s.calls[t := Ready(ticks, seen, since, after, |s.log|)], log := s.log + [Op(ticks, seen)])
  }

  function Step(s: System, a: Action): System
    requires Enabled(s, a)
  {
    match a
    case Start(t, ticks) => Look(s, t, ticks, s.last, |s.log|, |s.returned|)
    case Try(t) =>
      var c := s.calls[t];
      if s.last == c.seen then
        s.(last := c.ticks, calls := s.calls[t := Ready(c.ticks, c.ticks, c.since, c.after, |s.log|)],
           log := s.log + [Op(c.ticks, c.ticks)])
      else Look(s, t, c.ticks, s.last, c.since, c.after)
    case Return(t) => s.(calls := s.calls - {t}, returned := s.returned + [s.calls[t]])
  }

  /** The value of the maximum after operations one at a time. */
  function Replay(first: int, log: seq<Op>): int {
    if log == [] then first else Max(Replay(first, log[..|log| - 1]), log[|log| - 1].ticks)
  }

  /** The operation returned what the maximum was raised to. */
  predicate OpOk(first: int, log: seq<Op>, i: nat)
    requires i < |log|
  {
    log[i].result == Replay(first, log[..i + 1])
  }

  /** A call whose operation took effect, within the call. */
  predicate Took(c: Call, log: seq<Op>) {
    c.Ready? && c.since <= c.at < |log| && log[c.at] == Op(c.ticks, c.result)
  }

  predicate CallOk(s: System, c: Call) {
    && c.since <= |s.log| && c.after <= |s.returned|
    && if c.Trying? then c.seen < c.ticks && c.seen <= s.last else Took(c, s.log)
  }

  /** Calls that had returned when c began took effect before c began. */
  predicate OrderOk(s: System, c: Call) {
    c.after <= |s.returned| && forall h :: 0 <= h < c.after ==> s.returned[h].Ready? && s.returned[h].at < c.since
  }

  /** Operations and calls agree. */
  ghost predicate Consistent(first: int, s: System) {
    && s.last == Replay(first, s.log)
    && (forall i :: 0 <= i < |s.log| ==> OpOk(first, s.log, i))
    && (forall t :: t in s.calls ==> CallOk(s, s.calls[t]) && OrderOk(s, s.calls[t]))
    && (forall h :: 0 <= h < |s.returned| ==> Took(s.returned[h], s.log) && OrderOk(s, s.returned[h]))
  }

  /** Different calls, in progress or returned, have different operations. */
  ghost predicate Apart(s: System) {
    && (forall t, u :: t in s.calls && u in s.calls && s.calls[t].Ready? && s.calls[u].Ready? && t != u ==> s.calls[t].at != s.calls[u].at)
    && (forall t, h :: t in s.calls && s.calls[t].Ready? && 0 <= h < |s.returned| && s.returned[h].Ready? ==>
          s.calls[t].at != s.returned[h].at)
    && (forall g, h :: 0 <= g < h < |s.returned| && s.returned[g].Ready? && s.returned[h].Ready? ==>
          s.returned[g].at != s.returned[h].at)
  }

  /** Operation i is that of a call in progress. */
  ghost predicate InProgress(s: System, i: nat) {
    exists t :: t in s.calls && s.calls[t].Ready? && s.calls[t].at == i
  }

  /** Operation i is that of a call that returned. */
  ghost predicate HasReturned(s: System, i: nat) {
    exists h :: 0 <= h < |s.returned| && s.returned[h].Ready? && s.returned[h].at == i
  }

  /** Every operation is a call's. */
  ghost predicate AllOwned(s: System) {
    forall i :: 0 <= i < |s.log| ==> InProgress(s, i) || HasReturned(s, i)
  }

  /** Every call that took effect has an operation of its own, and there are no other operations. */
  ghost predicate Valid(first: int, s: System) {
    Consistent(first, s) && Apart(s) && AllOwned(s)
  }

  lemma {:induction false} ReplayMore(first: int, log: seq<Op>, op: Op)
    ensures Replay(first, log + [op]) == Max(Replay(first, log), op.ticks)
  {
    assert (log + [op])[..|log|] == log;
  }

  /** Adding an operation that returns the new maximum. */
  lemma {:induction false} LogMore(first: int, log: seq<Op>, op: Op)
    requires (forall i :: 0 <= i < |log| ==> OpOk(first, log, i)) && op.result == Max(Replay(first, log), op.ticks)
    ensures forall i :: 0 <= i < |log| + 1 ==> OpOk(first, log + [op], i)
  {
    var more := log + [op];
    ReplayMore(first, log, op);
    forall i | 0 <= i < |more|
      ensures OpOk(first, more, i)
    {
      if i < |log| {
        assert OpOk(first, log, i) && more[..i + 1] == log[..i + 1];
      } else {
        assert more[..i + 1] == more;
      }
    }
  }

  /** A call takes effect. */
  function Take(s: System, t: nat, c: Call): System
    requires c.Ready?
  {
    s.(last := c.result, calls := s.calls[t := c], log := s.log + [Op(c.ticks, c.result)])
  }

  lemma {:induction false} TakeConsistent(first: int, s: System, t: nat, c: Call)
    requires Consistent(first, s) && c.Ready? && c.since <= c.at == |s.log| && OrderOk(s, c)
    requires c.result == Max(s.last, c.ticks)
    ensures Consistent(first, Take(s, t, c))
  {
    LogMore(first, s.log, Op(c.ticks, c.result));
    ReplayMore(first, s.log, Op(c.ticks, c.result));
    var r := Take(s, t, c);
    forall u | u in r.calls
      ensures CallOk(r, r.calls[u]) && OrderOk(r, r.calls[u])
    {
      assert u != t ==> CallOk(s, s.calls[u]) && OrderOk(s, s.calls[u]);
    }
    forall h | 0 <= h < |r.returned|
      ensures Took(r.returned[h], r.log) && OrderOk(r, r.returned[h])
    {
      assert Took(s.returned[h], s.log) && OrderOk(s, s.returned[h]);
    }
  }

  /** The new operation is no other call's. */
  lemma {:induction false} TakeOwned(first: int, s: System, t: nat, c: Call)
    requires Valid(first, s) && (t in s.calls ==> s.calls[t].Trying?) && c.Ready? && c.at == |s.log|
    ensures Apart(Take(s, t, c)) && AllOwned(Take(s, t, c))
  {
    var r := Take(s, t, c);
    assert forall u :: u in s.calls ==> CallOk(s, s.calls[u]);
    forall i | 0 <= i < |r.log|
      ensures InProgress(r, i) || HasReturned(r, i)
    {
      if i == |s.log| {
        assert r.calls[t].at == i;
      } else if InProgress(s, i) {
        var u :| u in s.calls && s.calls[u].Ready? && s.calls[u].at == i;
        assert r.calls[u] == s.calls[u];
      }
    }
  }

  /** A call that goes on trying. */
  lemma {:induction false} TryingValid(first: int, s: System, t: nat, c: Call)
    requires Valid(first, s) && (t in s.calls ==> s.calls[t].Trying?) && c.Trying? && CallOk(s, c) && OrderOk(s, c)
    ensures Valid(first, s.(calls := s.calls[t := c]))
  {
    var r := s.(calls := s.calls[t := c]);
    forall i | 0 <= i < |r.log|
      ensures InProgress(r, i) || HasReturned(r, i)
    {
      if InProgress(s, i) {
        var u :| u in s.calls && s.calls[u].Ready? && s.calls[u].at == i;
        assert r.calls[u] == s.calls[u];
      }
    }
    forall u | u in r.calls
      ensures CallOk(r, r.calls[u]) && OrderOk(r, r.calls[u])
    {
      assert u != t ==> CallOk(s, s.calls[u]) && OrderOk(s, s.calls[u]);
    }
  }

  lemma {:induction false} LookValid(first: int, s: System, t: nat, ticks: int, since: nat, after: nat)
    requires Valid(first, s) && since <= |s.log| && OrderOk(s, Trying(ticks, s.last, since, after))
    requires t in s.calls ==> s.calls[t].Trying?
    ensures Valid(first, Look(s, t, ticks, s.last, since, after))
  {
    if ticks > s.last {
      TryingValid(first, s, t, Trying(ticks, s.last, since, after));
    } else {
      var c := Ready(ticks, s.last, since, after, |s.log|);
      TakeConsistent(first, s, t, c);
      TakeOwned(first, s, t, c);
      assert Look(s, t, ticks, s.last, since, after) == Take(s, t, c);
    }
  }

  lemma {:induction false} ReturnConsistent(first: int, s: System, t: nat)
    requires Consistent(first, s) && Enabled(s, Return(t))
    ensures Consistent(first, Step(s, Return(t)))
  {
    assert CallOk(s, s.calls[t]) && OrderOk(s, s.calls[t]);
    var r := Step(s, Return(t));
    forall u | u in r.calls
      ensures CallOk(r, r.calls[u]) && OrderOk(r, r.calls[u])
    {
      assert CallOk(s, s.calls[u]) && OrderOk(s, s.calls[u]);
    }
    forall h | 0 <= h < |r.returned|
      ensures Took(r.returned[h], r.log) && OrderOk(r, r.returned[h])
    {
      assert h < |s.returned| ==> Took(s.returned[h], s.log) && OrderOk(s, s.returned[h]);
    }
  }

  /** A call that returns takes its operation with it. */
  lemma {:induction false} ReturnOwned(s: System, t: nat)
    requires Apart(s) && AllOwned(s) && Enabled(s, Return(t))
    ensures Apart(Step(s, Return(t))) && AllOwned(Step(s, Return(t)))
  {
    var r := Step(s, Return(t));
    forall i | 0 <= i < |r.log|
      ensures InProgress(r, i) || HasReturned(r, i)
    {
      if s.calls[t].at == i {
        assert r.returned[|s.returned|].at == i;
      } else if InProgress(s, i) {
        var u :| u in s.calls && s.calls[u].Ready? && s.calls[u].at == i;
        assert r.calls[u] == s.calls[u];
      } else {
        var h :| 0 <= h < |s.returned| && s.returned[h].Ready? && s.returned[h].at == i;
        assert r.returned[h] == s.returned[h];
      }
    }
  }

  lemma {:induction false} StepValid(first: int, s: System, a: Action)
    requires Valid(first, s) && Enabled(s, a)
    ensures Valid(first, Step(s, a)) && s.last <= Step(s, a).last
  {
    match a
    case Start(t, ticks) => LookValid(first, s, t, ticks, |s.log|, |s.returned|);
    case Try(t) =>
      var c := s.calls[t];
      assert CallOk(s, c) && OrderOk(s, c);
      if s.last == c.seen {
        var r := Ready(c.ticks, c.ticks, c.since, c.after, |s.log|);
        TakeConsistent(first, s, t, r);
        TakeOwned(first, s, t, r);
        assert Step(s, a) == Take(s, t, r);
      } else {
        LookValid(first, s, t, c.ticks, c.since, c.after);
      }
    case Return(t) =>
      ReturnConsistent(first, s, t);
      ReturnOwned(s, t);
  }

  ghost predicate IsRun(first: int, states: seq<System>, actions: seq<Action>) {
    && |states| == |actions| + 1 && states[0] == System(first, map[], [], [])
    && forall k :: 0 <= k < |actions| ==> Enabled(states[k], actions[k]) && states[k + 1] == Step(states[k], actions[k])
  }

  /** In every run every call takes effect at once, within the call, as an operation on the maximum that is no other call's. */
  lemma {:induction false} Linearizable(first: int, states: seq<System>, actions: seq<Action>, k: nat)
    requires IsRun(first, states, actions) && k < |states|
    ensures Valid(first, states[k])
  {
    if k > 0 {
      Linearizable(first, states, actions, k - 1);
      StepValid(first, states[k - 1], actions[k - 1]);
    }
  }

  lemma {:induction false} NextNotLess(first: int, states: seq<System>, actions: seq<Action>, k: nat)
    requires IsRun(first, states, actions) && k < |actions|
    ensures states[k].last <= states[k + 1].last
  {
    Linearizable(first, states, actions, k);
    StepValid(first, states[k], actions[k]);
  }

  /** The shared value never decreases. */
  lemma {:induction false} NeverDecreases(first: int, states: seq<System>, actions: seq<Action>, j: nat, k: nat)
    requires IsRun(first, states, actions) && j <= k < |states|
    ensures states[j].last <= states[k].last
    decreases k
  {
    if j < k {
      NextNotLess(first, states, actions, k - 1);
      NeverDecreases(first, states, actions, j, k - 1);
    }
  }

  lemma {:induction false} ReplayGrows(first: int, log: seq<Op>, i: nat, j: nat)
    requires i <= j <= |log|
    ensures Replay(first, log[..i]) <= Replay(first, log[..j])
    ensures j > 0 ==> log[j - 1].ticks <= Replay(first, log[..j])
    decreases j
  {
    if j > 0 {
      assert log[..j][..j - 1] == log[..j - 1];
      if i < j {
        ReplayGrows(first, log, i, j - 1);
      }
    }
  }

  /** A call returns at least its own ticks, and no less than any call that had returned before it began. */
  lemma {:induction false} Monotonic(first: int, states: seq<System>, actions: seq<Action>, k: nat, b: nat, a: nat)
    requires IsRun(first, states, actions) && k < |states| && b < |states[k].returned|
    ensures states[k].returned[b].Ready? && states[k].returned[b].result >= states[k].returned[b].ticks
    ensures a < states[k].returned[b].after <= |states[k].returned| ==>
              states[k].returned[a].Ready? && states[k].returned[a].result <= states[k].returned[b].result
  {
    Linearizable(first, states, actions, k);
    var s := states[k];
    var second := s.returned[b];
    assert Took(second, s.log) && OrderOk(s, second) && OpOk(first, s.log, second.at);
    ReplayGrows(first, s.log, second.at, second.at + 1);
    if a < second.after {
      var one := s.returned[a];
      assert Took(one, s.log) && OpOk(first, s.log, one.at);
      ReplayGrows(first, s.log, one.at + 1, second.at + 1);
    }
  }

  /** A compare-and-swap that fails leaves the thread less to raise. */
  lemma {:induction false} FailedTryDecreases(first: int, s: System, t: nat)
    requires Valid(first, s) && Enabled(s, Try(t)) && Step(s, Try(t)).calls[t].Trying?
    ensures var now, was := Step(s, Try(t)).calls[t], s.calls[t];
            now.ticks == was.ticks && 0 < now.ticks - now.seen < was.ticks - was.seen
  {
    assert CallOk(s, s.calls[t]);
  }

  // ---- One thread ----

  class Cell {
    var value: int
    /** All values that the cell has had, the last one included. */
    ghost var past: seq<int>

    ghost predicate Valid()
      reads this
    {
      |past| > 0 && past[|past| - 1] == value
    }

    constructor (value: int)
      ensures Valid() && this.value == value
    {
      this.value := value;
      past := [value];
    }

    method Store(v: int)
      requires Valid()
      modifies this
      ensures Valid() && value == v && past == old(past) + [v]
    {
      value := v;
      past := past + [v];
    }

    /** Other threads raise the cell, any number of times. */
    method Others()
      requires Valid()
      modifies this
      ensures Valid() && value >= old(value) && old(past) <= past
    {
      var raised: int := *;
      if raised > value {
        Store(raised);
      }
    }

    /** Atomics.compareExchange */
    method CompareExchange(expected: int, replacement: int) returns (previous: int)
      requires Valid()
      modifies this
      ensures Valid() && old(past) <= past
      ensures previous == old(value) && value == if previous == expected then replacement else old(value)
    {
      previous := value;
      if previous == expected {
        Store(replacement);
      }
    }

    /**
     pm_timer_shared_max, with other threads between any two of its steps: the result is a value that the cell
     had during the call, and not below the ticks.
     */
    method SharedMax(ticks: int) returns (r: int)
      requires Valid()
      modifies this
      ensures Valid() && old(past) <= past
      ensures ticks <= r && old(value) <= r <= value && r in past[|old(past)| - 1..]
    {
      Others();
      var seen := value;
      assert seen == past[|past| - 1];
      while ticks > seen
        invariant Valid() && old(past) <= past && old(value) <= seen <= value && seen in past[|old(past)| - 1..]
        decreases ticks - seen
      {
        Others();
        var previous := CompareExchange(seen, ticks);
        if previous == seen {
          assert past[|past| - 1] == ticks;
          return ticks;
        }
        assert past[|past| - 1] == previous;
        seen := previous;
      }
      Others();
      return seen;
    }
  }

  class Acpi {
    var timerLast: int
    var shared: Cell?

    /** What was read before is not above the shared maximum. */
    ghost predicate Valid()
      reads this, shared
    {
      shared != null ==> shared.Valid() && timerLast <= shared.value
    }

    constructor ()
      ensures Valid() && shared == null && timerLast == 0
    {
      timerLast, shared := 0, null;
    }

    /** share_timer: the maximum goes on from what was read. */
    method ShareTimer(cell: Cell)
      requires Valid() && cell.Valid()
      modifies this`shared, cell
      ensures Valid() && shared == cell && cell.value == timerLast == old(timerLast)
    {
      shared := cell;
      cell.Store(timerLast);
    }

    /** timer_ticks: never less than before, nor than the time. */
    method TimerTicks(ticks: int) returns (r: int)
      requires Valid()
      modifies this`timerLast, shared
      ensures Valid() && r == timerLast && r >= ticks && r >= old(timerLast)
      ensures shared == null ==> r == Max(old(timerLast), ticks)
      ensures shared != null ==> old(shared.past) <= shared.past && r in shared.past[|old(shared.past)| - 1..]
    {
      if shared != null {
        timerLast := shared.SharedMax(ticks);
      } else if ticks > timerLast {
        timerLast := ticks;
      }
      return timerLast;
    }
  }
}
