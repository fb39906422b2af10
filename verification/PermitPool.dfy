/**
 Counting permits with waiting futures, as in policy.rs: `acquire` never waits,
 a future registers its waker before it tries, and a dropped permit wakes every
 registered future after it has released the pool's lock.
 */
module PermitPool {
  import opened Bytes

  type Fid = nat

  /** Whether `amount` more permits can be taken. */
  predicate CanTake(used: U64, limit: Option<U64>, amount: U64) {
    used + amount < U64_LIMIT && (limit.Some? ==> used + amount <= limit.value)
  }

  /** `retain` on the pending list. */
  function Retained(pending: seq<Fid>, live: set<Fid>): (r: seq<Fid>)
    ensures forall f :: f in r <==> f in pending && f in live
  {
    if pending == [] then []
    else (if pending[0] in live then [pending[0]] else []) + Retained(pending[1..], live)
  }

  function Without(pending: seq<Fid>, f: Fid): (r: seq<Fid>)
    ensures forall g :: g in r <==> g in pending && g != f
  {
    if pending == [] then []
    else (if pending[0] != f then [pending[0]] else []) + Without(pending[1..], f)
  }

  class Pool {
    const limit: Option<U64>
    var used: U64
    var pending: seq<Fid>

    constructor (limit: Option<U64>)
      ensures this.limit == limit && used == 0 && pending == []
    {
      this.limit := limit;
      used := 0;
      pending := [];
    }

    method Acquire(amount: U64) returns (ok: bool)
      modifies this`used
      ensures ok <==> CanTake(old(used), limit, amount)
      ensures used == old(used) + if ok then amount else 0
    {
      if used + amount >= U64_LIMIT {
        return false;
      }
      if limit.Some? && used + amount > limit.value {
        return false;
      }
      used := used + amount;
      ok := true;
    }

    /** The locked part of a permit's drop: gives back and selects whom to wake. */
    method Release(amount: U64, live: set<Fid>) returns (wakes: seq<Fid>)
      requires amount <= used
      modifies this
      ensures used == old(used) - amount
      ensures pending == Retained(old(pending), live) && wakes == pending
    {
      used := used - amount;
      pending := Retained(pending, live);
      wakes := pending;
    }

    /** The first poll of a future puts its waker on the list. */
    method Enlist(f: Fid, live: set<Fid>)
      modifies this`pending
      ensures pending == Retained(old(pending), live) + [f]
    {
      pending := Retained(pending, live) + [f];
    }

    /** A dropped future leaves the list. */
    method Withdraw(f: Fid)
      modifies this`pending
      ensures pending == Without(old(pending), f)
    {
      var rest := pending;
      pending := [];
      while rest != []
        invariant pending + Without(rest, f) == Without(old(pending), f)
        decreases |rest|
      {
        if rest[0] != f {
          pending := pending + [rest[0]];
        }
        rest := rest[1..];
      }
    }
  }

  // ---- The pool with everything that uses it ----

  datatype Phase = Idle | Polling | Enlisted | Parked | Ready

  /**
   `armed`: the waker is registered. `notified`: it was called since the last
   poll began. `registered`: the future is on the pool's list.
   */
  datatype Waiting = Waiting(phase: Phase, registered: bool, armed: bool, notified: bool)

  datatype State = State(
    limit: Option<U64>,
    used: U64,
    pending: seq<Fid>,
    permits: seq<U64>,           // amounts of the live permits
    futures: map<Fid, Waiting>,
    waking: seq<seq<Fid>>)       // per dropping permit, whom it has yet to wake

  datatype Action =
    | Take(amount: U64)          // `acquire` outside any future
    | Split(permit: nat)
    | Drop(permit: nat)
    | Wake(dropper: nat)
    | NewFuture(f: Fid)
    | BeginPoll(f: Fid)          // registers the waker
    | Enlist(f: Fid)             // takes the lock once to join the list
    | TryAcquire(f: Fid)
    | DropFuture(f: Fid)

  function Sum(amounts: seq<U64>): nat {
    if amounts == [] then 0 else amounts[0] + Sum(amounts[1..])
  }

  /** `split_one`: a unit permit of its own, taken from another. */
  function SplitOne(permits: seq<U64>, i: nat): seq<U64>
    requires i < |permits| && permits[i] > 0
  {
    permits[i := permits[i] - 1] + [1]
  }

  predicate Init(s: State) {
    s.used == 0 && s.pending == [] && s.permits == [] && s.futures == map[] && s.waking == []
  }

  predicate Next(s: State, a: Action, t: State) {
    match a
    case Take(amount) =>
      && CanTake(s.used, s.limit, amount)
      && t == s.(used := s.used + amount, permits := s.permits + [amount])
    case Split(i) =>
      && i < |s.permits| && s.permits[i] > 0
      && t == s.(permits := SplitOne(s.permits, i))
    case Drop(i) =>
      && i < |s.permits| && s.permits[i] <= s.used
      && var pending := Retained(s.pending, s.futures.Keys);
      t == s.(used := s.used - s.permits[i], permits := s.permits[..i] + s.permits[i + 1..],
              pending := pending, waking := s.waking + [pending])
    case Wake(d) =>
      && d < |s.waking| && s.waking[d] != []
      && var f := s.waking[d][0];
      t == s.(waking := s.waking[d := s.waking[d][1..]],
              futures := if f in s.futures && s.futures[f].armed
                         then s.futures[f := s.futures[f].(armed := false, notified := true)] else s.futures)
    case NewFuture(f) =>
      f !in s.futures && t == s.(futures := s.futures[f := Waiting(Idle, false, false, false)])
    case BeginPoll(f) =>
      && f in s.futures && (s.futures[f].phase.Idle? || s.futures[f].phase.Parked?)
      && t == s.(futures := s.futures[f := s.futures[f].(phase := Polling, armed := true, notified := false)])
    case Enlist(f) =>
      && f in s.futures && s.futures[f].phase.Polling?
      && t == s.(pending := if s.futures[f].registered then s.pending
                            else Retained(s.pending, s.futures.Keys) + [f],
                 futures := s.futures[f := s.futures[f].(phase := Enlisted, registered := true)])
    case TryAcquire(f) =>
      && f in s.futures && s.futures[f].phase.Enlisted?
      && if CanTake(s.used, s.limit, 1)
         then t == s.(used := s.used + 1, permits := s.permits + [1],
                      futures := s.futures[f := s.futures[f].(phase := Ready)])
         else t == s.(futures := s.futures[f := s.futures[f].(phase := Parked)])
    case DropFuture(f) =>
      && f in s.futures && (s.futures[f].phase.Idle? || s.futures[f].phase.Parked? || s.futures[f].phase.Ready?)
      && t == s.(futures := s.futures - {f}, pending := Without(s.pending, f))
  }

  predicate AboutToWake(s: State, f: Fid) {
    exists d :: 0 <= d < |s.waking| && f in s.waking[d]
  }

  /** A parked future that nobody has notified or is about to notify really has nothing to take. */
  predicate FutureInv(s: State, f: Fid)
    requires f in s.futures
  {
    var me := s.futures[f];
    && (me.phase.Enlisted? || me.phase.Parked? ==> me.registered)
    && (me.registered ==> f in s.pending)
    && ((me.phase.Polling? || me.phase.Enlisted? || me.phase.Parked?) && !me.notified ==> me.armed)
    && (me.phase.Parked? && !me.notified && !AboutToWake(s, f) ==> !CanTake(s.used, s.limit, 1))
  }

  predicate Inv(s: State) {
    && s.used == Sum(s.permits)
    && (s.limit.Some? ==> s.used <= s.limit.value)
    && (forall f :: f in s.futures ==> FutureInv(s, f))
  }

  lemma {:induction false} SumAppend(a: seq<U64>, b: seq<U64>)
    ensures Sum(a + b) == Sum(a) + Sum(b)
  {
    if a == [] {
      assert a + b == b;
    } else {
      assert (a + b)[1..] == a[1..] + b;
      SumAppend(a[1..], b);
    }
  }

  lemma {:induction false} SumAt(a: seq<U64>, i: nat)
    requires i < |a|
    ensures Sum(a) == Sum(a[..i]) + a[i] + Sum(a[i + 1..])
    ensures a[i] <= Sum(a)
  {
    assert a == a[..i] + a[i..];
    SumAppend(a[..i], a[i..]);
  }

  lemma SplitKeeps(s: State, i: nat, t: State)
    requires Inv(s) && Next(s, Split(i), t)
    ensures Inv(t)
  {
    var less := s.permits[i := s.permits[i] - 1];
    SumAt(s.permits, i);
    SumAt(less, i);
    assert less[..i] == s.permits[..i] && less[i + 1..] == s.permits[i + 1..];
    SumAppend(less, [1]);
    assert Sum([1]) == 1 + Sum([]);
    forall f | f in t.futures ensures FutureInv(t, f) {
      assert FutureInv(s, f);
      assert AboutToWake(t, f) <==> AboutToWake(s, f);
    }
  }

  /** The permit's amount is always there to give back, and every parked future is on the wake list. */
  lemma DropKeeps(s: State, i: nat, t: State)
    requires Inv(s) && Next(s, Drop(i), t)
    ensures Inv(t)
  {
    SumAt(s.permits, i);
    SumAppend(s.permits[..i], s.permits[i + 1..]);
    forall f | f in t.futures ensures FutureInv(t, f) {
      assert FutureInv(s, f);
      if s.futures[f].registered {
        assert f in t.waking[|s.waking|];
        assert AboutToWake(t, f);
      }
    }
  }

  lemma WakeKeeps(s: State, d: nat, t: State)
    requires Inv(s) && Next(s, Wake(d), t)
    ensures Inv(t)
  {
    var woken := s.waking[d][0];
    forall f | f in t.futures ensures FutureInv(t, f) {
      assert FutureInv(s, f);
      if f != woken && AboutToWake(s, f) {
        var e :| 0 <= e < |s.waking| && f in s.waking[e];
        if e == d {
          assert s.waking[d] == [woken] + s.waking[d][1..];
          assert f in t.waking[d];
        } else {
          assert f in t.waking[e];
        }
        assert AboutToWake(t, f);
      }
    }
  }

  lemma TakeKeeps(s: State, amount: U64, t: State)
    requires Inv(s) && CanTake(s.used, s.limit, amount)
    requires t == s.(used := s.used + amount, permits := s.permits + [amount], futures := t.futures)
    requires t.futures.Keys == s.futures.Keys
    requires forall f :: f in s.futures ==>
               t.futures[f] == s.futures[f] || t.futures[f] == s.futures[f].(phase := Ready)
    ensures Inv(t)
  {
    SumAppend(s.permits, [amount]);
    assert Sum([amount]) == amount + Sum([]);
    forall f | f in t.futures ensures FutureInv(t, f) {
      assert FutureInv(s, f);
      assert AboutToWake(t, f) <==> AboutToWake(s, f);
    }
  }

  lemma PollKeeps(s: State, a: Action, t: State)
    requires Inv(s) && Next(s, a, t)
    requires a.NewFuture? || a.BeginPoll? || a.Enlist? || a.DropFuture?
             || (a.TryAcquire? && !CanTake(s.used, s.limit, 1))
    ensures Inv(t)
  {
    forall f | f in t.futures ensures FutureInv(t, f) {
      if f in s.futures {
        assert FutureInv(s, f);
      }
      assert AboutToWake(t, f) <==> AboutToWake(s, f);
    }
  }

  lemma StepKeepsInv(s: State, a: Action, t: State)
    requires Inv(s) && Next(s, a, t)
    ensures Inv(t)
  {
    match a
    case Take(amount) => TakeKeeps(s, amount, t);
    case Split(i) => SplitKeeps(s, i, t);
    case Drop(i) => DropKeeps(s, i, t);
    case Wake(d) => WakeKeeps(s, d, t);
    case TryAcquire(f) =>
      if CanTake(s.used, s.limit, 1) {
        assert t.futures.Keys == s.futures.Keys;
        TakeKeeps(s, 1, t);
      } else {
        PollKeeps(s, a, t);
      }
    case _ => PollKeeps(s, a, t);
  }

  predicate Run(states: seq<State>, actions: seq<Action>) {
    && |states| == |actions| + 1
    && Init(states[0])
    && forall i {:trigger actions[i]} :: 0 <= i < |actions| ==> Next(states[i], actions[i], states[i + 1])
  }

  lemma {:induction false} RunInv(states: seq<State>, actions: seq<Action>, i: nat)
    requires Run(states, actions) && i < |states|
    ensures Inv(states[i])
  {
    if i > 0 {
      RunInv(states, actions, i - 1);
      StepKeepsInv(states[i - 1], actions[i - 1], states[i]);
    }
  }

  /** The counter is the sum of the live permits, within the limit, and no drop can underflow it. */
  lemma Conservation(states: seq<State>, actions: seq<Action>, i: nat)
    requires Run(states, actions) && i < |states|
    ensures states[i].used == Sum(states[i].permits)
    ensures states[i].limit.Some? ==> states[i].used <= states[i].limit.value
    ensures forall p :: 0 <= p < |states[i].permits| ==> states[i].permits[p] <= states[i].used
  {
    RunInv(states, actions, i);
    forall p | 0 <= p < |states[i].permits| ensures states[i].permits[p] <= states[i].used {
      SumAt(states[i].permits, p);
    }
  }

  /** A permit can be taken exactly while the live permits and it stay within the limit and the counter. */
  lemma TakenIffRoom(states: seq<State>, actions: seq<Action>, i: nat, amount: U64)
    requires Run(states, actions) && i < |states|
    ensures (exists t :: Next(states[i], Take(amount), t)) <==>
      && Sum(states[i].permits) + amount < U64_LIMIT
      && (states[i].limit.Some? ==> Sum(states[i].permits) + amount <= states[i].limit.value)
  {
    RunInv(states, actions, i);
    var s := states[i];
    if CanTake(s.used, s.limit, amount) {
      var t := s.(used := s.used + amount, permits := s.permits + [amount]);
      assert Next(s, Take(amount), t);
    }
  }

  predicate Units(permits: seq<U64>) {
    forall p :: 0 <= p < |permits| ==> permits[p] == 1
  }

  lemma {:induction false} SumUnits(permits: seq<U64>)
    requires Units(permits)
    ensures Sum(permits) == |permits|
  {
    if permits != [] {
      SumUnits(permits[1..]);
    }
  }

  /** With a limit of `n`, as many unit permits can be live at once, for any number up to `n`; */
  lemma {:induction false} LimitIsReached(n: U64, k: nat) returns (states: seq<State>, actions: seq<Action>)
    requires k <= n
    ensures Run(states, actions) && states[|actions|].limit == Some(n)
    ensures Units(states[|actions|].permits) && |states[|actions|].permits| == k
  {
    if k == 0 {
      states, actions := [State(Some(n), 0, [], [], map[], [])], [];
    } else {
      var earlier, steps := LimitIsReached(n, k - 1);
      var s := earlier[|steps|];
      RunInv(earlier, steps, |steps|);
      SumUnits(s.permits);
      var t := s.(used := s.used + 1, permits := s.permits + [1]);
      states, actions := earlier + [t], steps + [Take(1)];
      assert Next(s, Take(1), t);
    }
  }

  /** and never more. */
  lemma LimitIsKept(states: seq<State>, actions: seq<Action>, i: nat)
    requires Run(states, actions) && i < |states| && states[i].limit.Some? && Units(states[i].permits)
    ensures |states[i].permits| <= states[i].limit.value
  {
    RunInv(states, actions, i);
    SumUnits(states[i].permits);
  }

  /** The permits after splitting the same one `n` times. */
  function SplitTimes(permits: seq<U64>, i: nat, n: nat): (r: seq<U64>)
    requires i < |permits| && n <= permits[i]
    ensures |r| == |permits| + n && r[i] == permits[i] - n
  {
    if n == 0 then permits else SplitOne(SplitTimes(permits, i, n - 1), i)
  }

  /** A permit splits into as many unit permits as it is worth, and no other permit changes. */
  lemma {:induction false} SplitsIntoUnits(permits: seq<U64>, i: nat, n: nat)
    requires i < |permits| && n <= permits[i]
    ensures SplitTimes(permits, i, n)[..|permits|] == permits[i := permits[i] - n]
    ensures Units(SplitTimes(permits, i, n)[|permits|..])
  {
    if n > 0 {
      SplitsIntoUnits(permits, i, n - 1);
      var before, after := SplitTimes(permits, i, n - 1), SplitTimes(permits, i, n);
      assert forall k :: 0 <= k < |permits| ==> before[..|permits|][k] == before[k];
      assert forall k :: |permits| <= k < |before| ==> before[|permits|..][k - |permits|] == before[k];
    }
  }

  /**
   No wake-up is lost: a pending future that was not notified since its last
   poll, and that no dropping permit is about to wake, has no capacity to take.
   */
  lemma NoLostWakeUp(states: seq<State>, actions: seq<Action>, i: nat, f: Fid)
    requires Run(states, actions) && i < |states|
    requires f in states[i].futures && states[i].futures[f].phase.Parked?
    requires !states[i].futures[f].notified && !AboutToWake(states[i], f)
    ensures !CanTake(states[i].used, states[i].limit, 1)
  {
    RunInv(states, actions, i);
    assert FutureInv(states[i], f);
  }
}
