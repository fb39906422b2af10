/**
 Managed requests of one scope (request.rs): handles may be cloned and dropped on
 any thread, native requests are released on the origin thread only. A foreign
 final drop stores a dirty flag and wakes the scope's root future, which on every
 poll registers its waker first, then inspects the flag and collects.
 */
module Retirement {
  import opened Bytes

  type Id = nat
  type Thread = nat

  datatype AccessError = WrongThread | ScopeClosed

  /** The origin-thread registry of one scope. */
  class Registry<Native> {
    const origin: Thread
    var next: nat
    var closed: bool
    var entries: map<Id, Native>

    ghost predicate Valid()
      reads this
    {
      && (forall id :: id in entries ==> id < next)
      && (closed ==> entries == map[])
    }

    constructor (origin: Thread)
      ensures Valid() && !closed && entries == map[] && this.origin == origin
    {
      this.origin := origin;
      next, closed, entries := 0, false, map[];
    }

    /** Registers a native request under an identifier never used before. */
    method TryNew(native: Native) returns (r: Option<Id>)
      requires Valid()
      modifies this
      ensures Valid() && closed == old(closed)
      ensures r.Some? <==> !closed
      ensures r.None? ==> entries == old(entries) && next == old(next)
      ensures r.Some? ==> r.value == old(next) && r.value !in old(entries)
                          && entries == old(entries)[r.value := native] && next == old(next) + 1
    {
      if closed {
        return None;
      }
      entries := entries[next := native];
      r := Some(next);
      next := next + 1;
    }

    /** Native access: on the origin thread only, and exactly while registered in an open scope. */
    method With(id: Id, thread: Thread) returns (r: Result<Native, AccessError>)
      requires Valid()
      ensures r == if thread != origin then Err(WrongThread)
                   else if id in entries then Ok(entries[id]) else Err(ScopeClosed)
    {
      if thread != origin {
        return Err(WrongThread);
      }
      if closed || id !in entries {
        return Err(ScopeClosed);
      }
      r := Ok(entries[id]);
    }

    /** The last handle is dropped: at home the entry goes now, elsewhere it is left for the origin to collect. */
    method Retire(id: Id, thread: Thread) returns (signal: bool)
      requires Valid()
      modifies this`entries
      ensures Valid() && signal == (thread != origin)
      ensures entries == if thread == origin then old(entries) - {id} else old(entries)
    {
      if thread != origin {
        return true;
      }
      if !closed {
        entries := entries - {id};
      }
      signal := false;
    }

    /** Removes exactly the entries whose last handle is gone, and counts them. */
    method Collect(gone: set<Id>) returns (count: nat)
      requires Valid()
      modifies this`entries
      ensures Valid() && entries == old(entries) - gone
      ensures count == |old(entries).Keys * gone|
    {
      count := |entries.Keys * gone|;
      entries := entries - gone;
    }

    /** Closing releases every native request, whatever handles remain. */
    method Close()
      requires Valid()
      modifies this
      ensures Valid() && closed && entries == map[] && next == old(next)
    {
      closed := true;
      entries := map[];
    }
  }

  // ---- The scope, its root future and the dropping threads ----

  datatype Root = Idle | Started | Registered | Collecting | Polled | Done

  datatype Retiring = Counted | Stored   // the count has reached zero; the flag has been stored

  datatype State = State(
    origin: Thread,
    next: nat,
    closed: bool,
    entries: set<Id>,
    handles: map<Id, nat>,          // strong counts of the tokens
    retiring: map<Id, Retiring>,    // final drops in progress on other threads
    dirty: bool,
    armed: bool,                    // the root's waker is registered
    scheduled: bool,
    root: Root,
    removed: seq<Id>)               // every removal, in order

  datatype Action =
    | New
    | Clone(id: Id)
    | Drop(id: Id)
    | StoreDirty(id: Id)            // a last handle dropped elsewhere stores the flag
    | WakeRoot(id: Id)              // and wakes, which finishes that drop
    | Schedule                      // any other wake-up of the root future
    | BeginPoll
    | Register
    | Inspect
    | CollectNow
    | EndPoll(ready: bool)
    | Manual                        // RequestScope::collect
    | Close

  /** Which thread does what. */
  datatype Event = Event(thread: Thread, action: Action)

  predicate Init(s: State) {
    && s.next == 0 && !s.closed && s.entries == {} && s.handles == map[] && s.retiring == map[]
    && !s.dirty && !s.armed && s.scheduled && s.root.Idle? && s.removed == []
  }

  predicate Gone(s: State, id: Id) {
    id in s.handles && s.handles[id] == 0
  }

  function Expired(s: State): set<Id> {
    set id | id in s.entries && Gone(s, id)
  }

  /** The removal of a set of entries, in some order. */
  predicate Removal(removed: seq<Id>, ids: set<Id>) {
    multiset(removed) == multiset(ids)
  }

  /** Whether a step belongs to the scope or its root future, neither of which can leave the origin thread. */
  predicate Local(a: Action) {
    a.BeginPoll? || a.Register? || a.Inspect? || a.CollectNow? || a.EndPoll? || a.Manual? || a.Close?
  }

  /** Steps of handles, on any thread. */
  predicate HandleNext(s: State, e: Event, t: State) {
    match e.action
    case New =>
      // The registry is found through the current thread; elsewhere there is none.
      && !s.closed && e.thread == s.origin
      && t == s.(next := s.next + 1, entries := s.entries + {s.next}, handles := s.handles[s.next := 1])
    case Clone(id) =>
      id in s.handles && s.handles[id] > 0 && t == s.(handles := s.handles[id := s.handles[id] + 1])
    case Drop(id) =>
      && id in s.handles && s.handles[id] > 0
      && var left := s.(handles := s.handles[id := s.handles[id] - 1]);
      if s.handles[id] > 1 then t == left
      else if e.thread == s.origin then
        t == left.(entries := s.entries - {id}, removed := if id in s.entries then s.removed + [id] else s.removed)
      else
        id !in s.retiring && t == left.(retiring := s.retiring[id := Counted])
    case StoreDirty(id) =>
      && id in s.retiring && s.retiring[id].Counted?
      && t == s.(dirty := true, retiring := s.retiring[id := Stored])
    case WakeRoot(id) =>
      && id in s.retiring && s.retiring[id].Stored?
      && t == s.(retiring := s.retiring - {id}, armed := false, scheduled := s.scheduled || s.armed)
    case Schedule =>
      t == s.(scheduled := true)
    case _ => false
  }

  /** Steps of the scope and its root future. */
  predicate RootNext(s: State, a: Action, t: State) {
    match a
    case BeginPoll =>
      s.scheduled && s.root.Idle? && t == s.(scheduled := false, root := Started)
    case Register =>
      s.root.Started? && t == s.(armed := !s.closed, root := Registered)
    case Inspect =>
      s.root.Registered? && t == s.(dirty := false, root := if s.dirty then Collecting else Polled)
    case CollectNow =>
      && s.root.Collecting? && s.removed <= t.removed && Removal(t.removed[|s.removed|..], Expired(s))
      && t == s.(entries := s.entries - Expired(s), removed := t.removed, root := Polled)
    case EndPoll(ready) =>
      s.root.Polled? && t == s.(root := if ready then Done else Idle)
    case Manual =>
      && s.removed <= t.removed && Removal(t.removed[|s.removed|..], Expired(s))
      && t == s.(entries := s.entries - Expired(s), removed := t.removed)
    case Close =>
      && !s.closed && s.removed <= t.removed && Removal(t.removed[|s.removed|..], s.entries)
      && t == s.(closed := true, armed := false, entries := {}, removed := t.removed)
    case _ => false
  }

  predicate Next(s: State, e: Event, t: State) {
    if Local(e.action) then e.thread == s.origin && RootNext(s, e.action, t) else HandleNext(s, e, t)
  }

  // ---- The invariant ----

  /** A request whose last handle has finished dropping, still registered. */
  predicate Overdue(s: State, id: Id) {
    id in s.entries && Gone(s, id) && id !in s.retiring
  }

  ghost predicate WakeInv(s: State) {
    // An unarmed waker means the root is already on its way to registering again.
    && (!s.armed && !s.closed && !s.root.Done? ==> s.scheduled || s.root.Started?)
    // A stored retirement is flagged until the collection it causes.
    && (forall id :: id in s.retiring && s.retiring[id].Stored? && id in s.entries ==> s.dirty || s.root.Collecting?)
    && (forall id :: Overdue(s, id) ==> s.dirty || s.root.Collecting?)
    // And every overdue entry has a root future that will look.
    && (forall id :: Overdue(s, id) ==>
          s.scheduled || s.root.Started? || s.root.Registered? || s.root.Collecting? || s.root.Done?)
  }

  ghost predicate HandleInv(s: State) {
    && (forall id: nat :: id in s.handles <==> id < s.next)
    && (forall id :: id in s.entries ==> id < s.next)
    && (s.closed ==> s.entries == {})
    && (forall id :: id in s.handles && s.handles[id] > 0 && !s.closed ==> id in s.entries)
    && (forall id :: id in s.retiring ==> Gone(s, id))
  }

  /** Every issued identifier is registered or was removed, once. */
  ghost predicate OnceInv(next: nat, entries: set<Id>, removed: seq<Id>) {
    && (forall id :: id in removed ==> id < next)
    && (forall id: nat :: id < next ==> multiset(removed)[id] == if id in entries then 0 else 1)
  }

  ghost predicate Inv(s: State) {
    WakeInv(s) && HandleInv(s) && OnceInv(s.next, s.entries, s.removed)
  }

  /** No step makes an entry overdue except the one that finishes its drop elsewhere. */
  lemma OverdueOnlyByWake(s: State, e: Event, t: State, id: Id)
    requires HandleInv(s) && HandleNext(s, e, t) && Overdue(t, id)
    ensures Overdue(s, id) || (e.action == WakeRoot(id) && s.retiring[id].Stored? && id in s.entries)
  {
  }

  lemma HandleWakes(s: State, e: Event, t: State)
    requires WakeInv(s) && HandleInv(s) && HandleNext(s, e, t)
    ensures WakeInv(t)
  {
    forall id | Overdue(t, id)
      ensures t.dirty || t.root.Collecting?
      ensures t.scheduled || t.root.Started? || t.root.Registered? || t.root.Collecting? || t.root.Done?
    {
      OverdueOnlyByWake(s, e, t, id);
    }
  }

  lemma RootWakes(s: State, a: Action, t: State)
    requires WakeInv(s) && HandleInv(s) && RootNext(s, a, t)
    ensures WakeInv(t)
  {
    forall id | Overdue(t, id)
      ensures t.dirty || t.root.Collecting?
      ensures t.scheduled || t.root.Started? || t.root.Registered? || t.root.Collecting? || t.root.Done?
    {
      assert Overdue(s, id);
    }
  }

  lemma WakeStep(s: State, e: Event, t: State)
    requires Inv(s) && Next(s, e, t)
    ensures WakeInv(t)
  {
    if Local(e.action) {
      RootWakes(s, e.action, t);
    } else {
      HandleWakes(s, e, t);
    }
  }

  lemma HandleStep(s: State, e: Event, t: State)
    requires HandleInv(s) && Next(s, e, t)
    ensures HandleInv(t)
  {
    match e.action
    case New => NewStep(s, e, t);
    case Clone(id) => CountStep(s, id, s.handles[id] + 1, t);
    case Drop(id) => DropStep(s, e, t);
    case StoreDirty(_) => SignalStep(s, e, t);
    case WakeRoot(_) => SignalStep(s, e, t);
    case Schedule => SignalStep(s, e, t);
    case _ => RootStep(s, e.action, t);
  }

  lemma NewStep(s: State, e: Event, t: State)
    requires HandleInv(s) && Next(s, e, t) && e.action.New?
    ensures HandleInv(t)
  {
    forall id: nat ensures id in t.handles <==> id < t.next {
      assert id in s.handles <==> id < s.next;
    }
  }

  /** A handle count that stays above zero. */
  lemma CountStep(s: State, id: Id, count: nat, t: State)
    requires HandleInv(s) && id in s.handles && s.handles[id] > 0 && count > 0
    requires t == s.(handles := s.handles[id := count])
    ensures HandleInv(t)
  {
    forall i: nat ensures i in t.handles <==> i < t.next {
      assert i in s.handles <==> i < s.next;
    }
  }

  lemma DropStep(s: State, e: Event, t: State)
    requires HandleInv(s) && Next(s, e, t) && e.action.Drop?
    ensures HandleInv(t)
  {
    var id := e.action.id;
    if s.handles[id] > 1 {
      CountStep(s, id, s.handles[id] - 1, t);
    } else {
      forall i: nat ensures i in t.handles <==> i < t.next {
        assert i in s.handles <==> i < s.next;
      }
    }
  }

  lemma SignalStep(s: State, e: Event, t: State)
    requires HandleInv(s) && HandleNext(s, e, t) && (e.action.StoreDirty? || e.action.WakeRoot? || e.action.Schedule?)
    ensures HandleInv(t)
  {
    assert t.handles == s.handles && t.next == s.next && t.entries == s.entries;
  }

  lemma RootStep(s: State, a: Action, t: State)
    requires HandleInv(s) && RootNext(s, a, t)
    ensures HandleInv(t)
  {
    assert t.handles == s.handles && t.next == s.next && t.entries <= s.entries && t.retiring == s.retiring;
    assert forall id :: id in s.entries && id !in t.entries ==> Gone(s, id) || t.closed;
  }

  lemma RemovalCounts(s: State, ids: set<Id>, removed: seq<Id>)
    requires OnceInv(s.next, s.entries, s.removed) && ids <= s.entries
    requires forall id :: id in s.entries ==> id < s.next
    requires s.removed <= removed && Removal(removed[|s.removed|..], ids)
    ensures OnceInv(s.next, s.entries - ids, removed)
  {
    var tail := removed[|s.removed|..];
    assert removed == s.removed + tail;
    forall id | id in removed ensures id < s.next {
      if id !in s.removed {
        assert id in multiset(tail);
      }
    }
    assert multiset(removed) == multiset(s.removed) + multiset(ids);
  }

  lemma OneRemoval(s: State, id: Id)
    requires OnceInv(s.next, s.entries, s.removed) && forall i :: i in s.entries ==> i < s.next
    ensures OnceInv(s.next, s.entries - {id}, if id in s.entries then s.removed + [id] else s.removed)
  {
    if id in s.entries {
      assert Removal([id], {id});
      assert (s.removed + [id])[|s.removed|..] == [id];
      RemovalCounts(s, {id}, s.removed + [id]);
    } else {
      assert s.entries - {id} == s.entries;
    }
  }

  lemma HandleOnce(s: State, e: Event, t: State)
    requires HandleInv(s) && OnceInv(s.next, s.entries, s.removed) && HandleNext(s, e, t)
    ensures OnceInv(t.next, t.entries, t.removed)
  {
    if e.action.New? {
      assert s.next !in s.removed;
      assert multiset(s.removed)[s.next] == 0;
    } else if e.action.Drop? && s.handles[e.action.id] == 1 && e.thread == s.origin {
      OneRemoval(s, e.action.id);
    }
  }

  lemma RootOnce(s: State, a: Action, t: State)
    requires HandleInv(s) && OnceInv(s.next, s.entries, s.removed) && RootNext(s, a, t)
    ensures OnceInv(t.next, t.entries, t.removed)
  {
    if a.CollectNow? || a.Manual? {
      RemovalCounts(s, Expired(s), t.removed);
    } else if a.Close? {
      RemovalCounts(s, s.entries, t.removed);
      assert s.entries - s.entries == {};
    }
  }

  lemma OnceStep(s: State, e: Event, t: State)
    requires Inv(s) && Next(s, e, t)
    ensures OnceInv(t.next, t.entries, t.removed)
  {
    if Local(e.action) {
      RootOnce(s, e.action, t);
    } else {
      HandleOnce(s, e, t);
    }
  }

  predicate Run(states: seq<State>, events: seq<Event>) {
    && |states| == |events| + 1
    && Init(states[0])
    && forall i {:trigger events[i]} :: 0 <= i < |events| ==> Next(states[i], events[i], states[i + 1])
  }

  lemma {:induction false} RunInv(states: seq<State>, events: seq<Event>, i: nat)
    requires Run(states, events) && i < |states|
    ensures Inv(states[i])
  {
    if i > 0 {
      RunInv(states, events, i - 1);
      WakeStep(states[i - 1], events[i - 1], states[i]);
      HandleStep(states[i - 1], events[i - 1], states[i]);
      OnceStep(states[i - 1], events[i - 1], states[i]);
    }
  }

  /**
   Retirement elsewhere is never lost: while an entry outlives its last handle,
   whose drop has finished, the root future is scheduled, or has yet to inspect
   the flag or collect in its current poll, or has ended and the scope closes.
   */
  lemma RetirementNotLost(states: seq<State>, events: seq<Event>, i: nat, id: Id)
    requires Run(states, events) && i < |states| && Overdue(states[i], id)
    ensures
      var s := states[i];
      s.scheduled || s.root.Started? || s.root.Registered? || s.root.Collecting? || s.root.Done?
    ensures states[i].dirty || states[i].root.Collecting?
  {
    RunInv(states, events, i);
  }

  /** The next inspection then really collects it. */
  lemma InspectionCollects(s: State, t: State, u: State, id: Id)
    requires Inv(s) && Overdue(s, id) && s.root.Registered?
    requires Next(s, Event(s.origin, Inspect), t) && Next(t, Event(s.origin, CollectNow), u)
    ensures id !in u.entries
  {
    assert id in Expired(t);
  }

  /** How often an action occurs among events. */
  function Times(events: seq<Event>, a: Action): nat {
    if events == [] then 0
    else Times(events[..|events| - 1], a) + if events[|events| - 1].action == a then 1 else 0
  }

  lemma RootLeavesHandles(s: State, a: Action, t: State)
    requires RootNext(s, a, t)
    ensures t.handles == s.handles
  {
  }

  /** What one step does to one count. */
  predicate Counts(before: map<Id, nat>, a: Action, after: map<Id, nat>, id: Id) {
    if id in before then
      && id in after
      && if a == Drop(id) then after[id] + 1 == before[id]
         else after[id] == before[id] + if a == Clone(id) then 1 else 0
    else
      a != Drop(id) && a != Clone(id) && (id in after ==> after[id] == 1)
  }

  lemma HandleCounts(s: State, e: Event, t: State, id: Id)
    requires s.next !in s.handles && Next(s, e, t)
    ensures Counts(s.handles, e.action, t.handles, id)
  {
    if Local(e.action) {
      RootLeavesHandles(s, e.action, t);
    } else {
      assert HandleNext(s, e, t);
    }
  }

  /** In every run the count of a request is what it was made with, plus the clones, less the drops; none goes astray. */
  lemma {:induction false} HandlesAreCounted(states: seq<State>, events: seq<Event>, i: nat, id: Id)
    requires Run(states, events) && i < |states|
    ensures id in states[i].handles ==>
      states[i].handles[id] + Times(events[..i], Drop(id)) == 1 + Times(events[..i], Clone(id))
    ensures id !in states[i].handles ==> Times(events[..i], Drop(id)) == 0 == Times(events[..i], Clone(id))
  {
    if i > 0 {
      HandlesAreCounted(states, events, i - 1, id);
      RunInv(states, events, i - 1);
      assert events[..i][..i - 1] == events[..i - 1] && events[..i][i - 1] == events[i - 1];
      assert states[i - 1].next !in states[i - 1].handles;
      HandleCounts(states[i - 1], events[i - 1], states[i], id);
    }
  }

  /** A collection, by the root future or by hand, takes exactly the entries whose last handle is gone. */
  lemma CollectsExactly(s: State, e: Event, t: State, id: Id)
    requires Next(s, e, t) && (e.action.CollectNow? || e.action.Manual?)
    ensures id in t.entries <==> id in s.entries && !Gone(s, id)
    ensures multiset(t.removed)[id] == multiset(s.removed)[id] + if id in s.entries && Gone(s, id) then 1 else 0
  {
    assert t.removed == s.removed + t.removed[|s.removed|..];
    assert multiset(t.removed) == multiset(s.removed) + multiset(Expired(s));
  }

  /** Every entry is removed exactly once, and a live handle keeps its entry until the scope closes. */
  lemma RemovedExactlyOnce(states: seq<State>, events: seq<Event>, i: nat, id: Id)
    requires Run(states, events) && i < |states| && id < states[i].next
    ensures multiset(states[i].removed)[id] == if id in states[i].entries then 0 else 1
    ensures states[i].closed ==> id !in states[i].entries
    ensures id in states[i].handles
    ensures states[i].handles[id] > 0 && !states[i].closed ==> id in states[i].entries
  {
    RunInv(states, events, i);
  }

  /** The scope's thread never changes. */
  lemma {:induction false} OriginStays(states: seq<State>, events: seq<Event>, i: nat)
    requires Run(states, events) && i < |states|
    ensures states[i].origin == states[0].origin
  {
    if i > 0 {
      OriginStays(states, events, i - 1);
      OriginStep(states[i - 1], events[i - 1], states[i]);
    }
  }

  lemma HandleOrigin(s: State, e: Event, t: State)
    requires HandleNext(s, e, t)
    ensures t.origin == s.origin
    ensures t.removed != s.removed ==> e.thread == s.origin
  {
  }

  lemma OriginStep(s: State, e: Event, t: State)
    requires Next(s, e, t)
    ensures t.origin == s.origin
    ensures t.removed != s.removed ==> e.thread == s.origin
  {
    if !Local(e.action) {
      HandleOrigin(s, e, t);
    }
  }

  /**
   Handles may be dropped by any thread, but in every run only the thread the scope
   began on ever releases a native request.
   */
  lemma RemovedOnOrigin(states: seq<State>, events: seq<Event>, i: nat)
    requires Run(states, events) && i < |events| && states[i + 1].removed != states[i].removed
    ensures events[i].thread == states[0].origin
  {
    OriginStays(states, events, i);
    OriginStep(states[i], events[i], states[i + 1]);
  }
}
