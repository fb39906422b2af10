/**
 Policy bindings (policy.rs): a runtime remembers, per canonical site root, which
 policy handle governs it and whether generation into it has started.
 */
module PolicyBindings {
  import opened Bytes

  type Root = string

  /** A policy handle; two handles are the same only if they share one allocation. */
  datatype Policy = Policy(id: nat, root: Root)

  datatype Binding = Binding(policy: Option<Policy>, started: bool)
  type Bindings = map<Root, Binding>

  datatype PolicyError = AlreadyStarted | ConflictingPolicy

  const UNBOUND := Binding(None, false)

  function At(bindings: Bindings, root: Root): Binding {
    if root in bindings then bindings[root] else UNBOUND
  }

  function Checked(bindings: Bindings, p: Policy): Result<(), PolicyError> {
    var b := At(bindings, p.root);
    if b.started then Err(AlreadyStarted)
    else if b.policy.Some? && b.policy.value != p then Err(ConflictingPolicy)
    else Ok(())
  }

  function Bound(bindings: Bindings, p: Policy): Bindings {
    bindings[p.root := At(bindings, p.root).(policy := Some(p))]
  }

  function Started(bindings: Bindings, root: Root): Bindings {
    bindings[root := At(bindings, root).(started := true)]
  }

  class PolicyState {
    var bindings: Bindings

    constructor ()
      ensures bindings == map[]
    {
      bindings := map[];
    }

    method Check(p: Policy) returns (r: Result<(), PolicyError>)
      ensures r == Checked(bindings, p)
    {
      if p.root !in bindings {
        return Ok(());
      }
      var binding := bindings[p.root];
      if binding.started {
        return Err(AlreadyStarted);
      }
      if binding.policy.Some? && binding.policy.value != p {
        return Err(ConflictingPolicy);
      }
      r := Ok(());
    }

    method Bind(p: Policy)
      modifies this
      ensures bindings == Bound(old(bindings), p)
    {
      var entry := if p.root in bindings then bindings[p.root] else UNBOUND;
      bindings := bindings[p.root := entry.(policy := Some(p))];
    }

    /** `canonical` is what resolving the site root gave, if it could be resolved. */
    method Start(canonical: Option<Root>) returns (p: Option<Policy>)
      modifies this
      ensures canonical.None? ==> bindings == old(bindings) && p == None
      ensures canonical.Some? ==> bindings == Started(old(bindings), canonical.value)
                                  && p == At(old(bindings), canonical.value).policy
    {
      if canonical.None? {
        return None;
      }
      var entry := if canonical.value in bindings then bindings[canonical.value] else UNBOUND;
      bindings := bindings[canonical.value := entry.(started := true)];
      p := entry.policy;
    }
  }

  /** Binds one runtime. */
  method BindRuntime(runtime: PolicyState, p: Policy) returns (r: Result<(), PolicyError>)
    modifies runtime
    ensures r == Checked(old(runtime.bindings), p)
    ensures runtime.bindings == if r.Ok? then Bound(old(runtime.bindings), p) else old(runtime.bindings)
  {
    r := runtime.Check(p);
    if r.Ok? {
      runtime.Bind(p);
    }
  }

  /** Drops repeated runtimes, so that each is locked once. */
  function Unique(runtimes: seq<PolicyState>): (r: seq<PolicyState>)
    ensures forall i :: 0 <= i < |r| ==> r[i] in runtimes
    ensures forall x :: x in runtimes ==> x in r
    ensures forall i, j :: 0 <= i < j < |r| ==> r[i] != r[j]
  {
    if runtimes == [] then []
    else
      var rest := Unique(runtimes[..|runtimes| - 1]);
      if runtimes[|runtimes| - 1] in rest then rest else rest + [runtimes[|runtimes| - 1]]
  }

  /** Binds every runtime behind the routes, or none. */
  method ConfigureRoutes(routes: seq<PolicyState>, p: Policy) returns (r: Result<(), PolicyError>)
    modifies routes
    ensures r.Ok? <==> forall x :: x in routes ==> old(Checked(x.bindings, p)).Ok?
    ensures r.Ok? ==> forall x :: x in routes ==> x.bindings == Bound(old(x.bindings), p)
    ensures r.Err? ==> forall x :: x in routes ==> x.bindings == old(x.bindings)
    ensures r.Err? ==> exists x :: x in routes && old(Checked(x.bindings, p)) == r
  {
    var runtimes := Unique(routes);
    var i := 0;
    while i < |runtimes|
      invariant 0 <= i <= |runtimes|
      invariant forall x :: x in routes ==> x.bindings == old(x.bindings)
      invariant forall j :: 0 <= j < i ==> Checked(runtimes[j].bindings, p).Ok?
    {
      var checked := runtimes[i].Check(p);
      if checked.Err? {
        assert runtimes[i] in routes;
        return Err(checked.error);
      }
      i := i + 1;
    }
    i := 0;
    assert forall x :: x in routes ==> x in runtimes;
    while i < |runtimes|
      invariant 0 <= i <= |runtimes|
      invariant forall j :: 0 <= j < |runtimes| ==> runtimes[j] in routes
      invariant forall j :: 0 <= j < i ==> runtimes[j].bindings == Bound(old(runtimes[j].bindings), p)
      invariant forall j :: i <= j < |runtimes| ==> runtimes[j].bindings == old(runtimes[j].bindings)
    {
      runtimes[i].Bind(p);
      i := i + 1;
    }
    r := Ok(());
  }

  // ---- Histories of many runtimes ----

  type Runtime = nat
  type World = map<Runtime, Bindings>

  datatype Call =
    | BindCall(runtime: Runtime, policy: Policy)
    | ConfigureCall(routes: seq<Runtime>, policy: Policy)
    | StartCall(runtime: Runtime, canonical: Option<Root>)

  function Of(w: World, r: Runtime): Bindings {
    if r in w then w[r] else map[]
  }

  function Rebind(w: World, routes: seq<Runtime>, p: Policy): World {
    map r | r in w.Keys + (set x | x in routes) :: if r in routes then Bound(Of(w, r), p) else Of(w, r)
  }

  predicate AllChecked(w: World, routes: seq<Runtime>, p: Policy) {
    forall r :: r in routes ==> Checked(Of(w, r), p).Ok?
  }

  function Perform(w: World, c: Call): World {
    match c
    case BindCall(r, p) => if Checked(Of(w, r), p).Ok? then w[r := Bound(Of(w, r), p)] else w
    case ConfigureCall(routes, p) => if AllChecked(w, routes, p) then Rebind(w, routes, p) else w
    case StartCall(r, canonical) => if canonical.Some? then w[r := Started(Of(w, r), canonical.value)] else w
  }

  /** What a start call returns. */
  function Reply(w: World, r: Runtime, root: Root): Option<Policy> {
    At(Of(w, r), root).policy
  }

  function PerformAll(w: World, calls: seq<Call>): World
    decreases |calls|
  {
    if calls == [] then w else PerformAll(Perform(w, calls[0]), calls[1..])
  }

  /** A failing call changes no runtime at all. */
  lemma FailedConfigureChangesNothing(w: World, routes: seq<Runtime>, p: Policy, r: Runtime)
    requires r in routes && Checked(Of(w, r), p).Err?
    ensures Perform(w, ConfigureCall(routes, p)) == w
  {
    assert !AllChecked(w, routes, p);
  }

  /** How one runtime's binding of one root may change in a call. */
  predicate Evolves(b: Binding, c: Binding, root: Root) {
    && (b.started ==> c == b)
    && (b.policy.Some? ==> c.policy == b.policy)
    && (c.policy.Some? && b.policy.None? ==> c.policy.value.root == root && !c.started)
  }

  lemma CallEvolves(w: World, c: Call, r: Runtime, root: Root)
    ensures Evolves(At(Of(w, r), root), At(Of(Perform(w, c), r), root), root)
  {
    match c
    case BindCall(x, p) =>
    case ConfigureCall(routes, p) =>
      if AllChecked(w, routes, p) {
        assert r in routes ==> Checked(Of(w, r), p).Ok?;
      }
    case StartCall(x, canonical) =>
  }

  /**
   Over every sequence of calls: a started root keeps its policy (or keeps having
   none), so all later starts return it; and a handle, once it governs a root of a
   runtime, is never replaced by another.
   */
  lemma {:induction false} BindingsPersist(w: World, calls: seq<Call>, r: Runtime, root: Root)
    ensures
      var before, after := At(Of(w, r), root), At(Of(PerformAll(w, calls), r), root);
      && (before.started ==> after == before)
      && (before.policy.Some? ==> after.policy == before.policy)
    decreases |calls|
  {
    if calls != [] {
      CallEvolves(w, calls[0], r, root);
      BindingsPersist(Perform(w, calls[0]), calls[1..], r, root);
    }
  }

  lemma {:induction false} PerformAllAppend(w: World, a: seq<Call>, b: seq<Call>)
    ensures PerformAll(w, a + b) == PerformAll(PerformAll(w, a), b)
    decreases |a|
  {
    if a == [] {
      assert a + b == b;
    } else {
      assert (a + b)[1..] == a[1..] + b;
      PerformAllAppend(Perform(w, a[0]), a[1..], b);
    }
  }

  /** Two starts of one root, with anything in between, return the same policy. */
  lemma {:induction false} StartsAgree(calls: seq<Call>, between: seq<Call>, r: Runtime, root: Root)
    ensures
      var w := PerformAll(map[], calls);
      var later := PerformAll(map[], calls + [StartCall(r, Some(root))] + between);
      Reply(later, r, root) == Reply(w, r, root)
  {
    var w := PerformAll(map[], calls);
    var start := [StartCall(r, Some(root))];
    PerformAllAppend(map[], calls + start, between);
    PerformAllAppend(map[], calls, start);
    assert PerformAll(w, start) == Perform(w, start[0]) by {
      assert start[1..] == [];
    }
    BindingsPersist(Perform(w, start[0]), between, r, root);
  }

  /** A root counts as started exactly if a start of it was among the calls. */
  lemma {:induction false} StartedIffCalled(calls: seq<Call>, r: Runtime, root: Root)
    ensures At(Of(PerformAll(map[], calls), r), root).started <==> StartCall(r, Some(root)) in calls
    decreases |calls|
  {
    if calls != [] {
      var before, last := calls[..|calls| - 1], calls[|calls| - 1];
      assert calls == before + [last];
      StartedIffCalled(before, r, root);
      PerformAllAppend(map[], before, [last]);
      assert PerformAll(PerformAll(map[], before), [last]) == Perform(PerformAll(map[], before), last) by {
        assert [last][1..] == [];
      }
      StartedStep(PerformAll(map[], before), last, r, root);
    }
  }

  lemma StartedStep(w: World, c: Call, r: Runtime, root: Root)
    ensures At(Of(Perform(w, c), r), root).started <==> At(Of(w, r), root).started || c == StartCall(r, Some(root))
  {
  }

  /**
   After any calls, a policy is refused as started exactly if its root was started, and as
   conflicting exactly if it was not and another handle governs the root by then.
   */
  lemma {:induction false} RefusalReason(calls: seq<Call>, r: Runtime, p: Policy)
    ensures
      var w := PerformAll(map[], calls);
      var answer, governing := Checked(Of(w, r), p), At(Of(w, r), p.root).policy;
      && (answer == Err(AlreadyStarted) <==> StartCall(r, Some(p.root)) in calls)
      && (answer == Err(ConflictingPolicy) <==>
            StartCall(r, Some(p.root)) !in calls && governing.Some? && governing != Some(p))
  {
    StartedIffCalled(calls, r, p.root);
  }

  /**
   Repeating the same handle succeeds and changes nothing, whatever was called since the
   first time, as long as that root was not started.
   */
  lemma {:induction false} RepeatSucceeds(calls: seq<Call>, between: seq<Call>, r: Runtime, p: Policy)
    requires Checked(Of(PerformAll(map[], calls), r), p).Ok?
    requires StartCall(r, Some(p.root)) !in between
    ensures
      var w := PerformAll(map[], calls + [BindCall(r, p)] + between);
      && Checked(Of(w, r), p).Ok? && At(Of(w, r), p.root) == Binding(Some(p), false)
      && Perform(w, BindCall(r, p)) == w
  {
    var w, first := PerformAll(map[], calls), [BindCall(r, p)];
    var all := calls + first + between;
    PerformAllAppend(map[], calls + first, between);
    PerformAllAppend(map[], calls, first);
    assert PerformAll(w, first) == Perform(w, first[0]) by {
      assert first[1..] == [];
    }
    BindingsPersist(Perform(w, first[0]), between, r, p.root);
    StartedIffCalled(calls, r, p.root);
    StartedIffCalled(all, r, p.root);
    var after := PerformAll(map[], all);
    assert r in after && p.root in after[r];
    assert Bound(Of(after, r), p) == Of(after, r);
  }

  /** A handle only ever governs its own root. */
  lemma {:induction false} HandlesGovernTheirRoot(w: World, calls: seq<Call>, r: Runtime, root: Root)
    requires At(Of(w, r), root).policy.Some? ==> At(Of(w, r), root).policy.value.root == root
    ensures
      var after := At(Of(PerformAll(w, calls), r), root);
      after.policy.Some? ==> after.policy.value.root == root
    decreases |calls|
  {
    if calls != [] {
      CallEvolves(w, calls[0], r, root);
      HandlesGovernTheirRoot(Perform(w, calls[0]), calls[1..], r, root);
    }
  }
}
