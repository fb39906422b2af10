/**
 Any number of cooperating processes over one site root. A state holds the real
 tree, the root lease and every handle's cached inventory; a step is one file
 operation, one cache update, or the failure or crash of a participant.

 Publishers waiting for the lease hold nothing, so only the holder appears.
 Noncooperating writers are outside the contract: the tree changes only here.
 */
module StorageProtocol {
  import opened Bytes
  import opened ControlRecord
  import opened SiteTree
  import opened Staging
  import opened Storage

  datatype HandleState = HandleState(limits: Limits, cached: Option<Cached>)

  datatype Job =
    /** The lease is held and the record has been read. */
    | Leased(q: Request, generation: U64)
    /** Admitted and announced; `todo` are the file operations still to come. */
    | Staging(q: Request, generation: U64, pending: Pending, todo: seq<Op>)
    /** Published; `commit` has observed the local usage. */
    | Observed(generation: U64, updated: Option<Counted>)
    /** `commit` has tried to write its generation and is about to remember. */
    | Concluded(cached: Option<Cached>)
    /** The publication failed; its temporaries are being removed, best effort. */
    | Cleaning(q: Request, existing: Path, dir: Path)

  datatype Lease = Free | Held(handle: nat, job: Job)

  datatype State = State(
    tree: Listing,
    shared: nat,                     // unlimited publishers holding the shared lease
    lease: Lease,                    // the exclusive lease
    handles: map<nat, HandleState>)

  datatype Action =
    | Touch                                 // opening the control entry creates it empty
    | Install(handle: nat, limits: Limits)
    | TornInstall(limits: Limits, written: nat)
    | Forget(handle: nat)                   // a process ends while it holds no lease
    | Share
    | Unlimited(tree: Listing)              // any operation of an unlimited publisher
    | Unshare
    | Acquire(handle: nat, q: Request)
    | Admit
    | Decline(scanned: bool)                // refused, or stopped before announcing
    | Execute                               // the next file operation
    | Split(part: nat)                      // the next write proceeds in two parts
    | Fail                                  // error or unwinding after the announcement
    | CleanUp(temp: Name)
    | GiveUp                                // cleanup over, lease released
    | Observe(readable: bool)
    | Conclude(writable: bool)
    | Remember
    | Crash                                 // the lease holder's process stops

  predicate Init(s: State) {
    s.shared == 0 && s.lease.Free? && s.handles == map[] && Installed(s.tree).None?
  }

  /** The holder's directory, edited in place. */
  function Edited(s: State, existing: Path, next: Listing): Listing
    requires At(s.tree, existing).Some?
  {
    SetAt(s.tree, existing, next)
  }

  predicate Next(s: State, a: Action, t: State) {
    match a
    case Touch =>
      Get(s.tree, Control).None? && t == s.(tree := Put(s.tree, Control, File([])))
    case Install(h, limits) =>
      && s.lease.Free? && s.shared == 0 && h !in s.handles
      && Installation(s.tree, limits).Some?
      && var (tree, cached) := Installation(s.tree, limits).value;
      t == s.(tree := tree, handles := s.handles[h := HandleState(limits, Some(cached))])
    case TornInstall(limits, written) =>
      && s.lease.Free? && s.shared == 0 && written < RECORD_LEN
      && Get(s.tree, Control) == Some(File([]))
      && t == s.(tree := Put(s.tree, Control, File(Encoding(limits)[..written])))
    case Forget(h) =>
      (s.lease.Held? ==> s.lease.handle != h) && t == s.(handles := s.handles - {h})
    case Share =>
      && s.lease.Free? && Get(s.tree, Control) == Some(File([]))
      && t == s.(shared := s.shared + 1)
    case Unlimited(tree) =>
      s.shared > 0 && Get(tree, Control) == Get(s.tree, Control) && t == s.(tree := tree)
    case Unshare =>
      s.shared > 0 && t == s.(shared := s.shared - 1)
    case Acquire(h, q) =>
      && s.lease.Free? && s.shared == 0 && h in s.handles && ValidRequest(q) && Control !in q.parents
      && Installed(s.tree).Some? && Installed(s.tree).value.limits == s.handles[h].limits
      && t == s.(lease := Held(h, Leased(q, Installed(s.tree).value.generation)))
    case Admit =>
      && s.lease.Held? && s.lease.job.Leased? && s.lease.handle in s.handles
      && var Held(h, Leased(q, g)) := s.lease;
      && var admission := Admission(s.tree, s.handles[h].limits, s.handles[h].cached, g, q);
      && admission.Some?
      && t == s.(tree := Announced(s.tree, g + 1),
                 handles := s.handles[h := s.handles[h].(cached := Some(Cached(g, admission.value.total)))],
                 lease := Held(h, Staging(q, g + 1, admission.value,
                                          Plan(q.parents[|admission.value.existing|..], q))))
    case Decline(scanned) =>
      && s.lease.Held? && s.lease.job.Leased? && s.lease.handle in s.handles
      && var Held(h, Leased(_, g)) := s.lease;
      && (scanned ==> Fits(FullUsage(s.tree)))
      && t == s.(lease := Free,
                 handles := if scanned
                   then s.handles[h := s.handles[h].(cached := Some(Cached(g, FullUsage(s.tree))))] else s.handles)
    case Execute =>
      && s.lease.Held? && s.lease.job.Staging? && s.lease.job.todo != []
      && var Held(h, Staging(q, g, p, todo)) := s.lease;
      && At(s.tree, p.existing).Some? && Apply(At(s.tree, p.existing).value, todo[0]).Some?
      && t == s.(tree := Edited(s, p.existing, Apply(At(s.tree, p.existing).value, todo[0]).value),
                 lease := Held(h, Staging(q, g, p, todo[1..])))
    case Split(part) =>
      && s.lease.Held? && s.lease.job.Staging? && s.lease.job.todo != [] && s.lease.job.todo[0].Write?
      && var Held(h, Staging(q, g, p, todo)) := s.lease;
      && var Write(dir, name, bytes) := todo[0];
      && part <= |bytes|
      && t == s.(lease := Held(h, Staging(q, g, p, Halved(todo, part))))
    case Fail =>
      && s.lease.Held? && s.lease.job.Staging?
      && var Held(h, Staging(q, _, p, _)) := s.lease;
      && |p.existing| <= |q.parents|
      && t == s.(lease := Held(h, Cleaning(q, p.existing, q.parents[|p.existing|..])))
    case CleanUp(temp) =>
      && s.lease.Held? && s.lease.job.Cleaning?
      && var Held(_, Cleaning(q, existing, dir)) := s.lease;
      && (temp == q.htmlTemp || temp == q.metadataTemp) && temp.Temporary?
      && At(s.tree, existing).Some? && At(At(s.tree, existing).value, dir).Some?
      && var here := At(s.tree, existing).value;
      && Plain(Get(At(here, dir).value, temp))
      && t == s.(tree := Edited(s, existing, RemoveIn(here, dir, temp)))
    case GiveUp =>
      s.lease.Held? && s.lease.job.Cleaning? && t == s.(lease := Free)
    case Observe(readable) =>
      && s.lease.Held? && s.lease.job.Staging? && s.lease.job.todo == []
      && var Held(h, Staging(_, g, p, _)) := s.lease;
      && t == s.(lease := Held(h, Observed(g, if readable then Observation(s.tree, p) else None)))
    case Conclude(writable) =>
      && s.lease.Held? && s.lease.job.Observed?
      && var Held(h, Observed(g, updated)) := s.lease;
      && var bumped := writable && g + 1 < U64_LIMIT;
      && t == s.(tree := if bumped then Announced(s.tree, g + 1) else s.tree,
                 lease := Held(h, Concluded(
                   if bumped && updated.Some? then Some(Cached(g + 1, updated.value)) else None)))
    case Remember =>
      && s.lease.Held? && s.lease.job.Concluded? && s.lease.handle in s.handles
      && var Held(h, Concluded(cached)) := s.lease;
      && t == s.(lease := Free, handles := s.handles[h := s.handles[h].(cached := cached)])
    case Crash =>
      s.lease.Held? && t == s.(lease := Free, handles := s.handles - {s.lease.handle})
  }

  function Halved(todo: seq<Op>, part: nat): seq<Op>
    requires todo != [] && todo[0].Write? && part <= |todo[0].bytes|
  {
    [Write(todo[0].dir, todo[0].name, todo[0].bytes[..part]),
     Write(todo[0].dir, todo[0].name, todo[0].bytes[part..])] + todo[1..]
  }

  /** The new site total `commit` derives from the touched directory. */
  function Observation(tree: Listing, p: Pending): Option<Counted> {
    match At(tree, p.existing)
    case Some(here) =>
      if LocalScannable(here, p.created) && Fits(LocalView(here, p.created))
      then Settled(p, LocalView(here, p.created)) else None
    case None => None
  }

  // ---- The invariant ----

  predicate UnderLimit(total: nat, limits: Limits, r: Resource) {
    LimitOf(limits, r).Some? ==> total <= LimitOf(limits, r).value
  }

  /** Usage plus the cost of everything still to do stays under the limit, and the local view accounts for all change. */
  predicate Budget(tree: Listing, limits: Limits, p: Pending, todo: seq<Op>, r: Resource)
    requires At(tree, p.existing).Some?
  {
    var here := At(tree, p.existing).value;
    && UnderLimit(Total(tree, r) + CostSum(todo, here, r), limits, r)
    && Total(tree, r) + p.before.Of(r) == p.total.Of(r) + LocalTotal(here, p.created, r)
  }

  predicate Budgets(tree: Listing, limits: Limits, p: Pending, todo: seq<Op>) {
    && At(tree, p.existing).Some?
    && PlanShape(todo, p.created)
    && Budget(tree, limits, p, todo, LogicalFileBytes)
    && Budget(tree, limits, p, todo, NamespaceEntries)
  }

  /** A cache is never ahead of the record, and a current cache is an exact inventory. */
  predicate CacheExact(tree: Listing, record: Record, cached: Option<Cached>) {
    cached.Some? ==>
      && cached.value.generation <= record.generation
      && (cached.value.generation == record.generation ==> cached.value.usage == FullUsage(tree))
  }

  predicate Behind(cached: Option<Cached>, generation: U64) {
    cached.Some? ==> cached.value.generation < generation
  }

  predicate AllBehind(s: State, generation: U64) {
    forall h :: h in s.handles ==> Behind(s.handles[h].cached, generation)
  }

  predicate JobInv(s: State, record: Record, job: Job) {
    match job
    case Leased(q, g) => g == record.generation && ValidRequest(q) && Control !in q.parents
    case Staging(q, g, p, todo) =>
      && g == record.generation && AllBehind(s, g)
      && Budgets(s.tree, record.limits, p, todo)
    case Observed(g, updated) =>
      && g == record.generation && AllBehind(s, g)
      && (updated.Some? ==> updated.value == FullUsage(s.tree))
    case Concluded(cached) =>
      && AllBehind(s, record.generation)
      && (cached.Some? ==> cached.value.generation == record.generation && cached.value.usage == FullUsage(s.tree))
    case Cleaning(_, _, _) => AllBehind(s, record.generation)
  }

  predicate Bounded(s: State) {
    Installed(s.tree).Some? ==> Within(FullUsage(s.tree), Installed(s.tree).value.limits)
  }

  predicate CachesExact(s: State) {
    forall h :: h in s.handles ==>
      && Installed(s.tree).Some?
      && s.handles[h].limits == Installed(s.tree).value.limits
      && CacheExact(s.tree, Installed(s.tree).value, s.handles[h].cached)
  }

  predicate Inv(s: State) {
    && Bounded(s)
    && CachesExact(s)
    && (s.shared > 0 ==> Get(s.tree, Control) == Some(File([])) && s.lease.Free?)
    && (s.lease.Held? ==>
          && s.shared == 0 && s.lease.handle in s.handles && Installed(s.tree).Some?
          && JobInv(s, Installed(s.tree).value, s.lease.job))
  }

  // ---- Announcing ----

  /** Writing a generation changes the record's generation and no count anywhere. */
  lemma {:induction false} AnnouncedEffect(tree: Listing, g: U64, record: Record)
    requires Installed(tree) == Some(record)
    ensures Installed(Announced(tree, g)) == Some(Record(record.limits, g))
    ensures forall r :: Total(Announced(tree, g), r) == Total(tree, r)
    ensures FullUsage(Announced(tree, g)) == FullUsage(tree)
  {
    var content := Get(tree, Control).value.content;
    BumpKeepsLimits(content, record, g);
    GetPut(tree, Control, File(WithGeneration(content, g)), Control);
    forall r ensures Total(Announced(tree, g), r) == Total(tree, r) {
      TotalPut(tree, Control, File(WithGeneration(content, g)), r);
    }
  }

  lemma {:induction false} AnnouncedBelow(tree: Listing, g: U64, record: Record, existing: Path, created: Option<Name>, todo: seq<Op>, r: Resource)
    requires Installed(tree) == Some(record)
    requires At(tree, existing).Some?
    ensures At(Announced(tree, g), existing).Some?
    ensures
      var here, after := At(tree, existing).value, At(Announced(tree, g), existing).value;
      && LocalTotal(after, created, r) == LocalTotal(here, created, r)
      && CostSum(todo, after, r) <= CostSum(todo, here, r)
  {
    var node := File(WithGeneration(Get(tree, Control).value.content, g));
    if existing == [] {
      AnnouncedEffect(tree, g, record);
      assert Announced(tree, g) == PutIn(tree, [], Control, node);
      CostSumPutIn(todo, tree, [], Control, node, r);
      ElsewherePut(tree, Control, node, created, r);
      LocalAndElsewhere(tree, created, r);
      LocalAndElsewhere(Announced(tree, g), created, r);
      assert Total(Announced(tree, g), r) == Total(tree, r);
    } else {
      GetPut(tree, Control, node, existing[0]);
      assert existing[0] != Control;
    }
  }

  // ---- Staging ----

  lemma {:induction false} EditKeepsRecord(tree: Listing, existing: Path, next: Listing)
    requires At(tree, existing).Some? && Installed(tree).Some?
    requires existing == [] ==> Get(next, Control) == Get(tree, Control)
    ensures Installed(SetAt(tree, existing, next)) == Installed(tree)
  {
    ControlSetAt(tree, existing, next);
  }

  lemma {:induction false} ExecuteBudget(tree: Listing, limits: Limits, p: Pending, todo: seq<Op>, r: Resource)
    requires todo != [] && Budgets(tree, limits, p, todo)
    requires Apply(At(tree, p.existing).value, todo[0]).Some?
    ensures
      var next := SetAt(tree, p.existing, Apply(At(tree, p.existing).value, todo[0]).value);
      && At(next, p.existing) == Apply(At(tree, p.existing).value, todo[0])
      && Budget(next, limits, p, todo[1..], r)
  {
    var here := At(tree, p.existing).value;
    var after := Apply(here, todo[0]).value;
    AtSetAt(tree, p.existing, after);
    TotalSetAt(tree, p.existing, after, r);
    ApplyBudget(here, todo, r);
    ApplyElsewhere(here, todo[0], p.created, r);
    DeltaLaw(tree, p.existing, after, p.created, r);
    assert Budget(tree, limits, p, todo, r) by {
      if r.LogicalFileBytes? {} else {}
    }
  }

  lemma PlanShapeTail(todo: seq<Op>, created: Option<Name>)
    requires todo != [] && PlanShape(todo, created)
    ensures PlanShape(todo[1..], created)
  {
    var rest := todo[1..];
    assert forall i :: 0 <= i < |rest| ==> rest[i] == todo[i + 1];
  }

  lemma HalvedShape(todo: seq<Op>, part: nat, created: Option<Name>)
    requires todo != [] && todo[0].Write? && part <= |todo[0].bytes|
    requires PlanShape(todo, created)
    ensures PlanShape(Halved(todo, part), created)
  {
    var h := Halved(todo, part);
    assert forall i :: 2 <= i < |h| ==> h[i] == todo[i - 1];
  }

  lemma {:induction false} HalvedCost(todo: seq<Op>, part: nat, listing: Listing, r: Resource)
    requires todo != [] && todo[0].Write? && part <= |todo[0].bytes|
    ensures CostSum(Halved(todo, part), listing, r) == CostSum(todo, listing, r)
  {
    var h := Halved(todo, part);
    assert h[1..][1..] == todo[1..];
    assert CostSum(h, listing, r) == Cost(h[0], listing, r) + CostSum(h[1..], listing, r);
    assert CostSum(h[1..], listing, r) == Cost(h[1], listing, r) + CostSum(todo[1..], listing, r);
  }

  // ---- Each step keeps the invariant ----

  /** An installation caches the exact inventory of the tree it leaves, within its limits. */
  lemma InstallationEffect(tree: Listing, limits: Limits)
    requires Installation(tree, limits).Some?
    ensures
      var (after, cached) := Installation(tree, limits).value;
      && Installed(after) == Some(Record(limits, cached.generation))
      && cached.usage == FullUsage(after) && Within(FullUsage(after), limits)
      && (Installed(tree).Some? ==> after == tree)
  {
    GetPut(tree, Control, File([]), Control);
    var root := if Get(tree, Control).None? then Put(tree, Control, File([])) else tree;
    if Get(root, Control) == Some(File([])) {
      FirstRecord(root, limits);
    }
  }

  /** A file under a name that held no directory leaves the scan what it was. */
  lemma {:induction false} PutFileScannable(listing: Listing, name: Name, content: seq<Byte>)
    requires Plain(Get(listing, name))
    ensures Scannable(Put(listing, name, File(content))) <==> Scannable(listing)
  {
    if listing.Entry? && listing.name != name {
      PutFileScannable(listing.rest, name, content);
    }
  }

  /**
   Installation is exact: on a root that can be scanned it succeeds if and only if the
   site, with its record in place, is within the limits; a record already there must
   carry the same ones, and any other content of the control entry is refused.
   */
  lemma {:induction false} InstallationIff(tree: Listing, limits: Limits)
    requires Scannable(tree)
    ensures Installation(tree, limits).Some? <==>
      if Installed(tree).Some? then
        Installed(tree).value.limits == limits && Fits(FullUsage(tree)) && Within(FullUsage(tree), limits)
      else
        && (Get(tree, Control).None? || Get(tree, Control) == Some(File([])))
        && var after := FullUsage(Put(tree, Control, File(Encoding(limits))));
        Fits(after) && Within(after, limits)
  {
    if Get(tree, Control).None? {
      var root := Put(tree, Control, File([]));
      GetPut(tree, Control, File([]), Control);
      PutFileScannable(tree, Control, []);
      TotalPut(tree, Control, File([]), LogicalFileBytes);
      TotalPut(tree, Control, File([]), NamespaceEntries);
    }
    TotalPut(tree, Control, File(Encoding(limits)), LogicalFileBytes);
    TotalPut(tree, Control, File(Encoding(limits)), NamespaceEntries);
  }

  lemma {:induction false} FirstRecord(root: Listing, limits: Limits)
    requires Get(root, Control) == Some(File([]))
    ensures
      var after := Put(root, Control, File(Encoding(limits)));
      && Installed(after) == Some(Record(limits, 0))
      && FullUsage(after) == Usage(FullUsage(root).bytes + RECORD_LEN, FullUsage(root).entries)
  {
    FreshGeneration(limits);
    GetPut(root, Control, File(Encoding(limits)), Control);
    TotalPut(root, Control, File(Encoding(limits)), LogicalFileBytes);
    TotalPut(root, Control, File(Encoding(limits)), NamespaceEntries);
  }

  lemma InstallStep(s: State, h: nat, limits: Limits, t: State)
    requires Inv(s) && Next(s, Install(h, limits), t)
    ensures Inv(t)
  {
    InstallationEffect(s.tree, limits);
    if Installed(s.tree).None? {
      assert s.handles == map[];
    }
  }

  /** What an admission has established about the tree it was computed on. */
  lemma {:induction false} AdmissionMeaning(tree: Listing, limits: Limits, cached: Option<Cached>, g: U64, q: Request)
    requires Admission(tree, limits, cached, g, q).Some?
    ensures
      var p := Admission(tree, limits, cached, g, q).value;
      && |p.existing| <= |q.parents| && At(tree, p.existing).Some?
      && p.created == Created(q.parents[|p.existing|..])
      && Some(p.total) == SiteTotal(tree, cached, g)
      && p.before == LocalView(At(tree, p.existing).value, p.created)
      && Within(Peak(p.total, At(tree, p.existing).value, |q.parents| - |p.existing|, q), limits)
      && g + 1 < U64_LIMIT
  {
    ResolveMeaning(tree, q.parents, Resolve(tree, q.parents).value);
  }

  /** An admission from an exact cache, once announced, budgets the whole plan. */
  lemma AdmissionBudgets(tree: Listing, record: Record, cached: Option<Cached>, q: Request)
    requires Installed(tree) == Some(record) && CacheExact(tree, record, cached)
    requires ValidRequest(q) && Control !in q.parents
    requires Admission(tree, record.limits, cached, record.generation, q).Some?
    ensures
      var p := Admission(tree, record.limits, cached, record.generation, q).value;
      && record.generation + 1 < U64_LIMIT && |p.existing| <= |q.parents|
      && p.total == FullUsage(tree)
      && Budgets(Announced(tree, record.generation + 1), record.limits, p, Plan(q.parents[|p.existing|..], q))
  {
    AdmissionMeaning(tree, record.limits, cached, record.generation, q);
    var p := Admission(tree, record.limits, cached, record.generation, q).value;
    PlanIsShaped(q.parents[|p.existing|..], q);
    AdmitBudget(tree, record, record.generation, p, q, LogicalFileBytes);
    AdmitBudget(tree, record, record.generation, p, q, NamespaceEntries);
  }

  /** What the invariant says of a publisher that has just taken the lease. */
  lemma LeasedFacts(s: State)
    requires Inv(s) && s.lease.Held? && s.lease.job.Leased? && s.lease.handle in s.handles
    ensures Installed(s.tree).Some?
    ensures
      var Held(h, Leased(q, g)) := s.lease;
      var record := Installed(s.tree).value;
      && g == record.generation && s.handles[h].limits == record.limits
      && CacheExact(s.tree, record, s.handles[h].cached) && ValidRequest(q) && Control !in q.parents
  {
  }

  lemma AdmitStep(s: State, t: State)
    requires Inv(s) && Next(s, Admit, t)
    ensures Inv(t)
  {
    LeasedFacts(s);
    var Held(h, Leased(q, g)) := s.lease;
    AdmitFrom(s, t, h, q, Installed(s.tree).value, s.handles[h].cached);
  }

  lemma AdmitFrom(s: State, t: State, h: nat, q: Request, record: Record, cached: Option<Cached>)
    requires Inv(s) && s.lease == Held(h, Leased(q, record.generation)) && Installed(s.tree) == Some(record)
    requires h in s.handles && s.handles[h] == HandleState(record.limits, cached)
    requires CacheExact(s.tree, record, cached) && ValidRequest(q) && Control !in q.parents
    requires Admission(s.tree, record.limits, cached, record.generation, q).Some? && record.generation + 1 < U64_LIMIT
    requires
      var p := Admission(s.tree, record.limits, cached, record.generation, q).value;
      && |p.existing| <= |q.parents|
      && t == s.(tree := Announced(s.tree, record.generation + 1),
                 handles := s.handles[h := s.handles[h].(cached := Some(Cached(record.generation, p.total)))],
                 lease := Held(h, Staging(q, record.generation + 1, p, Plan(q.parents[|p.existing|..], q))))
    ensures Inv(t)
  {
    AdmitEffect(s.tree, record, cached, q);
    AdmittedInv(s, t, h, record.generation, Admission(s.tree, record.limits, cached, record.generation, q).value, q);
  }

  /** An admission and its announcement, away from the rest of the state. */
  lemma AdmitEffect(tree: Listing, record: Record, cached: Option<Cached>, q: Request)
    requires Installed(tree) == Some(record) && CacheExact(tree, record, cached)
    requires ValidRequest(q) && Control !in q.parents
    requires Admission(tree, record.limits, cached, record.generation, q).Some?
    ensures record.generation + 1 < U64_LIMIT
    ensures
      var p, after := Admission(tree, record.limits, cached, record.generation, q).value, Announced(tree, record.generation + 1);
      && |p.existing| <= |q.parents|
      && Installed(after) == Some(Record(record.limits, record.generation + 1)) && FullUsage(after) == FullUsage(tree)
      && Budgets(after, record.limits, p, Plan(q.parents[|p.existing|..], q))
  {
    AdmissionBudgets(tree, record, cached, q);
    AnnouncedEffect(tree, record.generation + 1, record);
  }

  lemma AdmittedInv(s: State, t: State, h: nat, g: U64, p: Pending, q: Request)
    requires Inv(s) && s.lease.Held? && h in s.handles && g + 1 < U64_LIMIT
    requires |p.existing| <= |q.parents| && g == Installed(s.tree).value.generation
    requires t == s.(tree := Announced(s.tree, g + 1),
                     handles := s.handles[h := s.handles[h].(cached := Some(Cached(g, p.total)))],
                     lease := Held(h, Staging(q, g + 1, p, Plan(q.parents[|p.existing|..], q))))
    requires Installed(t.tree) == Some(Record(Installed(s.tree).value.limits, g + 1))
    requires FullUsage(t.tree) == FullUsage(s.tree)
    requires Budgets(t.tree, Installed(s.tree).value.limits, p, Plan(q.parents[|p.existing|..], q))
    ensures Inv(t)
  {
    assert AllBehind(t, g + 1);
  }

  lemma AdmitBudget(tree: Listing, record: Record, g: U64, p: Pending, q: Request, r: Resource)
    requires Installed(tree) == Some(record) && g + 1 < U64_LIMIT
    requires |p.existing| <= |q.parents| && At(tree, p.existing).Some?
    requires p.created == Created(q.parents[|p.existing|..])
    requires p.total == FullUsage(tree) && p.before == LocalView(At(tree, p.existing).value, p.created)
    requires Within(Peak(p.total, At(tree, p.existing).value, |q.parents| - |p.existing|, q), record.limits)
    ensures At(Announced(tree, g + 1), p.existing).Some?
    ensures Budget(Announced(tree, g + 1), record.limits, p, Plan(q.parents[|p.existing|..], q), r)
  {
    var chain := q.parents[|p.existing|..];
    var here := At(tree, p.existing).value;
    PlanWithinPeak(chain, q, here, r);
    AnnouncedEffect(tree, g + 1, record);
    AnnouncedBelow(tree, g + 1, record, p.existing, p.created, Plan(chain, q), r);
    assert Total(Announced(tree, g + 1), r) == Total(tree, r);
    assert p.total.Of(r) == Total(tree, r);
  }

  lemma ExecuteStep(s: State, t: State)
    requires Inv(s) && Next(s, Execute, t)
    ensures Inv(t)
  {
    var Held(h, Staging(q, g, p, todo)) := s.lease;
    var record := Installed(s.tree).value;
    var here := At(s.tree, p.existing).value;
    ExecuteBudget(s.tree, record.limits, p, todo, LogicalFileBytes);
    ExecuteBudget(s.tree, record.limits, p, todo, NamespaceEntries);
    PlanShapeTail(todo, p.created);
    if p.existing == [] {
      ApplyControl(here, todo[0]);
    }
    EditKeepsRecord(s.tree, p.existing, Apply(here, todo[0]).value);
  }

  lemma SplitStep(s: State, part: nat, t: State)
    requires Inv(s) && Next(s, Split(part), t)
    ensures Inv(t)
  {
    var Held(h, Staging(q, g, p, todo)) := s.lease;
    var here := At(s.tree, p.existing).value;
    HalvedShape(todo, part, p.created);
    HalvedCost(todo, part, here, LogicalFileBytes);
    HalvedCost(todo, part, here, NamespaceEntries);
  }

  lemma CleanUpStep(s: State, temp: Name, t: State)
    requires Inv(s) && Next(s, CleanUp(temp), t)
    ensures Inv(t)
  {
    var Held(_, Cleaning(q, existing, dir)) := s.lease;
    var here := At(s.tree, existing).value;
    var next := RemoveIn(here, dir, temp);
    if existing == [] {
      ControlRemoveIn(here, dir, temp);
    }
    EditKeepsRecord(s.tree, existing, next);
    TotalRemoveIn(here, dir, temp, LogicalFileBytes);
    TotalRemoveIn(here, dir, temp, NamespaceEntries);
    TotalSetAt(s.tree, existing, next, LogicalFileBytes);
    TotalSetAt(s.tree, existing, next, NamespaceEntries);
  }

  /** The delta law at work: the observed total is the real one. */
  lemma ObserveStep(s: State, readable: bool, t: State)
    requires Inv(s) && Next(s, Observe(readable), t)
    ensures Inv(t)
  {
    var Held(h, Staging(q, g, p, todo)) := s.lease;
    assert Budget(s.tree, Installed(s.tree).value.limits, p, todo, LogicalFileBytes);
    assert Budget(s.tree, Installed(s.tree).value.limits, p, todo, NamespaceEntries);
  }

  /** `commit` loses no total it could have kept: what it observes is the site's, whenever that can be read and counted. */
  lemma ObservationIsExact(s: State)
    requires Inv(s) && s.lease.Held? && s.lease.job.Staging? && s.lease.job.todo == []
    ensures
      var p := s.lease.job.pending;
      && At(s.tree, p.existing).Some?
      && var here := At(s.tree, p.existing).value;
      Observation(s.tree, p)
        == if LocalScannable(here, p.created) && Fits(LocalView(here, p.created)) && Fits(FullUsage(s.tree))
           then Some(FullUsage(s.tree)) else None
  {
    var p := s.lease.job.pending;
    var here := At(s.tree, p.existing).value;
    var limits := Installed(s.tree).value.limits;
    assert Budget(s.tree, limits, p, [], LogicalFileBytes);
    assert Budget(s.tree, limits, p, [], NamespaceEntries);
    LocalIsPart(s.tree, p.existing, p.created, LogicalFileBytes);
    LocalIsPart(s.tree, p.existing, p.created, NamespaceEntries);
  }

  lemma {:induction false} LocalIsPart(tree: Listing, existing: Path, created: Option<Name>, r: Resource)
    requires At(tree, existing).Some?
    ensures LocalTotal(At(tree, existing).value, created, r) <= Total(tree, r)
  {
    TotalSetAt(tree, existing, Nil, r);
    LocalAndElsewhere(At(tree, existing).value, created, r);
  }

  lemma ConcludeStep(s: State, writable: bool, t: State)
    requires Inv(s) && Next(s, Conclude(writable), t)
    ensures Inv(t)
  {
    var Held(h, Observed(g, updated)) := s.lease;
    if writable && g + 1 < U64_LIMIT {
      AnnouncedEffect(s.tree, g + 1, Installed(s.tree).value);
      ConcludedInv(s, t);
    }
  }

  lemma ConcludedInv(s: State, t: State)
    requires Inv(s) && s.lease.Held? && s.lease.job.Observed?
    requires t.lease.Held? && t.lease.job.Concluded? && t.lease.handle == s.lease.handle
    requires t.shared == 0 && t.handles == s.handles && s.lease.job.generation + 1 < U64_LIMIT
    requires Installed(t.tree) == Some(Record(Installed(s.tree).value.limits, s.lease.job.generation + 1))
    requires FullUsage(t.tree) == FullUsage(s.tree)
    requires t.lease.job.cached.Some? ==>
      s.lease.job.updated.Some?
      && t.lease.job.cached == Some(Cached(s.lease.job.generation + 1, s.lease.job.updated.value))
    ensures Inv(t)
  {
    assert AllBehind(t, s.lease.job.generation + 1);
  }

  lemma TouchStep(s: State, t: State)
    requires Inv(s) && Next(s, Touch, t)
    ensures Inv(t)
  {
    GetPut(s.tree, Control, File([]), Control);
  }

  lemma TornInstallStep(s: State, limits: Limits, written: nat, t: State)
    requires Inv(s) && Next(s, TornInstall(limits, written), t)
    ensures Inv(t)
  {
    TornInstallation(limits, written);
    GetPut(s.tree, Control, File(Encoding(limits)[..written]), Control);
    assert s.handles == map[];
  }

  lemma StepKeepsInv(s: State, a: Action, t: State)
    requires Inv(s) && Next(s, a, t)
    ensures Inv(t)
  {
    match a
    case Touch => TouchStep(s, t);
    case Install(h, limits) => InstallStep(s, h, limits, t);
    case TornInstall(limits, written) => TornInstallStep(s, limits, written, t);
    case Admit => AdmitStep(s, t);
    case Execute => ExecuteStep(s, t);
    case Split(part) => SplitStep(s, part, t);
    case CleanUp(temp) => CleanUpStep(s, temp, t);
    case Observe(readable) => ObserveStep(s, readable, t);
    case Conclude(writable) => ConcludeStep(s, writable, t);
    case _ =>
  }

  // ---- Whole runs ----

  predicate Run(states: seq<State>, actions: seq<Action>) {
    && |states| == |actions| + 1
    && Init(states[0])
    && forall i {:trigger actions[i]} :: 0 <= i < |actions| ==> Next(states[i], actions[i], states[i + 1])
  }

  lemma {:induction false} RunInv(states: seq<State>, actions: seq<Action>, i: nat)
    requires Run(states, actions) && i < |states|
    ensures Inv(states[i])
  {
    if i > 0 {
      RunInv(states, actions, i - 1);
      StepKeepsInv(states[i - 1], actions[i - 1], states[i]);
    }
  }

  /**
   In every interleaving, with failures and crashes after any file operation,
   the real usage of an installed root never exceeds its recorded limits.
   */
  lemma LimitsHold(states: seq<State>, actions: seq<Action>)
    requires Run(states, actions)
    ensures forall i :: 0 <= i < |states| && Installed(states[i].tree).Some? ==>
              Within(FullUsage(states[i].tree), Installed(states[i].tree).value.limits)
  {
    forall i | 0 <= i < |states| && Installed(states[i].tree).Some?
      ensures Within(FullUsage(states[i].tree), Installed(states[i].tree).value.limits)
    {
      RunInv(states, actions, i);
    }
  }

  /** Every cache is at or behind the record, and a current one is exactly a fresh full inventory. */
  lemma CachesStayExact(states: seq<State>, actions: seq<Action>, i: nat, h: nat)
    requires Run(states, actions) && i < |states|
    requires h in states[i].handles && states[i].handles[h].cached.Some?
    ensures Installed(states[i].tree).Some?
    ensures
      var cached := states[i].handles[h].cached.value;
      && cached.generation <= Installed(states[i].tree).value.generation
      && (cached.generation == Installed(states[i].tree).value.generation ==>
            cached.usage == FullUsage(states[i].tree))
  {
    RunInv(states, actions, i);
  }

  /** Once installed, the limits never change. */
  lemma LimitsImmutable(s: State, a: Action, t: State)
    requires Inv(s) && Next(s, a, t) && Installed(s.tree).Some?
    ensures Installed(t.tree).Some?
    ensures Installed(t.tree).value.limits == Installed(s.tree).value.limits
    ensures Installed(s.tree).value.generation <= Installed(t.tree).value.generation
  {
    match a
    case Admit => AnnouncedEffect(s.tree, s.lease.job.generation + 1, Installed(s.tree).value);
    case Conclude(writable) =>
      if writable && s.lease.job.generation + 1 < U64_LIMIT {
        AnnouncedEffect(s.tree, s.lease.job.generation + 1, Installed(s.tree).value);
      }
    case Execute =>
      var p := s.lease.job.pending;
      var here := At(s.tree, p.existing).value;
      if p.existing == [] {
        ApplyControl(here, s.lease.job.todo[0]);
      }
      EditKeepsRecord(s.tree, p.existing, Apply(here, s.lease.job.todo[0]).value);
    case CleanUp(temp) =>
      var here := At(s.tree, s.lease.job.existing).value;
      if s.lease.job.existing == [] {
        ControlRemoveIn(here, s.lease.job.dir, temp);
      }
      EditKeepsRecord(s.tree, s.lease.job.existing, RemoveIn(here, s.lease.job.dir, temp));
    case _ =>
  }
}
