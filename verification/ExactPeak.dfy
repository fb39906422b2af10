/**
 The peak that admission charges is not only enough, it is exact: a publication
 carried out to its end does reach it, just before its renames. So admission refuses
 a publication only if that publication would have exceeded a limit on the way.
 */
module ExactPeak {
  import opened Bytes
  import opened ControlRecord
  import opened SiteTree
  import opened Staging
  import opened Published
  import opened Storage
  import Protocol = StorageProtocol

  /** What admission adds to the site total. */
  function Increase(listing: Listing, chain: Path, q: Request, r: Resource): nat {
    if r.LogicalFileBytes? then |q.html| + |q.metadata| else NewEntries(listing, |chain|, q)
  }

  /** The missing parents are created one by one, each as an empty directory in the last. */
  lemma {:induction false} MakeChainExact(listing: Listing, chain: Path, from: nat, made: Listing, r: Resource)
    requires from < |chain| && At(listing, chain[..from]).Some? && Get(At(listing, chain[..from]).value, chain[from]).None?
    requires ApplyAll(listing, MakeChain(chain, from)) == Some(made)
    ensures At(made, chain) == Some(Nil)
    ensures Total(made, r) == Total(listing, r) + if r.NamespaceEntries? then |chain| - from else 0
    decreases |chain| - from
  {
    var ops, dir := MakeChain(chain, from), chain[..from];
    var step := First(listing, ops);
    assert ops[1..] == MakeChain(chain, from + 1);
    ApplyExact(listing, ops[0], r);
    PutInLook(listing, dir, chain[from], Dir(Nil));
    assert dir + [chain[from]] == chain[..from + 1];
    LookBelow(step, dir, chain[from]);
    if from + 1 == |chain| {
      assert chain[..from + 1] == chain;
    } else {
      MakeChainExact(step, chain, from + 1, made, r);
    }
  }

  /** Everything before the two renames. */
  function Stage(dir: Path, q: Request): seq<Op> {
    Publish(dir, q)[..7]
  }

  function Absent(listing: Listing, dir: Path, name: Name): nat {
    if Look(listing, dir, name).None? then 1 else 0
  }

  lemma {:induction false} PrepareExact(made: Listing, dir: Path, q: Request, staged: Listing, r: Resource)
    requires ApplyAll(made, Prepare(dir, q)) == Some(staged)
    ensures Total(staged, r) == Total(made, r) + if r.LogicalFileBytes? then |q.html| + |q.metadata| else 2 + Absent(made, dir, q.scratch)
  {
    var ops := Prepare(dir, q);
    var l1 := First(made, ops);
    ApplyExact(made, ops[0], r);
    var l2 := First(l1, ops[1..]);
    ApplyExact(l1, ops[1], r);
    var l3 := First(l2, ops[1..][1..]);
    ApplyExact(l2, ops[2], r);
    var l4 := First(l3, ops[1..][1..][1..]);
    ApplyExact(l3, ops[3], r);
    var l5 := First(l4, ops[1..][1..][1..][1..]);
    ApplyExact(l4, ops[4], r);
    assert ops[1..][1..][1..][1..][1..] == [];
  }

  lemma {:induction false} LocksExact(staged: Listing, dir: Path, ready: Listing, r: Resource)
    requires ApplyAll(staged, [OpenLock(dir, PublicationLock), MkDir(dir, MetadataDirectory)]) == Some(ready)
    ensures Total(ready, r) == Total(staged, r)
      + if r.LogicalFileBytes? then 0
        else Absent(staged, dir, PublicationLock) + Absent(staged, dir, MetadataDirectory)
  {
    var ops := [OpenLock(dir, PublicationLock), MkDir(dir, MetadataDirectory)];
    var l1 := First(staged, ops);
    ApplyExact(staged, ops[0], r);
    PlainOp(staged, ops[0], l1);
    var l2 := First(l1, ops[1..]);
    ApplyExact(l1, ops[1], r);
    assert ops[1..][1..] == [];
  }

  /** Staging leaves the two shared entries as they were. */
  lemma {:induction false} PrepareSpares(made: Listing, dir: Path, q: Request, staged: Listing)
    requires ValidRequest(q) && ApplyAll(made, Prepare(dir, q)) == Some(staged)
    ensures Look(staged, dir, PublicationLock) == Look(made, dir, PublicationLock)
    ensures Look(staged, dir, MetadataDirectory) == Look(made, dir, MetadataDirectory)
  {
    var ops := Prepare(dir, q);
    var l1 := First(made, ops);
    PlainOp(made, ops[0], l1);
    var l2 := First(l1, ops[1..]);
    PlainOp(l1, ops[1], l2);
    var l3 := First(l2, ops[1..][1..]);
    PlainOp(l2, ops[2], l3);
    var l4 := First(l3, ops[1..][1..][1..]);
    PlainOp(l3, ops[3], l4);
    var l5 := First(l4, ops[1..][1..][1..][1..]);
    PlainOp(l4, ops[4], l5);
    assert ops[1..][1..][1..][1..][1..] == [];
  }

  lemma {:induction false} StageExact(made: Listing, dir: Path, q: Request, ready: Listing, r: Resource)
    requires ValidRequest(q) && ApplyAll(made, Stage(dir, q)) == Some(ready)
    ensures Total(ready, r) == Total(made, r)
      + if r.LogicalFileBytes? then |q.html| + |q.metadata|
        else 2 + Absent(made, dir, q.scratch) + Absent(made, dir, PublicationLock) + Absent(made, dir, MetadataDirectory)
  {
    var locks := [OpenLock(dir, PublicationLock), MkDir(dir, MetadataDirectory)];
    assert Stage(dir, q) == Prepare(dir, q) + locks;
    ApplyAllAppend(made, Prepare(dir, q), locks);
    var staged := ApplyAll(made, Prepare(dir, q)).value;
    PrepareExact(made, dir, q, staged, r);
    PrepareSpares(made, dir, q, staged);
    LocksExact(staged, dir, ready, r);
  }

  /** The charge is what the site has grown by when everything but the renames is done. */
  lemma {:induction false} PeakIsReached(listing: Listing, chain: Path, q: Request, ready: Listing, r: Resource)
    requires ValidRequest(q) && (chain != [] ==> Get(listing, chain[0]).None?)
    requires ApplyAll(listing, MakeChain(chain, 0) + Stage(chain, q)) == Some(ready)
    ensures Total(ready, r) == Total(listing, r) + Increase(listing, chain, q, r)
  {
    ApplyAllAppend(listing, MakeChain(chain, 0), Stage(chain, q));
    var made := ApplyAll(listing, MakeChain(chain, 0)).value;
    StageExact(made, chain, q, ready, r);
    if chain != [] {
      MakeChainExact(listing, chain, 0, made, r);
    }
  }

  /** And at no point of the plan has it grown by more. */
  lemma {:induction false} NeverMore(listing: Listing, todo: seq<Op>, k: nat, r: Resource)
    requires Ordered(todo) && k <= |todo| && ApplyAll(listing, todo[..k]).Some?
    ensures Total(ApplyAll(listing, todo[..k]).value, r) <= Total(listing, r) + CostSum(todo, listing, r)
    decreases k
  {
    if k > 0 {
      assert todo[..k][0] == todo[0] && todo[..k][1..] == todo[1..][..k - 1];
      var next := Apply(listing, todo[0]).value;
      ApplyBudget(listing, todo, r);
      assert forall i :: 0 <= i < |todo[1..]| ==> todo[1..][i] == todo[i + 1];
      NeverMore(next, todo[1..], k - 1, r);
    }
  }

  // ---- Admission ----

  /** The whole site after the first `k` operations of the publication. */
  function SiteAfter(tree: Listing, existing: Path, todo: seq<Op>, k: nat): Option<Listing>
    requires k <= |todo| && At(tree, existing).Some?
  {
    match ApplyAll(At(tree, existing).value, todo[..k])
    case None => None
    case Some(next) => Some(SetAt(tree, existing, next))
  }

  /** No state the publication passes through exceeds a limit or the counters. */
  ghost predicate RunFits(tree: Listing, existing: Path, todo: seq<Op>, limits: Limits)
    requires At(tree, existing).Some?
  {
    forall k :: 0 <= k <= |todo| && SiteAfter(tree, existing, todo, k).Some? ==>
      var usage := FullUsage(SiteAfter(tree, existing, todo, k).value);
      Fits(usage) && Within(usage, limits)
  }

  lemma {:induction false} ScannableBelow(tree: Listing, path: Path)
    requires Scannable(tree) && At(tree, path).Some?
    ensures Scannable(At(tree, path).value)
    decreases |path|
  {
    if path != [] {
      GetScannable(tree, path[0]);
      ScannableBelow(Get(tree, path[0]).value.listing, path[1..]);
    }
  }

  lemma {:induction false} GetScannable(tree: Listing, name: Name)
    requires Scannable(tree) && Get(tree, name).Some? && Get(tree, name).value.Dir?
    ensures Scannable(Get(tree, name).value.listing)
  {
    if tree.name != name {
      GetScannable(tree.rest, name);
    }
  }

  lemma {:induction false} LocallyScannable(listing: Listing, created: Option<Name>)
    requires Scannable(listing)
    ensures LocalScannable(listing, created)
  {
    if listing.Entry? {
      LocallyScannable(listing.rest, created);
    }
  }

  /** On a root that can be scanned, so can the local view of every directory. */
  lemma {:induction false} ScanCoversLocal(tree: Listing, path: Path, created: Option<Name>)
    requires Scannable(tree) && At(tree, path).Some?
    ensures LocalScannable(At(tree, path).value, created)
  {
    ScannableBelow(tree, path);
    LocallyScannable(At(tree, path).value, created);
  }

  /** The deepest existing parent does not have the first missing one. */
  lemma {:induction false} FirstMissing(tree: Listing, q: Request, n: nat)
    requires Resolve(tree, q.parents) == Some(n)
    ensures At(tree, q.parents[..n]).Some?
    ensures n < |q.parents| ==> Get(At(tree, q.parents[..n]).value, q.parents[n..][0]).None?
  {
    ResolveMeaning(tree, q.parents, n);
  }

  /** The usage of the site when everything but the renames is done is the charged peak. */
  lemma {:induction false} SitePeak(tree: Listing, existing: Path, chain: Path, q: Request)
    requires ValidRequest(q) && At(tree, existing).Some?
    requires chain != [] ==> Get(At(tree, existing).value, chain[0]).None?
    requires ApplyAll(At(tree, existing).value, Plan(chain, q)).Some?
    ensures
      var k := |Plan(chain, q)| - 2;
      && 0 <= k && SiteAfter(tree, existing, Plan(chain, q), k).Some?
      && FullUsage(SiteAfter(tree, existing, Plan(chain, q), k).value)
           == Peak(FullUsage(tree), At(tree, existing).value, |chain|, q)
  {
    var here, plan := At(tree, existing).value, Plan(chain, q);
    var ops := MakeChain(chain, 0) + Stage(chain, q);
    assert plan[..|plan| - 2] == ops && plan == ops + plan[|plan| - 2..];
    ApplyAllAppend(here, ops, plan[|plan| - 2..]);
    var ready := ApplyAll(here, ops).value;
    forall r ensures Total(SetAt(tree, existing, ready), r) == Total(tree, r) + Increase(here, chain, q, r) {
      PeakIsReached(here, chain, q, ready, r);
      TotalSetAt(tree, existing, ready, r);
    }
  }

  /** Nowhere along the plan is the site above that peak. */
  lemma {:induction false} SiteBelowPeak(tree: Listing, existing: Path, chain: Path, q: Request, k: nat, r: Resource)
    requires ValidRequest(q) && Control !in chain && At(tree, existing).Some? && k <= |Plan(chain, q)|
    requires SiteAfter(tree, existing, Plan(chain, q), k).Some?
    ensures Total(SiteAfter(tree, existing, Plan(chain, q), k).value, r)
         <= Peak(FullUsage(tree), At(tree, existing).value, |chain|, q).Of(r)
  {
    var here, plan := At(tree, existing).value, Plan(chain, q);
    PlanIsShaped(chain, q);
    NeverMore(here, plan, k, r);
    PlanWithinPeak(chain, q, here, r);
    TotalSetAt(tree, existing, ApplyAll(here, plan[..k]).value, r);
  }

  /** The site's usage is known: remembered at the present generation, or open to a scan. */
  predicate Accountable(tree: Listing, record: Record, cached: Option<Cached>) {
    (cached.Some? && cached.value.generation == record.generation) || Scannable(tree)
  }

  /**
   Admission is exact. For a publication that can be carried out, on a root whose usage is
   known, it succeeds if and only if no state the publication passes through, from the
   first new directory to the last rename, exceeds a limit (or a 64-bit counter).
   */
  lemma {:induction false} AdmittedIffRunFits(tree: Listing, record: Record, cached: Option<Cached>, q: Request)
    requires Installed(tree) == Some(record) && Protocol.CacheExact(tree, record, cached)
    requires Accountable(tree, record, cached) && record.generation + 1 < U64_LIMIT
    requires ValidRequest(q) && Control !in q.parents && Resolve(tree, q.parents).Some?
    requires At(tree, q.parents[..Resolve(tree, q.parents).value]).Some?
    requires
      var n := Resolve(tree, q.parents).value;
      var here := At(tree, q.parents[..n]).value;
      LocalScannable(here, Created(q.parents[n..])) && ApplyAll(here, Plan(q.parents[n..], q)).Some?
    ensures
      var n := Resolve(tree, q.parents).value;
      Admission(tree, record.limits, cached, record.generation, q).Some? <==>
        RunFits(tree, q.parents[..n], Plan(q.parents[n..], q), record.limits)
  {
    var n := Resolve(tree, q.parents).value;
    var existing, chain := q.parents[..n], q.parents[n..];
    var here, plan := At(tree, existing).value, Plan(chain, q);
    FirstMissing(tree, q, n);
    SitePeak(tree, existing, chain, q);
    var peak := Peak(FullUsage(tree), here, |chain|, q);
    if Fits(peak) && Within(peak, record.limits) {
      forall k | 0 <= k <= |plan| && SiteAfter(tree, existing, plan, k).Some?
        ensures
          var usage := FullUsage(SiteAfter(tree, existing, plan, k).value);
          Fits(usage) && Within(usage, record.limits)
      {
        SiteBelowPeak(tree, existing, chain, q, k, LogicalFileBytes);
        SiteBelowPeak(tree, existing, chain, q, k, NamespaceEntries);
      }
    }
    AdmissionIsPeak(tree, record, cached, q, n);
  }

  /** On such a root, admission comes down to the peak. */
  lemma {:induction false} AdmissionIsPeak(tree: Listing, record: Record, cached: Option<Cached>, q: Request, n: nat)
    requires Protocol.CacheExact(tree, record, cached)
    requires Accountable(tree, record, cached) && record.generation + 1 < U64_LIMIT
    requires Resolve(tree, q.parents) == Some(n) && At(tree, q.parents[..n]).Some?
    requires LocalScannable(At(tree, q.parents[..n]).value, Created(q.parents[n..]))
    ensures Admission(tree, record.limits, cached, record.generation, q).Some? <==>
      var peak := Peak(FullUsage(tree), At(tree, q.parents[..n]).value, |q.parents| - n, q);
      Fits(peak) && Within(peak, record.limits)
  {
    var existing, created := q.parents[..n], Created(q.parents[n..]);
    var here := At(tree, existing).value;
    Protocol.LocalIsPart(tree, existing, created, LogicalFileBytes);
    Protocol.LocalIsPart(tree, existing, created, NamespaceEntries);
  }
}
