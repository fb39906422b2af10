/**
 Bounded storage as one process sees it: installing a policy, admitting a
 publication against its peak, announcing it and committing it with a local
 delta. The classes follow storage.rs; the functions beside them say what each
 method does to the site tree and are what `StorageProtocol` interleaves.
 */
module Storage {
  import opened Bytes
  import opened ControlRecord
  import opened SiteTree
  import opened Staging

  /** A usage as the code stores it, in 64-bit counters. */
  type Counted = u: Usage | Fits(u) witness Usage(0, 0)

  datatype Cached = Cached(generation: U64, usage: Counted)

  datatype Pending = Pending(total: Counted, before: Counted, existing: Path, created: Option<Name>)

  /** The installed record of a root. */
  function Installed(tree: Listing): Option<Record> {
    match Get(tree, Control)
    case Some(File(content)) =>
      (match ReadRecord(content)
       case Ok(record) => record
       case Err(_) => None)
    case _ => None
  }

  function LimitOf(limits: Limits, r: Resource): Option<U64> {
    if r.LogicalFileBytes? then limits.bytes else limits.entries
  }

  predicate Within(usage: Usage, limits: Limits) {
    && (limits.bytes.Some? ==> usage.bytes <= limits.bytes.value)
    && (limits.entries.Some? ==> usage.entries <= limits.entries.value)
  }

  function CheckLimits(usage: Usage, limits: Limits): (r: Result<(), StorageError>)
    requires Fits(usage)
    ensures r.Ok? <==> Within(usage, limits)
    ensures r.Err? ==>
      && r.error.LimitExceeded?
      && LimitOf(limits, r.error.resource) == Some(r.error.limit)
      && r.error.required == usage.Of(r.error.resource) > r.error.limit
  {
    if limits.bytes.Some? && usage.bytes > limits.bytes.value
    then Err(LimitExceeded(LogicalFileBytes, limits.bytes.value, usage.bytes))
    else if limits.entries.Some? && usage.entries > limits.entries.value
    then Err(LimitExceeded(NamespaceEntries, limits.entries.value, usage.entries))
    else Ok(())
  }

  // ---- Finding the destination ----

  datatype Lookup = Found(listing: Listing) | NotFound | NotADirectory

  function OpenDir(listing: Listing, path: Path): Lookup
    decreases |path|
  {
    if path == [] then Found(listing)
    else
      match Get(listing, path[0])
      case None => NotFound
      case Some(Dir(below)) => OpenDir(below, path[1..])
      case Some(_) => NotADirectory
  }

  /** How many leading components of the destination's parent already exist. */
  function Resolve(listing: Listing, parents: Path): (r: Option<nat>)
    ensures r.Some? ==> r.value <= |parents|
    decreases |parents|
  {
    if parents == [] then Some(0)
    else
      match Get(listing, parents[0])
      case None => Some(0)
      case Some(Dir(below)) =>
        (match Resolve(below, parents[1..])
         case None => None
         case Some(n) => Some(n + 1))
      case Some(_) => None
  }

  lemma {:induction false} ResolveMeaning(listing: Listing, parents: Path, k: nat)
    requires k <= |parents|
    ensures OpenDir(listing, parents[..k]).Found? <==> At(listing, parents[..k]).Some?
    ensures OpenDir(listing, parents[..k]).Found? ==> At(listing, parents[..k]) == Some(OpenDir(listing, parents[..k]).listing)
    ensures
      match Resolve(listing, parents)
      case None => k == |parents| ==> OpenDir(listing, parents[..k]).NotADirectory?
      case Some(n) =>
        && n <= |parents|
        && (k <= n ==> OpenDir(listing, parents[..k]).Found?)
        && (k > n ==> OpenDir(listing, parents[..k]).NotFound?)
        && (k == n < |parents| ==> Get(At(listing, parents[..k]).value, parents[k]).None?)
    decreases |parents|
  {
    if k == 0 {
      if parents != [] {
        match Get(listing, parents[0])
        case Some(Dir(below)) => ResolveMeaning(below, parents[1..], 0);
        case _ =>
      }
    } else {
      match Get(listing, parents[0])
      case Some(Dir(below)) =>
        assert parents[..k][1..] == parents[1..][..k - 1];
        ResolveMeaning(below, parents[1..], k - 1);
      case _ =>
    }
  }

  /** The admission loop: drops trailing components until one prefix opens. */
  method Locate(tree: Listing, parents: Path)
    returns (existing: Path, missing: nat, created: Option<Name>, ok: bool)
    ensures ok <==> Resolve(tree, parents).Some?
    ensures ok ==>
      && var n := Resolve(tree, parents).value;
      && n <= |parents| && existing == parents[..n] && missing == |parents| - n
      && At(tree, existing).Some?
      && created == Created(parents[n..])
  {
    var k := |parents|;
    missing, created := 0, None;
    ResolveMeaning(tree, parents, k);
    var found := OpenDir(tree, parents[..k]);
    while found.NotFound?
      invariant 0 <= k <= |parents| && missing == |parents| - k
      invariant found == OpenDir(tree, parents[..k])
      invariant created == Created(parents[k..])
      invariant k < |parents| ==> Resolve(tree, parents).Some?
      invariant Resolve(tree, parents).Some? ==> Resolve(tree, parents).value <= k
      decreases k
    {
      ResolveMeaning(tree, parents, k);
      ResolveMeaning(tree, parents, |parents|);
      missing := missing + 1;
      created := Some(parents[k - 1]);
      k := k - 1;
      found := OpenDir(tree, parents[..k]);
    }
    ResolveMeaning(tree, parents, k);
    ResolveMeaning(tree, parents, |parents|);
    existing, ok := parents[..k], found.Found?;
  }

  // ---- Admission ----

  function CachedFor(cached: Option<Cached>, generation: U64): Option<Counted> {
    if cached.Some? && cached.value.generation == generation then Some(cached.value.usage) else None
  }

  /** The site total admission starts from: the cache while its generation is current, else a scan. */
  function SiteTotal(tree: Listing, cached: Option<Cached>, generation: U64): Option<Counted> {
    if CachedFor(cached, generation).Some? then CachedFor(cached, generation)
    else if Scannable(tree) && Fits(FullUsage(tree)) then Some(FullUsage(tree))
    else None
  }

  /** The complete publication peak, staging included. */
  function Peak(total: Usage, dir: Listing, missing: nat, q: Request): Usage {
    Usage(total.bytes + |q.html| + |q.metadata|, total.entries + NewEntries(dir, missing, q))
  }

  /** The accounting state of an admitted publication; `None` is a refusal. */
  function Admission(tree: Listing, limits: Limits, cached: Option<Cached>, generation: U64, q: Request)
    : Option<Pending>
  {
    match (Resolve(tree, q.parents), SiteTotal(tree, cached, generation))
    case (Some(n), Some(total)) =>
      ResolveMeaning(tree, q.parents, n);
      var dir := At(tree, q.parents[..n]).value;
      var created := Created(q.parents[n..]);
      var peak := Peak(total, dir, |q.parents| - n, q);
      if && Fits(peak) && Within(peak, limits)
         && LocalScannable(dir, created) && Fits(LocalView(dir, created))
         && generation + 1 < U64_LIMIT
      then Some(Pending(total, LocalView(dir, created), q.parents[..n], created))
      else None
    case _ => None
  }

  /** The tree after its generation has been written. */
  function Announced(tree: Listing, generation: U64): Listing {
    match Get(tree, Control)
    case Some(File(content)) => Put(tree, Control, File(WithGeneration(content, generation)))
    case _ => tree
  }

  /** What `commit` remembers as the new site total. */
  function Settled(pending: Pending, after: Usage): Option<Usage> {
    if && pending.before.bytes <= pending.total.bytes
       && pending.before.entries <= pending.total.entries
       && pending.total.bytes - pending.before.bytes + after.bytes < U64_LIMIT
       && pending.total.entries - pending.before.entries + after.entries < U64_LIMIT
    then Some(Usage(pending.total.bytes - pending.before.bytes + after.bytes,
                    pending.total.entries - pending.before.entries + after.entries))
    else None
  }

  /** A successful installation: the tree it leaves and the inventory it caches. */
  function Installation(tree: Listing, limits: Limits): Option<(Listing, Cached)> {
    var root := if Get(tree, Control).None? then Put(tree, Control, File([])) else tree;
    match Get(root, Control)
    case Some(File(content)) =>
      (match ReadRecord(content)
       case Ok(Some(record)) =>
         if && record.limits == limits && Scannable(root)
            && Fits(FullUsage(root)) && Within(FullUsage(root), limits)
         then Some((root, Cached(record.generation, FullUsage(root)))) else None
       case Ok(None) =>
         var scanned := FullUsage(root);
         var usage := Usage(scanned.bytes + RECORD_LEN, scanned.entries);
         if Scannable(root) && Fits(usage) && Within(usage, limits)
         then Some((Put(root, Control, File(Encoding(limits))), Cached(0, usage))) else None
       case Err(_) => None)
    case _ => None
  }

  /** The directory behind a site root. */
  class Site {
    var tree: Listing

    constructor (tree: Listing)
      ensures this.tree == tree
    {
      this.tree := tree;
    }
  }

  /** One opened policy handle, shared by the publishers of a process. */
  class Handle {
    const site: Site
    const limits: Limits
    var cached: Option<Cached>

    constructor (site: Site, limits: Limits, cached: Option<Cached>)
      ensures this.site == site && this.limits == limits && this.cached == cached
    {
      this.site := site;
      this.limits := limits;
      this.cached := cached;
    }
  }

  /** Opens the control entry, creating an empty one where there is none, and reads its record. */
  method OpenControl(site: Site, limits: Limits) returns (r: Result<Option<Record>, StorageError>)
    modifies site
    ensures site.tree == if Get(old(site.tree), Control).None? then Put(old(site.tree), Control, File([])) else old(site.tree)
    ensures r.Ok? ==>
      && Get(site.tree, Control).Some? && Get(site.tree, Control).value.File?
      && ReadRecord(Get(site.tree, Control).value.content) == Ok(r.value)
      && (r.value.Some? ==> r.value.value.limits == limits)
    ensures r.Err? ==> Installation(old(site.tree), limits).None?
    ensures Installed(old(site.tree)).Some? && Installed(old(site.tree)).value.limits != limits ==> r == Err(PolicyMismatch)
  {
    if Get(site.tree, Control).None? {
      GetPut(site.tree, Control, File([]), Control);
      site.tree := Put(site.tree, Control, File([]));
    }
    var control := Get(site.tree, Control).value;
    if !control.File? {
      return Err(InvalidPolicy);
    }
    var previous :- ReadRecord(control.content);
    if previous.Some? && previous.value.limits != limits {
      return Err(PolicyMismatch);
    }
    r := Ok(previous);
  }

  /** `Storage::open` under its exclusive lease. */
  method Open(site: Site, limits: Limits) returns (r: Result<Handle, StorageError>)
    modifies site
    ensures r.Ok? <==> Installation(old(site.tree), limits).Some?
    ensures r.Ok? ==>
      && fresh(r.value) && r.value.site == site && r.value.limits == limits
      && r.value.cached.Some?
      && Installation(old(site.tree), limits) == Some((site.tree, r.value.cached.value))
    ensures r.Err? ==>
      site.tree == if Get(old(site.tree), Control).None? then Put(old(site.tree), Control, File([])) else old(site.tree)
    ensures Installed(old(site.tree)).Some? && Installed(old(site.tree)).value.limits != limits ==> r == Err(PolicyMismatch)
  {
    var previous :- OpenControl(site, limits);
    var usage :- Inventory(site.tree);
    if previous.None? {
      var bytes :- Add(usage.bytes, RECORD_LEN);
      usage := Usage(bytes, usage.entries);
    }
    var _ :- CheckLimits(usage, limits);
    var generation: U64 := 0;
    if previous.Some? {
      generation := previous.value.generation;
    } else {
      site.tree := Put(site.tree, Control, File(Encoding(limits)));
    }
    var handle := new Handle(site, limits, Some(Cached(generation, usage)));
    r := Ok(handle);
  }

  /** A publisher holding the exclusive root lease. */
  class PublicationGuard {
    const handle: Handle
    var generation: U64
    var pending: Option<Pending>

    constructor (handle: Handle, generation: U64)
      ensures this.handle == handle && this.generation == generation && pending == None
    {
      this.handle := handle;
      this.generation := generation;
      this.pending := None;
    }

    /** Writes the next generation; `writable` is whether the write succeeds. */
    method Bump(writable: bool) returns (r: Result<(), StorageError>)
      modifies this`generation, handle.site
      ensures r.Ok? <==> writable && old(generation) + 1 < U64_LIMIT
      ensures r.Ok? ==> generation == old(generation) + 1
                        && handle.site.tree == Announced(old(handle.site.tree), generation)
      ensures r.Err? ==> generation == old(generation) && handle.site.tree == old(handle.site.tree)
                         && (r.error == Io || r.error == Overflow)
    {
      var next :- Add(generation, 1);
      if !writable {
        return Err(Io);
      }
      handle.site.tree := Announced(handle.site.tree, next);
      generation := next;
      r := Ok(());
    }

    /**
     Admission succeeds exactly as `Admission` says; then the publication is
     announced before any of its files exist. A refusal leaves the tree alone.
     Either way the handle only ever remembers the total it used.
     */
    method Admit(q: Request, writable: bool) returns (r: Result<(), StorageError>)
      modifies this, handle, handle.site
      ensures
        var admission := Admission(old(handle.site.tree), handle.limits, old(handle.cached), old(generation), q);
        && (r.Ok? <==> admission.Some? && writable)
        && (r.Ok? ==>
              && pending == admission
              && generation == old(generation) + 1
              && handle.site.tree == Announced(old(handle.site.tree), generation)
              && handle.cached == Some(Cached(old(generation), admission.value.total)))
      ensures r.Err? ==>
        && handle.site.tree == old(handle.site.tree) && generation == old(generation) && pending == old(pending)
        && (handle.cached == old(handle.cached)
            || (&& Fits(FullUsage(handle.site.tree))
                && handle.cached == Some(Cached(generation, FullUsage(handle.site.tree)))))
      ensures r.Err? && r.error.LimitExceeded? ==>
        && Resolve(handle.site.tree, q.parents).Some?
        && SiteTotal(handle.site.tree, old(handle.cached), generation).Some?
        && var n := Resolve(handle.site.tree, q.parents).value;
        && n <= |q.parents| && At(handle.site.tree, q.parents[..n]).Some?
        && LimitOf(handle.limits, r.error.resource) == Some(r.error.limit)
        && r.error.limit < r.error.required
        && r.error.required
             == Peak(SiteTotal(handle.site.tree, old(handle.cached), generation).value,
                     At(handle.site.tree, q.parents[..n]).value, |q.parents| - n, q).Of(r.error.resource)
    {
      var tree := handle.site.tree;
      var existing, missing, created, ok := Locate(tree, q.parents);
      if !ok {
        return Err(Io);
      }
      var dir := At(tree, existing).value;
      var total;
      if CachedFor(handle.cached, generation).Some? {
        total := CachedFor(handle.cached, generation).value;
      } else {
        total :- Inventory(tree);
        handle.cached := Some(Cached(generation, total));
      }
      var withHtml :- Add(total.bytes, |q.html|);
      var bytes :- Add(withHtml, |q.metadata|);
      var entries :- Add(total.entries, NewEntries(dir, missing, q));
      var _ :- CheckLimits(Usage(bytes, entries), handle.limits);
      var before :- LocalUsage(dir, created);
      var _ :- Bump(writable);
      pending := Some(Pending(total, before, existing, created));
      r := Ok(());
    }

    /**
     Commits a finished publication: the cache becomes the admitted total moved
     by the local difference, at the new generation, or is dropped.
     */
    method Commit(writable: bool)
      modifies this, handle, handle.site
      ensures pending == None
      ensures old(pending).None? ==>
        handle.site.tree == old(handle.site.tree) && handle.cached == old(handle.cached) && generation == old(generation)
      ensures old(pending).Some? ==>
        && var p := old(pending).value;
        && var here := At(old(handle.site.tree), p.existing);
        && var bumped := writable && old(generation) + 1 < U64_LIMIT;
        && generation == old(generation) + (if bumped then 1 else 0)
        && handle.site.tree == (if bumped then Announced(old(handle.site.tree), generation) else old(handle.site.tree))
        && handle.cached ==
             if && bumped && here.Some? && LocalScannable(here.value, p.created)
                && Fits(LocalView(here.value, p.created))
                && Settled(p, LocalView(here.value, p.created)).Some?
             then Some(Cached(generation, Settled(p, LocalView(here.value, p.created)).value))
             else None
    {
      if pending.None? {
        return;
      }
      var p := pending.value;
      pending := None;
      var updated: Option<Usage> := None;
      var here := At(handle.site.tree, p.existing);
      if here.Some? {
        var after := LocalUsage(here.value, p.created);
        if after.Ok? {
          updated := Settled(p, after.value);
        }
      }
      var bumped := Bump(writable);
      if updated.Some? && bumped.Ok? {
        handle.cached := Some(Cached(generation, updated.value));
      } else {
        handle.cached := None;
      }
    }
  }

  /**
   `coordinate` for a bound publisher, once its exclusive lease is granted. Opening the
   control entry creates an empty one where there is none, which is then a mismatch.
   */
  method Coordinate(handle: Handle) returns (r: Result<PublicationGuard, StorageError>)
    modifies handle.site
    ensures handle.site.tree == if Get(old(handle.site.tree), Control).None?
                                then Put(old(handle.site.tree), Control, File([])) else old(handle.site.tree)
    ensures r.Ok? <==> Installed(old(handle.site.tree)).Some? && Installed(old(handle.site.tree)).value.limits == handle.limits
    ensures r.Ok? ==> fresh(r.value) && r.value.handle == handle && r.value.pending == None
                      && r.value.generation == Installed(handle.site.tree).value.generation
                      && handle.site.tree == old(handle.site.tree)
    ensures Get(old(handle.site.tree), Control).None? ==> r == Err(PolicyMismatch)
    ensures r.Err? && Installed(old(handle.site.tree)).Some? ==> r == Err(PolicyMismatch)
  {
    if Get(handle.site.tree, Control).None? {
      GetPut(handle.site.tree, Control, File([]), Control);
      handle.site.tree := Put(handle.site.tree, Control, File([]));
    }
    var control := Get(handle.site.tree, Control).value;
    if !control.File? {
      return Err(InvalidPolicy);
    }
    var record :- ReadRecord(control.content);
    if record.Some? && record.value.limits == handle.limits {
      var guard := new PublicationGuard(handle, record.value.generation);
      r := Ok(guard);
    } else {
      r := Err(PolicyMismatch);
    }
  }
}
