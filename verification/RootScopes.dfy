/**
 Which directories a policy governs (storage.rs): installations and publications,
 each taken as one step, over one namespace of canonical paths.

 Every step reports the directories in which it created an entry, so that a
 refused step can be held to having created none where it must not.
 */
module RootScopes {
  import opened Bytes

  type Component = string
  type Path = seq<Component>
  type Limits = nat

  /** Directories, installed records, and control entries that cannot be read as a record. */
  datatype Site = Site(dirs: set<Path>, records: map<Path, Limits>, damaged: set<Path>)

  const METADATA: Component := ".leptos-static-metadata"

  datatype Refusal =
    | UnsupportedRoot
    | BindingRequired
    | PolicyMismatch
    | InvalidPolicy
    | LimitExceeded
    | Interrupted

  predicate Prefix(a: Path, b: Path) {
    |a| <= |b| && a == b[..|a|]
  }

  predicate Marked(s: Site, p: Path) {
    p in s.records || p in s.damaged
  }

  ghost predicate WellFormed(s: Site) {
    && [] in s.dirs
    && (forall p, k :: p in s.dirs && 0 <= k <= |p| ==> p[..k] in s.dirs)
    && (forall p :: Marked(s, p) ==> p in s.dirs)
    && (forall p :: p in s.records ==> p !in s.damaged)
  }

  // ---- Looking for policies ----

  /** Whether one directory carries a policy; a damaged control entry is an error. */
  function Active(s: Site, p: Path): Result<bool, Refusal> {
    if p in s.damaged then Err(InvalidPolicy) else Ok(p in s.records)
  }

  /** Where a walk from `path` towards the filesystem root ends: at `stop` if it comes by. */
  function WalkEnd(path: Path, stop: Option<Path>): (end: nat)
    ensures end <= |path|
  {
    if stop.Some? && |stop.value| < |path| && Prefix(stop.value, path) then |stop.value| + 1 else 0
  }

  /** The verdict of the nearest marked ancestor among `path[..end]` up to `path[..from]`, itself excluded. */
  function Walk(s: Site, path: Path, from: nat, end: nat): Result<bool, Refusal>
    requires end <= from <= |path|
    decreases from
  {
    if from == end then Ok(false)
    else
      var active := Active(s, path[..from - 1]);
      if active == Ok(false) then Walk(s, path, from - 1, end) else active
  }

  /** The walk is quiet exactly when nothing on it is marked; otherwise the nearest mark decides. */
  lemma {:induction false} WalkMeaning(s: Site, path: Path, from: nat, end: nat)
    requires end <= from <= |path|
    ensures Walk(s, path, from, end) == Ok(false) <==> forall k :: end <= k < from ==> !Marked(s, path[..k])
    ensures Walk(s, path, from, end) != Ok(false) ==>
      exists k :: end <= k < from && Marked(s, path[..k]) && Walk(s, path, from, end) == Active(s, path[..k])
                  && forall j :: k < j < from ==> !Marked(s, path[..j])
  {
    if from > end {
      var up := path[..from - 1];
      if Active(s, up) == Ok(false) {
        WalkMeaning(s, path, from - 1, end);
      } else {
        assert Marked(s, up);
      }
    }
  }

  ghost function AncestorVerdict(s: Site, path: Path, stop: Option<Path>): Result<bool, Refusal> {
    Walk(s, path, |path|, WalkEnd(path, stop))
  }

  method AncestorPolicy(s: Site, path: Path, stop: Option<Path>) returns (r: Result<bool, Refusal>)
    ensures r == AncestorVerdict(s, path, stop)
  {
    var ancestor := path;
    ghost var end := WalkEnd(path, stop);
    while ancestor != []
      invariant Prefix(ancestor, path) && |ancestor| >= end
      invariant AncestorVerdict(s, path, stop) == Walk(s, path, |ancestor|, end)
    {
      ancestor := ancestor[..|ancestor| - 1];
      assert ancestor == path[..|ancestor|];
      if stop == Some(ancestor) {
        return Ok(false);
      }
      var active := Active(s, ancestor);
      if active != Ok(false) {
        return active;
      }
    }
    r := Ok(false);
  }

  /** The deepest prefix that exists. */
  function Existing(dirs: set<Path>, path: Path): (r: Path)
    ensures Prefix(r, path)
  {
    if path == [] || path in dirs then path else Existing(dirs, path[..|path| - 1])
  }

  lemma {:induction false} ExistingMeaning(dirs: set<Path>, path: Path, k: nat)
    requires [] in dirs && k <= |path|
    ensures Existing(dirs, path) in dirs
    ensures path[..k] in dirs ==> k <= |Existing(dirs, path)|
  {
    if path != [] && path !in dirs {
      var up := path[..|path| - 1];
      if k < |path| {
        assert up[..k] == path[..k];
        ExistingMeaning(dirs, up, k);
      } else {
        assert path[..k] == path;
        ExistingMeaning(dirs, up, 0);
      }
    }
  }

  /** Opening a root is refused for overlapping a managed one above it. */
  ghost function OpenRoot(s: Site, path: Path, overlap: Refusal): Result<(), Refusal> {
    var found := Existing(s.dirs, path);
    var here := if found != path then Active(s, found) else Ok(false);
    var verdict := if here == Ok(false) then AncestorVerdict(s, found, None) else here;
    match verdict
    case Err(e) => Err(e)
    case Ok(managed) => if managed then Err(overlap) else Ok(())
  }

  /** The directories that gain an entry when the chain down to `path` is created. */
  ghost function ChainWrites(from: Path, path: Path): set<Path>
    requires Prefix(from, path)
  {
    set k | |from| <= k < |path| :: path[..k]
  }

  ghost function Chain(path: Path): set<Path> {
    set k | 0 <= k <= |path| :: path[..k]
  }

  // ---- The steps ----

  datatype Effect = Effect(site: Site, result: Result<(), Refusal>, writes: set<Path>)

  ghost predicate MarkedBelow(s: Site, path: Path) {
    exists p :: Marked(s, p) && p != path && Prefix(path, p)
  }

  /**
   What an inventory reports of the marks below. With both kinds there, the source
   reports whichever its directory order meets first; neither changes anything.
   */
  ghost function BelowRefusal(s: Site, path: Path): Refusal {
    if exists p :: p in s.records && p != path && Prefix(path, p) then UnsupportedRoot else InvalidPolicy
  }

  datatype Ending = Fits | Exceeds | StopsWriting

  ghost function Install(s: Site, path: Path, limits: Limits, ending: Ending): Effect {
    var opening := OpenRoot(s, path, UnsupportedRoot);
    if opening.Err? then Effect(s, opening, {})
    else
      var made := s.(dirs := s.dirs + Chain(path));
      // The control entry is created, or its record written, in the root itself.
      var writes := ChainWrites(Existing(s.dirs, path), path) + {path};
      if path in s.damaged then Effect(made, Err(InvalidPolicy), writes)
      else if path in s.records && s.records[path] != limits then Effect(made, Err(PolicyMismatch), writes)
      else if MarkedBelow(made, path) then Effect(made, Err(BelowRefusal(made, path)), writes)
      else if ending.Exceeds? then Effect(made, Err(LimitExceeded), writes)
      else if path in s.records then Effect(made, Ok(()), writes)
      else if ending.StopsWriting? then Effect(made.(damaged := made.damaged + {path}), Err(Interrupted), writes)
      else Effect(made.(records := made.records[path := limits]), Ok(()), writes)
  }

  /** The directories a publication into `target` touches, from the deepest one that exists. */
  ghost function Staging(from: Path, target: Path): set<Path>
    requires Prefix(from, target)
  {
    ChainWrites(from, target) + {target, target + [METADATA]}
  }

  /** What admission finds on the way from the root to the deepest existing parent. */
  ghost function DestinationVerdict(s: Site, root: Path, parent: Path): Result<bool, Refusal> {
    var here := Active(s, parent);
    if here == Ok(false) then AncestorVerdict(s, parent, Some(root)) else here
  }

  ghost function PublishUnbound(s: Site, root: Path, below: Path): Effect {
    var opening := OpenRoot(s, root, BindingRequired);
    if opening.Err? then Effect(s, opening, {})
    else
      var made := s.(dirs := s.dirs + Chain(root));
      var writes := ChainWrites(Existing(s.dirs, root), root);
      if root in s.damaged then Effect(made, Err(InvalidPolicy), writes)
      else if root in s.records then Effect(made, Err(BindingRequired), writes)
      else
        var target := root + below;
        var parent := Existing(made.dirs, target);
        match DestinationVerdict(s, root, parent)
        case Err(e) => Effect(made, Err(e), writes + {root})
        case Ok(managed) =>
          if managed then Effect(made, Err(BindingRequired), writes + {root})
          else Effect(made.(dirs := made.dirs + Chain(target + [METADATA])), Ok(()),
                      writes + {root} + Staging(parent, target))
  }

  /**
   A bound publisher holds the policy of `root`. Without a valid cached inventory it
   takes a fresh one, which refuses what is marked below.
   */
  ghost function PublishBound(s: Site, root: Path, below: Path, cached: bool, fits: bool): Effect {
    if root in s.damaged then Effect(s, Err(InvalidPolicy), {})
    else if root !in s.records then Effect(s, Err(PolicyMismatch), {root})
    else if !cached && MarkedBelow(s, root) then Effect(s, Err(BelowRefusal(s, root)), {})
    else if !fits then Effect(s, Err(LimitExceeded), {})
    else
      var target := root + below;
      Effect(s.(dirs := s.dirs + Chain(target + [METADATA])), Ok(()),
             Staging(Existing(s.dirs, target), target))
  }

  // ---- The invariant ----

  /** No managed root, and no half-installed one, lies inside another. */
  ghost predicate Disjoint(s: Site) {
    forall p, q :: Marked(s, p) && Marked(s, q) && Prefix(p, q) ==> p == q
  }

  ghost predicate Inv(s: Site) {
    WellFormed(s) && Disjoint(s)
  }

  /** Nothing managed at or above a directory. */
  ghost predicate Unmanaged(s: Site, d: Path) {
    forall k :: 0 <= k <= |d| ==> d[..k] !in s.records
  }

  lemma ChainKeeps(s: Site, path: Path)
    requires WellFormed(s)
    ensures WellFormed(s.(dirs := s.dirs + Chain(path)))
  {
    var made := s.(dirs := s.dirs + Chain(path));
    forall p, k | p in made.dirs && 0 <= k <= |p| ensures p[..k] in made.dirs {
      if p !in s.dirs {
        var j :| 0 <= j <= |path| && p == path[..j];
        assert p[..k] == path[..k];
      }
    }
    forall p | Marked(made, p) ensures p in made.dirs {
      assert Marked(s, p);
    }
  }

  /** Past the check, nothing above the root is marked, and nothing missing can be. */
  lemma ClearAbove(s: Site, path: Path, overlap: Refusal, k: nat)
    requires Inv(s) && OpenRoot(s, path, overlap).Ok? && k < |path|
    ensures !Marked(s, path[..k])
  {
    var found := Existing(s.dirs, path);
    ExistingMeaning(s.dirs, path, k);
    WalkMeaning(s, found, |found|, 0);
    if k < |found| {
      assert found[..k] == path[..k];
    } else if k == |found| {
      assert path[..k] == found;
    }
  }

  /** Conversely, with nothing marked above it a root opens. */
  lemma OpensIfClear(s: Site, path: Path, overlap: Refusal)
    requires forall k :: 0 <= k < |path| ==> !Marked(s, path[..k])
    ensures OpenRoot(s, path, overlap).Ok?
  {
    var found := Existing(s.dirs, path);
    forall k | 0 <= k < |found| ensures !Marked(s, found[..k]) {
      assert found[..k] == path[..k];
    }
    WalkMeaning(s, found, |found|, 0);
    if found != path {
      assert found == path[..|found|];
      assert !Marked(s, path[..|found|]);
    }
  }

  /** A new mark whose ancestors and descendants carry none keeps the marks apart. */
  lemma MarkKeepsDisjoint(s: Site, path: Path, after: Site)
    requires Disjoint(s) && (forall p :: Marked(after, p) ==> Marked(s, p) || p == path)
    requires !MarkedBelow(s, path) && forall k :: 0 <= k < |path| ==> !Marked(s, path[..k])
    ensures Disjoint(after)
  {
    forall p, q | Marked(after, p) && Marked(after, q) && Prefix(p, q) ensures p == q {
      assert q == path ==> p == path[..|p|];
    }
  }

  lemma InstallKeeps(s: Site, path: Path, limits: Limits, ending: Ending)
    requires Inv(s)
    ensures Inv(Install(s, path, limits, ending).site)
  {
    if OpenRoot(s, path, UnsupportedRoot).Ok? {
      ChainKeeps(s, path);
      var made := s.(dirs := s.dirs + Chain(path));
      var after := Install(s, path, limits, ending).site;
      assert path in Chain(path) by { assert path[..|path|] == path; }
      assert forall p :: Marked(made, p) <==> Marked(s, p);
      if !MarkedBelow(made, path) {
        forall k | 0 <= k < |path| ensures !Marked(made, path[..k]) {
          ClearAbove(s, path, UnsupportedRoot, k);
        }
        MarkKeepsDisjoint(made, path, after);
      }
    }
  }

  /** Whoever is marked at or above a directory, nearest first, decides with what it is refused. */
  ghost predicate NearestMark(s: Site, path: Path, k: nat) {
    k < |path| && Marked(s, path[..k]) && forall j :: k < j < |path| ==> !Marked(s, path[..j])
  }

  lemma OpenRefusal(s: Site, path: Path, overlap: Refusal, k: nat)
    requires Inv(s) && NearestMark(s, path, k)
    ensures OpenRoot(s, path, overlap) == Err(if path[..k] in s.records then overlap else InvalidPolicy)
  {
    var found := Existing(s.dirs, path);
    ExistingMeaning(s.dirs, path, k);
    ExistingMeaning(s.dirs, path, |path|);
    assert path[..k] in s.dirs && found == path[..|found|];
    WalkMeaning(s, found, |found|, 0);
    if k < |found| {
      assert found[..k] == path[..k] && Marked(s, found[..k]);
      forall j | k < j < |found| ensures !Marked(s, found[..j]) {
        assert found[..j] == path[..j];
      }
    } else {
      assert path[..k] == found && |found| < |path|;
    }
  }

  /**
   An installation succeeds exactly if nothing is marked above the root or below it, the
   root is not damaged, an earlier record has the same limits, and its own inventory fits
   and is written; then, and only then, the root carries exactly those limits.
   */
  lemma InstallIff(s: Site, path: Path, limits: Limits, ending: Ending)
    requires Inv(s)
    ensures
      var effect := Install(s, path, limits, ending);
      && (effect.result.Ok? <==>
            && (forall k :: 0 <= k < |path| ==> !Marked(s, path[..k]))
            && !MarkedBelow(s, path) && path !in s.damaged
            && (if path in s.records then s.records[path] == limits && !ending.Exceeds? else ending.Fits?))
      && effect.site.records == if effect.result.Ok? then s.records[path := limits] else s.records
  {
    var opening := OpenRoot(s, path, UnsupportedRoot);
    if opening.Ok? {
      forall k | 0 <= k < |path| ensures !Marked(s, path[..k]) {
        ClearAbove(s, path, UnsupportedRoot, k);
      }
      var made := s.(dirs := s.dirs + Chain(path));
      assert forall p :: Marked(made, p) <==> Marked(s, p);
      assert MarkedBelow(made, path) <==> MarkedBelow(s, path);
    } else if forall k :: 0 <= k < |path| ==> !Marked(s, path[..k]) {
      OpensIfClear(s, path, UnsupportedRoot);
    }
  }

  /** Even a refused installation creates nothing inside a managed root. */
  lemma InstallWritesOutside(s: Site, path: Path, limits: Limits, ending: Ending, d: Path)
    requires Inv(s) && d in Install(s, path, limits, ending).writes
    ensures d == path || Unmanaged(s, d)
  {
    if d != path {
      forall k | 0 <= k <= |d| ensures d[..k] !in s.records {
        assert Prefix(d, path);
        assert d[..k] == path[..k];
        ClearAbove(s, path, UnsupportedRoot, k);
      }
    }
  }

  lemma UnboundKeeps(s: Site, root: Path, below: Path)
    requires Inv(s)
    ensures Inv(PublishUnbound(s, root, below).site)
    ensures PublishUnbound(s, root, below).site.records == s.records
  {
    var made := s.(dirs := s.dirs + Chain(root));
    ChainKeeps(s, root);
    ChainKeeps(made, root + below + [METADATA]);
    assert forall p :: Marked(PublishUnbound(s, root, below).site, p) <==> Marked(s, p);
  }

  lemma BoundKeeps(s: Site, root: Path, below: Path, cached: bool, fits: bool)
    requires Inv(s)
    ensures Inv(PublishBound(s, root, below, cached, fits).site)
    ensures PublishBound(s, root, below, cached, fits).site.records == s.records
  {
    ChainKeeps(s, root + below + [METADATA]);
    assert forall p :: Marked(PublishBound(s, root, below, cached, fits).site, p) <==> Marked(s, p);
  }

  // ---- What unbound publishers write ----

  /** Admission clears the whole destination chain, down to what does not exist yet. */
  lemma AdmittedIsClear(s: Site, root: Path, below: Path, k: nat)
    requires Inv(s) && PublishUnbound(s, root, below).result.Ok? && k <= |root + below|
    ensures !Marked(s, (root + below)[..k])
  {
    var target := root + below;
    var made := s.(dirs := s.dirs + Chain(root));
    ChainKeeps(s, root);
    var parent := Existing(made.dirs, target);
    assert target[..|root|] == root == root[..|root|] && root in made.dirs;
    ExistingMeaning(made.dirs, target, |root|);
    ExistingMeaning(made.dirs, target, k);
    WalkMeaning(s, parent, |parent|, WalkEnd(parent, Some(root)));
    if k < |root| {
      assert target[..k] == root[..k];
      ClearAbove(s, root, BindingRequired, k);
    } else if |root| < k < |parent| {
      assert Prefix(root, parent) && WalkEnd(parent, Some(root)) == |root| + 1;
      assert target[..k] == parent[..k];
    } else if k == |parent| {
      assert target[..k] == parent;
    }
  }

  /** And a clear destination is admitted. */
  lemma ClearIsAdmitted(s: Site, root: Path, below: Path)
    requires forall k :: 0 <= k <= |root + below| ==> !Marked(s, (root + below)[..k])
    ensures PublishUnbound(s, root, below).result.Ok?
  {
    var target := root + below;
    assert target[..|root|] == root;
    forall k | 0 <= k < |root| ensures !Marked(s, root[..k]) {
      assert root[..k] == target[..k];
    }
    OpensIfClear(s, root, BindingRequired);
    var made := s.(dirs := s.dirs + Chain(root));
    var parent := Existing(made.dirs, target);
    assert parent == target[..|parent|];
    var end := WalkEnd(parent, Some(root));
    forall k | end <= k < |parent| ensures !Marked(s, parent[..k]) {
      assert parent[..k] == target[..k];
    }
    WalkMeaning(s, parent, |parent|, end);
  }

  /** An unbound publication is admitted exactly if nothing is marked at its destination or above. */
  lemma UnboundAdmittedIff(s: Site, root: Path, below: Path)
    requires Inv(s)
    ensures PublishUnbound(s, root, below).result.Ok? <==>
      forall k :: 0 <= k <= |root + below| ==> !Marked(s, (root + below)[..k])
  {
    if PublishUnbound(s, root, below).result.Ok? {
      forall k | 0 <= k <= |root + below| ensures !Marked(s, (root + below)[..k]) {
        AdmittedIsClear(s, root, below, k);
      }
    } else if forall k :: 0 <= k <= |root + below| ==> !Marked(s, (root + below)[..k]) {
      ClearIsAdmitted(s, root, below);
    }
  }

  /** The metadata directory of the destination has been made a managed root. */
  predicate ManagedMetadata(s: Site, root: Path, below: Path) {
    root + below + [METADATA] in s.records
  }

  lemma PrefixesClear(s: Site, root: Path, below: Path, d: Path)
    requires Inv(s) && PublishUnbound(s, root, below).result.Ok?
    requires Prefix(d, root + below)
    ensures Unmanaged(s, d)
  {
    forall k | 0 <= k <= |d| ensures d[..k] !in s.records {
      assert d[..k] == (root + below)[..k];
      AdmittedIsClear(s, root, below, k);
    }
  }

  lemma RootChainClear(s: Site, root: Path, d: Path)
    requires Inv(s) && OpenRoot(s, root, BindingRequired).Ok? && Prefix(d, root) && (d == root ==> root !in s.records)
    ensures Unmanaged(s, d)
  {
    forall k | 0 <= k <= |d| ensures d[..k] !in s.records {
      assert d[..k] == root[..k];
      if k < |root| {
        ClearAbove(s, root, BindingRequired, k);
      } else {
        assert d[..k] == root;
      }
    }
  }

  /** Every directory but the metadata directory in which an unbound publisher creates anything is unmanaged. */
  lemma UnboundWritesOutside(s: Site, root: Path, below: Path, d: Path)
    requires Inv(s) && d in PublishUnbound(s, root, below).writes
    ensures Unmanaged(s, d) || d == root + below + [METADATA]
  {
    var target := root + below;
    if Prefix(d, root) && (d == root ==> root !in s.records) {
      RootChainClear(s, root, d);
    } else {
      assert PublishUnbound(s, root, below).result.Ok?;
      if d != target + [METADATA] {
        PrefixesClear(s, root, below, d);
      }
    }
  }

  /** A policy on the metadata directory leaves the way to it clear, so the publication is admitted. */
  lemma ManagedMetadataIsReached(s: Site, root: Path, below: Path)
    requires Inv(s) && ManagedMetadata(s, root, below)
    ensures PublishUnbound(s, root, below).result.Ok?
  {
    var target, meta := root + below, root + below + [METADATA];
    forall k | 0 <= k <= |target| ensures !Marked(s, target[..k]) {
      assert target[..k] == meta[..k] && Prefix(target[..k], meta);
      assert Marked(s, meta);
    }
    ClearIsAdmitted(s, root, below);
  }

  /**
   An unbound publication stays out of every managed root if and only if nobody
   installed a policy on the destination's own metadata directory, the one place
   admission does not look at.
   */
  lemma UnboundStaysOutIff(s: Site, root: Path, below: Path)
    requires Inv(s)
    ensures (forall d :: d in PublishUnbound(s, root, below).writes ==> Unmanaged(s, d))
            <==> !ManagedMetadata(s, root, below)
  {
    var effect, meta := PublishUnbound(s, root, below), root + below + [METADATA];
    if ManagedMetadata(s, root, below) {
      ManagedMetadataIsReached(s, root, below);
      assert meta in effect.writes && meta[..|meta|] == meta;
    } else {
      forall d | d in effect.writes ensures Unmanaged(s, d) {
        if d == meta {
          MetadataUnmanaged(s, root, below);
        } else {
          UnboundWritesOutside(s, root, below, d);
        }
      }
    }
  }

  lemma MetadataUnmanaged(s: Site, root: Path, below: Path)
    requires Inv(s) && !ManagedMetadata(s, root, below)
    requires root + below + [METADATA] in PublishUnbound(s, root, below).writes
    ensures Unmanaged(s, root + below + [METADATA])
  {
    var meta := root + below + [METADATA];
    assert PublishUnbound(s, root, below).result.Ok?;
    forall k | 0 <= k <= |meta| ensures meta[..k] !in s.records {
      if k < |meta| {
        assert meta[..k] == (root + below)[..k];
        AdmittedIsClear(s, root, below, k);
      } else {
        assert meta[..k] == meta;
      }
    }
  }

  /** A bound publisher writes inside its own root and no other; without a record it only leaves an empty control entry. */
  lemma BoundWritesInside(s: Site, root: Path, below: Path, cached: bool, fits: bool, d: Path, p: Path)
    requires Inv(s) && d in PublishBound(s, root, below, cached, fits).writes
    requires p in s.records && Prefix(p, d)
    ensures if root in s.records then p == root && Prefix(root, d) else d == root
  {
    if root in s.records {
      var target := root + below;
      ExistingMeaning(s.dirs, target, |root|);
      assert target[..|root|] == root;
      var meta := target + [METADATA];
      assert Prefix(d, meta) && p == meta[..|p|] && root == meta[..|root|];
      assert Marked(s, p) && Marked(s, root);
      assert |p| <= |root| ==> Prefix(p, root);
      assert |root| <= |p| ==> Prefix(root, p);
    }
  }

  // ---- All histories ----

  datatype Call =
    | InstallCall(path: Path, limits: Limits, ending: Ending)
    | UnboundCall(root: Path, below: Path)
    | BoundCall(root: Path, below: Path, cached: bool, fits: bool)

  ghost function Perform(s: Site, c: Call): Effect {
    match c
    case InstallCall(path, limits, ending) => Install(s, path, limits, ending)
    case UnboundCall(root, below) => PublishUnbound(s, root, below)
    case BoundCall(root, below, cached, fits) => PublishBound(s, root, below, cached, fits)
  }

  ghost function PerformAll(s: Site, calls: seq<Call>): Site
    decreases |calls|
  {
    if calls == [] then s else PerformAll(Perform(s, calls[0]).site, calls[1..])
  }

  const EMPTY := Site({[]}, map[], {})

  lemma {:induction false} ScopesStayDisjoint(s: Site, calls: seq<Call>)
    requires Inv(s)
    ensures Inv(PerformAll(s, calls))
    decreases |calls|
  {
    if calls != [] {
      match calls[0] {
        case InstallCall(path, limits, ending) => InstallKeeps(s, path, limits, ending);
        case UnboundCall(root, below) => UnboundKeeps(s, root, below);
        case BoundCall(root, below, cached, fits) => BoundKeeps(s, root, below, cached, fits);
      }
      ScopesStayDisjoint(Perform(s, calls[0]).site, calls[1..]);
    }
  }

  /** An installed root stays installed, with the limits it was installed with. */
  lemma {:induction false} RecordsPersist(s: Site, calls: seq<Call>, p: Path)
    requires p in s.records
    ensures p in PerformAll(s, calls).records && PerformAll(s, calls).records[p] == s.records[p]
    decreases |calls|
  {
    if calls != [] {
      RecordsPersist(Perform(s, calls[0]).site, calls[1..], p);
    }
  }

  /**
   A handle comes from an installation. Whatever happened before and since, its
   publications write inside the root it was opened for and in no other managed root.
   */
  lemma {:induction false} HandlesStayInside(
    before: seq<Call>, root: Path, limits: Limits, ending: Ending, since: seq<Call>,
    below: Path, cached: bool, fits: bool, d: Path, p: Path)
    requires Install(PerformAll(EMPTY, before), root, limits, ending).result.Ok?
    requires
      var s := PerformAll(Install(PerformAll(EMPTY, before), root, limits, ending).site, since);
      d in PublishBound(s, root, below, cached, fits).writes && p in s.records && Prefix(p, d)
    ensures p == root
  {
    var installed := Install(PerformAll(EMPTY, before), root, limits, ending).site;
    ScopesStayDisjoint(EMPTY, before);
    InstallKeeps(PerformAll(EMPTY, before), root, limits, ending);
    ScopesStayDisjoint(installed, since);
    RecordsPersist(installed, since, root);
    BoundWritesInside(PerformAll(installed, since), root, below, cached, fits, d, p);
  }

  /** And nothing that happened before or since can turn such a publication away: only its own size can. */
  lemma {:induction false} HandlesAreAdmitted(
    before: seq<Call>, root: Path, limits: Limits, ending: Ending, since: seq<Call>, below: Path, cached: bool, fits: bool)
    requires Install(PerformAll(EMPTY, before), root, limits, ending).result.Ok?
    ensures
      var s := PerformAll(Install(PerformAll(EMPTY, before), root, limits, ending).site, since);
      PublishBound(s, root, below, cached, fits).result == if fits then Ok(()) else Err(LimitExceeded)
  {
    var installed := Install(PerformAll(EMPTY, before), root, limits, ending).site;
    ScopesStayDisjoint(EMPTY, before);
    InstallKeeps(PerformAll(EMPTY, before), root, limits, ending);
    ScopesStayDisjoint(installed, since);
    RecordsPersist(installed, since, root);
    assert Marked(PerformAll(installed, since), root);
  }

  /**
   After any history from an empty namespace: no managed root lies in another, and
   the next unbound publication keeps out of all of them exactly if its metadata
   directory is not itself one.
   */
  lemma {:induction false} NoOverlapEver(calls: seq<Call>, root: Path, below: Path)
    ensures
      var s := PerformAll(EMPTY, calls);
      && Disjoint(s)
      && (!ManagedMetadata(s, root, below) <==>
            forall d :: d in PublishUnbound(s, root, below).writes ==> Unmanaged(s, d))
  {
    ScopesStayDisjoint(EMPTY, calls);
    UnboundStaysOutIff(PerformAll(EMPTY, calls), root, below);
  }

  lemma {:induction false} TwoCalls(s: Site, c: Call, d: Call)
    ensures PerformAll(s, [c, d]) == Perform(Perform(s, c).site, d).site
  {
    assert [c, d][1..] == [d] && [d][1..] == [];
    assert PerformAll(Perform(s, c).site, [d]) == PerformAll(Perform(Perform(s, c).site, d).site, []);
  }

  /** And that exception can be reached: publish once, then install on the metadata directory. */
  lemma MetadataCanBeManaged(top: Component, limits: Limits)
    ensures
      var calls := [UnboundCall([top], []), InstallCall([top, METADATA], limits, Fits)];
      var s := PerformAll(EMPTY, calls);
      && PublishUnbound(s, [top], []).result.Ok?
      && exists d :: d in PublishUnbound(s, [top], []).writes && !Unmanaged(s, d)
  {
    var root, meta := [top], [top, METADATA];
    var calls := [UnboundCall(root, []), InstallCall(meta, limits, Fits)];
    var mid := Perform(EMPTY, calls[0]).site;
    var s := Perform(mid, calls[1]).site;
    TwoCalls(EMPTY, calls[0], calls[1]);
    ScopesStayDisjoint(EMPTY, calls);
    assert mid.records == map[] && mid.damaged == {};
    OpensIfClear(mid, meta, UnsupportedRoot);
    assert root + [] + [METADATA] == meta;
    ManagedMetadataIsReached(s, root, []);
    UnboundStaysOutIff(s, root, []);
  }
}
