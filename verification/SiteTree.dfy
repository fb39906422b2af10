/**
 The entries below a site root as a recursive listing, and the accounting of
 storage.rs over it: the full inventory and the usage local to one directory.
 */
module SiteTree {
  import opened Bytes
  import opened ControlRecord

  /**
   Directory entry names. The reserved spellings, all of which begin with
   ".leptos-", are constructors; every other spelling is `Other`.
   */
  datatype Name =
    | Control                       // .leptos-static-policy.lock
    | MetadataDirectory             // .leptos-static-metadata
    | PublicationLock               // .leptos-static-publish.lock
    | ScratchLock(bucket: nat)      // .leptos-static-NN.lock
    | Temporary(id: nat)            // .leptos-<digest>.tmp.<pid>.<seq>
    | Other(text: string)

  type Path = seq<Name>

  /** Symlinks, FIFOs and other special entries count as entries and hold no bytes. */
  datatype Node = File(content: seq<Byte>) | Special | Dir(listing: Listing)

  /** Directory entries in listing order. */
  datatype Listing = Nil | Entry(name: Name, node: Node, rest: Listing)

  datatype Usage = Usage(bytes: nat, entries: nat) {
    function Of(r: Resource): nat {
      if r.LogicalFileBytes? then bytes else entries
    }
  }

  predicate Fits(u: Usage) {
    u.bytes < U64_LIMIT && u.entries < U64_LIMIT
  }

  /** What one entry costs by itself; only a regular file has a length. */
  function Own(node: Node, r: Resource): nat {
    if r.NamespaceEntries? then 1 else if node.File? then |node.content| else 0
  }

  /** One entry with everything below it. */
  function NodeTotal(node: Node, r: Resource): nat {
    Own(node, r) + if node.Dir? then Total(node.listing, r) else 0
  }

  /** Every entry below a directory; the directory itself is excluded. */
  function Total(listing: Listing, r: Resource): nat {
    match listing
    case Nil => 0
    case Entry(_, node, rest) => NodeTotal(node, r) + Total(rest, r)
  }

  function FullUsage(listing: Listing): Usage {
    Usage(Total(listing, LogicalFileBytes), Total(listing, NamespaceEntries))
  }

  function Get(listing: Listing, name: Name): Option<Node> {
    match listing
    case Nil => None
    case Entry(n, node, rest) => if n == name then Some(node) else Get(rest, name)
  }

  /** Adds or replaces one entry. */
  function Put(listing: Listing, name: Name, node: Node): Listing {
    match listing
    case Nil => Entry(name, node, Nil)
    case Entry(n, before, rest) =>
      if n == name then Entry(n, node, rest) else Entry(n, before, Put(rest, name, node))
  }

  function Remove(listing: Listing, name: Name): Listing {
    match listing
    case Nil => Nil
    case Entry(n, before, rest) => if n == name then rest else Entry(n, before, Remove(rest, name))
  }

  function OptionTotal(node: Option<Node>, r: Resource): nat {
    match node
    case None => 0
    case Some(n) => NodeTotal(n, r)
  }

  /** The directory reached by following names from `listing`. */
  function At(listing: Listing, path: Path): Option<Listing>
    decreases |path|
  {
    if path == [] then Some(listing)
    else
      match Get(listing, path[0])
      case Some(Dir(below)) => At(below, path[1..])
      case _ => None
  }

  /** Replaces the listing of the directory at `path`. */
  function SetAt(listing: Listing, path: Path, next: Listing): Listing
    requires At(listing, path).Some?
    decreases |path|
  {
    if path == [] then next
    else Put(listing, path[0], Dir(SetAt(Get(listing, path[0]).value.listing, path[1..], next)))
  }

  // ---- Policy markers ----

  /** Whether the directory with this listing carries an installed policy. */
  function ActivePolicy(listing: Listing): Result<bool, StorageError> {
    match Get(listing, Control)
    case None => Ok(false)
    case Some(File(content)) =>
      (match ReadRecord(content)
       case Ok(record) => Ok(record.Some?)
       case Err(error) => Err(error))
    case Some(_) => Err(InvalidPolicy)
  }

  /** No directory strictly below carries a policy or an unreadable control entry. */
  predicate Scannable(listing: Listing) {
    match listing
    case Nil => true
    case Entry(_, node, rest) =>
      && (node.Dir? ==> ActivePolicy(node.listing) == Ok(false) && Scannable(node.listing))
      && Scannable(rest)
  }

  // ---- The scans ----

  function Add(a: nat, b: nat): (r: Result<U64, StorageError>)
    ensures r.Ok? <==> a + b < U64_LIMIT
    ensures r.Ok? ==> r.value == a + b
    ensures r.Err? ==> r.error == Overflow
  {
    if a + b < U64_LIMIT then Ok(a + b) else Err(Overflow)
  }

  /** Adds one entry to a running usage. */
  function Charge(usage: Usage, node: Node): (r: Result<Usage, StorageError>)
    requires Fits(usage)
    ensures
      var next := Usage(usage.bytes + Own(node, LogicalFileBytes), usage.entries + Own(node, NamespaceEntries));
      r == if Fits(next) then Ok(next) else Err(Overflow)
  {
    match Add(usage.entries, 1)
    case Err(error) => Err(error)
    case Ok(entries) =>
      if node.File? then
        match Add(usage.bytes, |node.content|)
        case Err(error) => Err(error)
        case Ok(bytes) => Ok(Usage(bytes, entries))
      else Ok(Usage(usage.bytes, entries))
  }

  function StackTotal(stack: seq<Listing>, r: Resource): nat {
    if stack == [] then 0
    else StackTotal(stack[..|stack| - 1], r) + Total(stack[|stack| - 1], r)
  }

  predicate StackScannable(stack: seq<Listing>) {
    stack == [] || (StackScannable(stack[..|stack| - 1]) && Scannable(stack[|stack| - 1]))
  }

  /** What a scan that is expected to count `total` may report. */
  predicate ScanReport(r: Result<Usage, StorageError>, scannable: bool, total: Usage) {
    match r
    case Ok(usage) => scannable && Fits(total) && usage == total
    case Err(Overflow) => !Fits(total)
    case Err(error) => !scannable && (error == UnsupportedRoot || error == InvalidPolicy)
  }

  /** What is counted and what is still on the stack make up the whole scan. */
  predicate Scanning(usage: Usage, stack: seq<Listing>, root: Listing) {
    && Fits(usage)
    && usage.bytes + StackTotal(stack, LogicalFileBytes) == Total(root, LogicalFileBytes)
    && usage.entries + StackTotal(stack, NamespaceEntries) == Total(root, NamespaceEntries)
    && (Scannable(root) <==> StackScannable(stack))
  }

  lemma {:induction false} StackPush(stack: seq<Listing>, top: Listing)
    ensures StackTotal(stack + [top], LogicalFileBytes)
         == StackTotal(stack, LogicalFileBytes) + Total(top, LogicalFileBytes)
    ensures StackTotal(stack + [top], NamespaceEntries)
         == StackTotal(stack, NamespaceEntries) + Total(top, NamespaceEntries)
    ensures StackScannable(stack + [top]) <==> StackScannable(stack) && Scannable(top)
  {
    assert (stack + [top])[..|stack|] == stack;
  }

  /** The innermost directory is one entry and the rest of its listing. */
  lemma {:induction false} StackTop(stack: seq<Listing>, r: Resource)
    requires stack != [] && stack[|stack| - 1].Entry?
    ensures
      var top := stack[|stack| - 1];
      StackTotal(stack, r)
      == StackTotal(stack[..|stack| - 1], r) + Own(top.node, r)
         + (if top.node.Dir? then Total(top.node.listing, r) else 0) + Total(top.rest, r)
  {
    var top := stack[|stack| - 1];
    assert Total(top, r) == NodeTotal(top.node, r) + Total(top.rest, r);
  }

  lemma ScanStart(root: Listing)
    ensures Scanning(Usage(0, 0), [root], root)
  {
    StackPush([], root);
    assert [] + [root] == [root];
  }

  lemma {:induction false} ScanFinished(usage: Usage, stack: seq<Listing>, root: Listing)
    requires Scanning(usage, stack, root)
    requires stack != [] && stack[|stack| - 1].Nil?
    ensures Scanning(usage, stack[..|stack| - 1], root)
    ensures StackTotal(stack[..|stack| - 1], NamespaceEntries) == StackTotal(stack, NamespaceEntries)
  {
  }

  /** One entry of the innermost directory, charged and found plain. */
  lemma ScanPlain(usage: Usage, stack: seq<Listing>, root: Listing)
    requires Scanning(usage, stack, root)
    requires stack != [] && stack[|stack| - 1].Entry? && !stack[|stack| - 1].node.Dir?
    ensures
      var top := stack[|stack| - 1];
      var next := stack[..|stack| - 1] + [top.rest];
      && StackTotal(next, NamespaceEntries) < StackTotal(stack, NamespaceEntries)
      && match Charge(usage, top.node)
         case Ok(charged) => Scanning(charged, next, root)
         case Err(_) => !Fits(FullUsage(root))
  {
    var top := stack[|stack| - 1];
    StackTop(stack, LogicalFileBytes);
    StackTop(stack, NamespaceEntries);
    StackPush(stack[..|stack| - 1], top.rest);
  }

  /** One entry of the innermost directory, charged and found to be a directory. */
  lemma ScanDir(usage: Usage, stack: seq<Listing>, root: Listing)
    requires Scanning(usage, stack, root)
    requires stack != [] && stack[|stack| - 1].Entry? && stack[|stack| - 1].node.Dir?
    ensures
      var top := stack[|stack| - 1];
      var next := stack[..|stack| - 1] + [top.rest] + [top.node.listing];
      && StackTotal(next, NamespaceEntries) < StackTotal(stack, NamespaceEntries)
      && (ActivePolicy(top.node.listing) != Ok(false) ==> !Scannable(root))
      && match Charge(usage, top.node)
         case Ok(charged) => ActivePolicy(top.node.listing) == Ok(false) ==> Scanning(charged, next, root)
         case Err(_) => !Fits(FullUsage(root))
  {
    var top := stack[|stack| - 1];
    StackTop(stack, LogicalFileBytes);
    StackTop(stack, NamespaceEntries);
    StackPush(stack[..|stack| - 1], top.rest);
    StackPush(stack[..|stack| - 1] + [top.rest], top.node.listing);
  }

  /**
   Scans with an explicit stack of unfinished directories. The scan succeeds
   exactly when nothing below is managed and the totals fit, and then it has
   counted every entry once.
   */
  method Inventory(root: Listing) returns (r: Result<Usage, StorageError>)
    ensures ScanReport(r, Scannable(root), FullUsage(root))
  {
    var usage := Usage(0, 0);
    var directories := [root];
    ScanStart(root);
    while directories != []
      invariant Scanning(usage, directories, root)
      decreases StackTotal(directories, NamespaceEntries), |directories|
    {
      var below := directories[..|directories| - 1];
      match directories[|directories| - 1]
      case Nil =>
        ScanFinished(usage, directories, root);
        directories := below;
      case Entry(_, node, rest) =>
        var charged := Charge(usage, node);
        if node.Dir? {
          ScanDir(usage, directories, root);
        } else {
          ScanPlain(usage, directories, root);
        }
        if charged.Err? {
          return Err(charged.error);
        }
        usage := charged.value;
        if node.Dir? {
          var policy := ActivePolicy(node.listing);
          if policy.Err? {
            return Err(policy.error);
          }
          if policy.value {
            return Err(UnsupportedRoot);
          }
          directories := below + [rest] + [node.listing];
        } else {
          directories := below + [rest];
        }
    }
    r := Ok(usage);
  }

  /** Whether `local_usage` looks inside a directory of this name. */
  predicate Inside(name: Name, created: Option<Name>) {
    name == MetadataDirectory || created == Some(name)
  }

  /** Direct children, plus everything inside the metadata directory and the created chain. */
  function LocalTotal(listing: Listing, created: Option<Name>, r: Resource): nat {
    match listing
    case Nil => 0
    case Entry(name, node, rest) =>
      (if Inside(name, created) then NodeTotal(node, r) else Own(node, r)) + LocalTotal(rest, created, r)
  }

  function LocalView(listing: Listing, created: Option<Name>): Usage {
    Usage(LocalTotal(listing, created, LogicalFileBytes), LocalTotal(listing, created, NamespaceEntries))
  }

  predicate LocalScannable(listing: Listing, created: Option<Name>) {
    match listing
    case Nil => true
    case Entry(name, node, rest) =>
      && (node.Dir? && Inside(name, created) ==> Scannable(node.listing))
      && LocalScannable(rest, created)
  }

  method LocalUsage(listing: Listing, created: Option<Name>) returns (r: Result<Usage, StorageError>)
    ensures ScanReport(r, LocalScannable(listing, created), LocalView(listing, created))
  {
    var usage := Usage(0, 0);
    var todo := listing;
    while todo.Entry?
      invariant Fits(usage)
      invariant usage.bytes + LocalTotal(todo, created, LogicalFileBytes)
             == LocalTotal(listing, created, LogicalFileBytes)
      invariant usage.entries + LocalTotal(todo, created, NamespaceEntries)
             == LocalTotal(listing, created, NamespaceEntries)
      invariant LocalScannable(listing, created) <==> LocalScannable(todo, created)
      decreases todo
    {
      var charged := Charge(usage, todo.node);
      if charged.Err? {
        return Err(charged.error);
      }
      usage := charged.value;
      if todo.node.Dir? && Inside(todo.name, created) {
        var nested := Inventory(todo.node.listing);
        if nested.Err? {
          return Err(nested.error);
        }
        var bytes := Add(usage.bytes, nested.value.bytes);
        if bytes.Err? {
          return Err(bytes.error);
        }
        var entries := Add(usage.entries, nested.value.entries);
        if entries.Err? {
          return Err(entries.error);
        }
        usage := Usage(bytes.value, entries.value);
      }
      todo := todo.rest;
    }
    r := Ok(usage);
  }

  // ---- Accounting laws ----

  /** What `local_usage` does not look at: the inside of all other subdirectories. */
  function Elsewhere(listing: Listing, created: Option<Name>, r: Resource): nat {
    match listing
    case Nil => 0
    case Entry(name, node, rest) =>
      (if node.Dir? && !Inside(name, created) then Total(node.listing, r) else 0)
      + Elsewhere(rest, created, r)
  }

  lemma {:induction false} LocalAndElsewhere(listing: Listing, created: Option<Name>, r: Resource)
    ensures Total(listing, r) == LocalTotal(listing, created, r) + Elsewhere(listing, created, r)
  {
    if listing.Entry? {
      LocalAndElsewhere(listing.rest, created, r);
    }
  }

  lemma {:induction false} GetPut(listing: Listing, name: Name, node: Node, other: Name)
    ensures Get(Put(listing, name, node), other) == if other == name then Some(node) else Get(listing, other)
  {
    if listing.Entry? {
      GetPut(listing.rest, name, node, other);
    }
  }

  lemma {:induction false} GetRemoveOther(listing: Listing, name: Name, other: Name)
    requires other != name
    ensures Get(Remove(listing, name), other) == Get(listing, other)
  {
    if listing.Entry? {
      GetRemoveOther(listing.rest, name, other);
    }
  }

  lemma {:induction false} TotalPut(listing: Listing, name: Name, node: Node, r: Resource)
    ensures Total(Put(listing, name, node), r) + OptionTotal(Get(listing, name), r)
         == Total(listing, r) + NodeTotal(node, r)
  {
    if listing.Entry? {
      TotalPut(listing.rest, name, node, r);
    }
  }

  lemma {:induction false} TotalRemove(listing: Listing, name: Name, r: Resource)
    ensures Total(Remove(listing, name), r) + OptionTotal(Get(listing, name), r) == Total(listing, r)
  {
    if listing.Entry? {
      TotalRemove(listing.rest, name, r);
    }
  }

  lemma {:induction false} AtSetAt(listing: Listing, path: Path, next: Listing)
    requires At(listing, path).Some?
    ensures At(SetAt(listing, path, next), path) == Some(next)
    decreases |path|
  {
    if path != [] {
      var below := Get(listing, path[0]).value.listing;
      AtSetAt(below, path[1..], next);
      GetPut(listing, path[0], Dir(SetAt(below, path[1..], next)), path[0]);
    }
  }

  /** Replacing one directory's listing moves the whole total by exactly that directory's change. */
  lemma {:induction false} TotalSetAt(listing: Listing, path: Path, next: Listing, r: Resource)
    requires At(listing, path).Some?
    ensures Total(SetAt(listing, path, next), r) + Total(At(listing, path).value, r)
         == Total(listing, r) + Total(next, r)
    decreases |path|
  {
    if path != [] {
      var below := Get(listing, path[0]).value.listing;
      TotalSetAt(below, path[1..], next, r);
      TotalPut(listing, path[0], Dir(SetAt(below, path[1..], next)), r);
    }
  }

  lemma {:induction false} AtAppend(listing: Listing, path: Path, more: Path)
    ensures At(listing, path + more)
         == if At(listing, path).Some? then At(At(listing, path).value, more) else None
    decreases |path|
  {
    if path == [] {
      assert path + more == more;
    } else {
      assert (path + more)[1..] == path[1..] + more;
      match Get(listing, path[0])
      case Some(Dir(below)) => AtAppend(below, path[1..], more);
      case _ =>
    }
  }

  lemma {:induction false} SetAtAppend(listing: Listing, path: Path, more: Path, next: Listing)
    requires At(listing, path).Some? && At(At(listing, path).value, more).Some?
    ensures At(listing, path + more).Some?
    ensures SetAt(listing, path + more, next)
         == SetAt(listing, path, SetAt(At(listing, path).value, more, next))
    decreases |path|
  {
    AtAppend(listing, path, more);
    if path == [] {
      assert path + more == more;
    } else {
      assert (path + more)[1..] == path[1..] + more;
      SetAtAppend(Get(listing, path[0]).value.listing, path[1..], more, next);
    }
  }

  predicate Plain(node: Option<Node>) {
    node.Some? ==> !node.value.Dir?
  }

  /** Replacing an entry disturbs nothing outside the local view if both nodes are plain or the name is inside. */
  lemma {:induction false} ElsewherePut(listing: Listing, name: Name, node: Node, created: Option<Name>, r: Resource)
    requires Inside(name, created) || (Plain(Get(listing, name)) && !node.Dir?)
    ensures Elsewhere(Put(listing, name, node), created, r) == Elsewhere(listing, created, r)
  {
    if listing.Entry? && listing.name != name {
      ElsewherePut(listing.rest, name, node, created, r);
    }
  }

  lemma {:induction false} ElsewhereRemove(listing: Listing, name: Name, created: Option<Name>, r: Resource)
    requires Inside(name, created) || Plain(Get(listing, name))
    ensures Elsewhere(Remove(listing, name), created, r) == Elsewhere(listing, created, r)
  {
    if listing.Entry? && listing.name != name {
      ElsewhereRemove(listing.rest, name, created, r);
    }
  }

  /** An edit below an inside directory is invisible elsewhere. */
  lemma {:induction false} ElsewhereSetAt(listing: Listing, path: Path, next: Listing, created: Option<Name>, r: Resource)
    requires path != [] && Inside(path[0], created)
    requires At(listing, path).Some?
    ensures Elsewhere(SetAt(listing, path, next), created, r) == Elsewhere(listing, created, r)
  {
    ElsewherePut(listing, path[0],
                 Dir(SetAt(Get(listing, path[0]).value.listing, path[1..], next)), created, r);
  }

  /**
   The delta law behind `commit`: if a publication leaves everything outside the
   local view of the directory at `existing` alone, the full inventory moves by
   exactly the observed local difference.
   */
  lemma {:induction false} DeltaLaw(tree: Listing, existing: Path, next: Listing, created: Option<Name>, r: Resource)
    requires At(tree, existing).Some?
    requires Elsewhere(next, created, r) == Elsewhere(At(tree, existing).value, created, r)
    ensures Total(SetAt(tree, existing, next), r) + LocalTotal(At(tree, existing).value, created, r)
         == Total(tree, r) + LocalTotal(next, created, r)
  {
    TotalSetAt(tree, existing, next, r);
    LocalAndElsewhere(next, created, r);
    LocalAndElsewhere(At(tree, existing).value, created, r);
  }
}
