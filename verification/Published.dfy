/**
 What a completed publication leaves behind: the file operations of the plan,
 carried out to the end, put the HTML and its metadata under the requested name
 and leave every other published entry of the directory alone.
 */
module Published {
  import opened Bytes
  import opened SiteTree
  import opened Staging

  function ApplyAll(listing: Listing, ops: seq<Op>): Option<Listing>
    decreases |ops|
  {
    if ops == [] then Some(listing)
    else
      match Apply(listing, ops[0])
      case None => None
      case Some(next) => ApplyAll(next, ops[1..])
  }

  lemma {:induction false} ApplyAllAppend(listing: Listing, a: seq<Op>, b: seq<Op>)
    ensures ApplyAll(listing, a + b)
         == if ApplyAll(listing, a).Some? then ApplyAll(ApplyAll(listing, a).value, b) else None
    decreases |a|
  {
    if a == [] {
      assert a + b == b;
    } else {
      assert (a + b)[0] == a[0] && (a + b)[1..] == a[1..] + b;
      if Apply(listing, a[0]).Some? {
        ApplyAllAppend(Apply(listing, a[0]).value, a[1..], b);
      }
    }
  }

  /** An entry of the directory at `dir`, if both exist. */
  function Look(listing: Listing, dir: Path, name: Name): Option<Node> {
    match At(listing, dir)
    case None => None
    case Some(here) => Get(here, name)
  }

  lemma {:induction false} PutInLook(listing: Listing, dir: Path, name: Name, node: Node)
    requires At(listing, dir).Some?
    ensures At(PutIn(listing, dir, name, node), dir) == Some(Put(At(listing, dir).value, name, node))
    ensures forall n :: Look(PutIn(listing, dir, name, node), dir, n)
                     == if n == name then Some(node) else Look(listing, dir, n)
  {
    AtSetAt(listing, dir, Put(At(listing, dir).value, name, node));
    forall n ensures Look(PutIn(listing, dir, name, node), dir, n)
                  == if n == name then Some(node) else Look(listing, dir, n)
    {
      GetPut(At(listing, dir).value, name, node, n);
    }
  }

  /** An operation other than a rename changes the entry it names and no other. */
  lemma {:induction false} PlainOp(listing: Listing, op: Op, next: Listing)
    requires Apply(listing, op) == Some(next) && !op.Rename?
    ensures At(listing, op.dir).Some? && At(next, op.dir).Some?
    ensures forall n :: n != op.name ==> Look(next, op.dir, n) == Look(listing, op.dir, n)
    ensures op.MkDir? ==> Look(next, op.dir, op.name).Some? && Look(next, op.dir, op.name).value.Dir?
    ensures op.CreateNew? ==> Look(next, op.dir, op.name) == Some(File([]))
    ensures op.Write? ==>
      && Look(listing, op.dir, op.name).Some? && Look(listing, op.dir, op.name).value.File?
      && Look(next, op.dir, op.name) == Some(File(Look(listing, op.dir, op.name).value.content + op.bytes))
  {
    var here := At(listing, op.dir).value;
    match op
    case MkDir(dir, name) => PutInLook(listing, dir, name, Dir(Nil));
    case OpenLock(dir, name) => PutInLook(listing, dir, name, File([]));
    case CreateNew(dir, name) => PutInLook(listing, dir, name, File([]));
    case Write(dir, name, bytes) => PutInLook(listing, dir, name, File(Get(here, name).value.content + bytes));
  }

  lemma {:induction false} RemoveInLook(listing: Listing, dir: Path, name: Name)
    requires At(listing, dir).Some?
    ensures At(RemoveIn(listing, dir, name), dir).Some?
    ensures forall n :: n != name ==> Look(RemoveIn(listing, dir, name), dir, n) == Look(listing, dir, n)
  {
    var here := At(listing, dir).value;
    AtSetAt(listing, dir, Remove(here, name));
    forall n | n != name ensures Look(RemoveIn(listing, dir, name), dir, n) == Look(listing, dir, n) {
      GetRemoveOther(here, name, n);
    }
  }

  /** A rename within the directory. */
  lemma {:induction false} RenameHere(listing: Listing, dir: Path, name: Name, target: Name, next: Listing)
    requires Apply(listing, Rename(dir, name, dir, target)) == Some(next)
    ensures At(next, dir).Some? && Look(next, dir, target) == Look(listing, dir, name)
    ensures forall n :: n != name && n != target ==> Look(next, dir, n) == Look(listing, dir, n)
  {
    RemoveInLook(listing, dir, name);
    PutInLook(RemoveIn(listing, dir, name), dir, target, Look(listing, dir, name).value);
  }

  /** Two levels down: the directory `sub` of the directory at `dir`. */
  lemma {:induction false} LookBelow(listing: Listing, dir: Path, sub: Name)
    ensures At(listing, dir + [sub]).Some? <==>
              Look(listing, dir, sub).Some? && Look(listing, dir, sub).value.Dir?
    ensures At(listing, dir + [sub]).Some? ==>
              At(listing, dir + [sub]).value == Look(listing, dir, sub).value.listing
  {
    AtAppend(listing, dir, [sub]);
    if At(listing, dir).Some? {
      var here := At(listing, dir).value;
      assert [sub][0] == sub && [sub][1..] == [];
      match Get(here, sub)
      case Some(Dir(below)) => assert At(here, [sub]) == At(below, [sub][1..]);
      case _ =>
    }
  }

  /** What a node shows under a name, if it is a directory. */
  function Shown(node: Option<Node>, n: Name): Option<Node> {
    if node.Some? && node.value.Dir? then Get(node.value.listing, n) else None
  }

  lemma LookInside(listing: Listing, dir: Path, sub: Name, n: Name)
    ensures Look(listing, dir + [sub], n) == Shown(Look(listing, dir, sub), n)
  {
    LookBelow(listing, dir, sub);
  }

  /** A rename into the subdirectory `sub`. */
  lemma {:induction false} RenameBelow(listing: Listing, dir: Path, name: Name, sub: Name, target: Name, next: Listing)
    requires Apply(listing, Rename(dir, name, dir + [sub], target)) == Some(next) && name != sub
    ensures At(next, dir).Some?
    ensures At(next, dir + [sub]).Some? && At(listing, dir + [sub]).Some?
    ensures Look(next, dir + [sub], target) == Look(listing, dir, name)
    ensures forall n :: n != target ==> Look(next, dir + [sub], n) == Look(listing, dir + [sub], n)
    ensures forall n :: n != name && n != sub ==> Look(next, dir, n) == Look(listing, dir, n)
  {
    var without, node := RemoveIn(listing, dir, name), Look(listing, dir, name).value;
    RemoveInLook(listing, dir, name);
    LookBelow(listing, dir, sub);
    LookBelow(without, dir, sub);
    var here, below := At(without, dir).value, At(without, dir + [sub]).value;
    PutInLook(without, dir + [sub], target, node);
    PutBelow(without, dir, sub, Put(below, target, node), next);
  }

  /** Replacing the subdirectory's listing changes nothing else in the directory. */
  lemma {:induction false} PutBelow(listing: Listing, dir: Path, sub: Name, below: Listing, next: Listing)
    requires At(listing, dir).Some? && At(listing, dir + [sub]).Some?
    requires next == SetAt(listing, dir + [sub], below)
    ensures At(next, dir).Some?
    ensures forall n :: n != sub ==> Look(next, dir, n) == Look(listing, dir, n)
  {
    var here := At(listing, dir).value;
    AtAppend(listing, dir, [sub]);
    SetAtAppend(listing, dir, [sub], below);
    var after := SetAt(here, [sub], below);
    AtSetAt(listing, dir, after);
    forall n | n != sub ensures Get(after, n) == Get(here, n) {
      GetPut(here, sub, Dir(SetAt(Get(here, sub).value.listing, [sub][1..], below)), n);
    }
  }

  // ---- Above the destination ----

  /** An edit further down leaves the other entries of every directory on the way. */
  lemma {:induction false} SetAtUpper(listing: Listing, dir: Path, next: Listing, i: nat, n: Name)
    requires At(listing, dir).Some? && i < |dir| && n != dir[i]
    ensures Look(SetAt(listing, dir, next), dir[..i], n) == Look(listing, dir[..i], n)
    decreases |dir|
  {
    var below := Get(listing, dir[0]).value.listing;
    var node := Dir(SetAt(below, dir[1..], next));
    if i == 0 {
      GetPut(listing, dir[0], node, n);
    } else {
      GetPut(listing, dir[0], node, dir[0]);
      assert dir[..i][1..] == dir[1..][..i - 1];
      SetAtUpper(below, dir[1..], next, i - 1, n);
    }
  }

  /** The operation acts at or below `chain`. */
  predicate Under(op: Op, chain: Path) {
    && |chain| <= |op.dir| && op.dir[..|chain|] == chain
    && (op.Rename? ==> |chain| <= |op.to| && op.to[..|chain|] == chain)
  }

  lemma {:induction false} PutInUpper(listing: Listing, dir: Path, next: Listing, chain: Path, i: nat, n: Name)
    requires At(listing, dir).Some? && |chain| <= |dir| && dir[..|chain|] == chain && i < |chain| && n != chain[i]
    ensures Look(SetAt(listing, dir, next), chain[..i], n) == Look(listing, chain[..i], n)
  {
    assert dir[..i] == chain[..i] && dir[i] == chain[i];
    SetAtUpper(listing, dir, next, i, n);
  }

  lemma ApplyUpper(listing: Listing, op: Op, next: Listing, chain: Path, i: nat, n: Name)
    requires Apply(listing, op) == Some(next) && Under(op, chain) && i < |chain| && n != chain[i]
    ensures Look(next, chain[..i], n) == Look(listing, chain[..i], n)
  {
    var here := At(listing, op.dir).value;
    if next != listing {
      match op
      case MkDir(dir, name) => PutInUpper(listing, dir, Put(here, name, Dir(Nil)), chain, i, n);
      case OpenLock(dir, name) => PutInUpper(listing, dir, Put(here, name, File([])), chain, i, n);
      case CreateNew(dir, name) => PutInUpper(listing, dir, Put(here, name, File([])), chain, i, n);
      case Write(dir, name, bytes) =>
        PutInUpper(listing, dir, Put(here, name, File(Get(here, name).value.content + bytes)), chain, i, n);
      case Rename(dir, name, to, target) =>
        var without := RemoveIn(listing, dir, name);
        PutInUpper(listing, dir, Remove(here, name), chain, i, n);
        PutInUpper(without, to, Put(At(without, to).value, target, Get(here, name).value), chain, i, n);
    }
  }

  lemma {:induction false} UpperKept(listing: Listing, ops: seq<Op>, next: Listing, chain: Path, i: nat, n: Name)
    requires ApplyAll(listing, ops) == Some(next) && (forall k :: 0 <= k < |ops| ==> Under(ops[k], chain))
    requires i < |chain| && n != chain[i]
    ensures Look(next, chain[..i], n) == Look(listing, chain[..i], n)
    decreases |ops|
  {
    if ops != [] {
      var step := First(listing, ops);
      ApplyUpper(listing, ops[0], step, chain, i, n);
      UpperKept(step, ops[1..], next, chain, i, n);
    }
  }

  // ---- Making the chain ----

  lemma NilLook(p: Path, n: Name)
    ensures Look(Nil, p, n) == None
  {
  }

  /** A new empty directory shows nothing that was not there, whichever way it is looked at. */
  lemma {:induction false} NewDirLook(listing: Listing, dir: Path, name: Name, p: Path, n: Name)
    requires At(listing, dir).Some? && Get(At(listing, dir).value, name).None?
    requires !(p == dir && n == name) && !(|p| < |dir| && dir[..|p|] == p && n == dir[|p|])
    ensures Look(PutIn(listing, dir, name, Dir(Nil)), p, n) == Look(listing, p, n)
    decreases |dir|
  {
    if dir == [] {
      if p == [] {
        GetPut(listing, name, Dir(Nil), n);
      } else {
        GetPut(listing, name, Dir(Nil), p[0]);
        NilLook(p[1..], n);
      }
    } else {
      var below := Get(listing, dir[0]).value.listing;
      var node := Dir(PutIn(below, dir[1..], name, Dir(Nil)));
      assert PutIn(listing, dir, name, Dir(Nil)) == Put(listing, dir[0], node);
      if p == [] {
        GetPut(listing, dir[0], node, n);
      } else {
        GetPut(listing, dir[0], node, p[0]);
        if p[0] == dir[0] {
          assert |p| < |dir| && dir[1..][..|p| - 1] == p[1..] ==> dir[..|p|] == [dir[0]] + p[1..] == p;
          assert dir == [dir[0]] + dir[1..] && p == [p[0]] + p[1..];
          NewDirLook(below, dir[1..], name, p[1..], n);
        }
      }
    }
  }

  /** Creating the missing parents shows nothing new but the parents themselves. */
  lemma {:induction false} MakeChainLook(listing: Listing, chain: Path, from: nat, next: Listing, k: nat, n: Name)
    requires ApplyAll(listing, MakeChain(chain, from)) == Some(next) && k <= |chain| && (k < |chain| ==> n != chain[k])
    ensures Look(next, chain[..k], n) == Look(listing, chain[..k], n)
    decreases |chain| - from
  {
    if from < |chain| {
      var ops := MakeChain(chain, from);
      var step := First(listing, ops);
      assert ops[1..] == MakeChain(chain, from + 1);
      MakeChainLook(step, chain, from + 1, next, k, n);
      var dir := chain[..from];
      assert k < from ==> dir[k] == chain[k];
      if step != listing {
        NewDirLook(listing, dir, chain[from], chain[..k], n);
      }
    }
  }

  // ---- The whole plan ----

  predicate Touched(q: Request, n: Name) {
    n == q.name || n == q.scratch || n == q.htmlTemp || n == q.metadataTemp
    || n == PublicationLock || n == MetadataDirectory
  }

  function Prepare(dir: Path, q: Request): seq<Op> {
    [OpenLock(dir, q.scratch),
     CreateNew(dir, q.htmlTemp), Write(dir, q.htmlTemp, q.html),
     CreateNew(dir, q.metadataTemp), Write(dir, q.metadataTemp, q.metadata)]
  }

  function Replace(dir: Path, q: Request): seq<Op> {
    [OpenLock(dir, PublicationLock), MkDir(dir, MetadataDirectory),
     Rename(dir, q.metadataTemp, dir + [MetadataDirectory], q.name),
     Rename(dir, q.htmlTemp, dir, q.name)]
  }

  /** One more operation of a run that completes. */
  lemma First(listing: Listing, ops: seq<Op>) returns (next: Listing)
    requires ops != [] && ApplyAll(listing, ops).Some?
    ensures Apply(listing, ops[0]) == Some(next) && ApplyAll(next, ops[1..]) == ApplyAll(listing, ops)
  {
    next := Apply(listing, ops[0]).value;
  }

  lemma {:induction false} PrepareEffect(listing: Listing, dir: Path, q: Request, next: Listing)
    requires ValidRequest(q) && q.htmlTemp != q.metadataTemp
    requires ApplyAll(listing, Prepare(dir, q)) == Some(next)
    ensures At(listing, dir).Some? && At(next, dir).Some?
    ensures Look(next, dir, q.htmlTemp) == Some(File(q.html))
    ensures Look(next, dir, q.metadataTemp) == Some(File(q.metadata))
    ensures forall n :: !Touched(q, n) || n == q.name || n == MetadataDirectory ==> Look(next, dir, n) == Look(listing, dir, n)
    ensures forall n :: Look(next, dir + [MetadataDirectory], n) == Look(listing, dir + [MetadataDirectory], n)
  {
    var ops := Prepare(dir, q);
    var l1 := First(listing, ops);
    PlainOp(listing, ops[0], l1);
    var l2 := First(l1, ops[1..]);
    PlainOp(l1, ops[1], l2);
    var l3 := First(l2, ops[1..][1..]);
    PlainOp(l2, ops[2], l3);
    var l4 := First(l3, ops[1..][1..][1..]);
    PlainOp(l3, ops[3], l4);
    var l5 := First(l4, ops[1..][1..][1..][1..]);
    PlainOp(l4, ops[4], l5);
    assert ops[1..][1..][1..][1..][1..] == [] && l5 == next;
    assert [] + q.html == q.html && [] + q.metadata == q.metadata;
    forall n ensures Look(next, dir + [MetadataDirectory], n) == Look(listing, dir + [MetadataDirectory], n) {
      LookInside(next, dir, MetadataDirectory, n);
      LookInside(listing, dir, MetadataDirectory, n);
    }
  }

  /** Opening the metadata directory shows nothing new in it. */
  lemma MetadataOpens(listing: Listing, dir: Path, next: Listing, n: Name)
    requires Apply(listing, MkDir(dir, MetadataDirectory)) == Some(next)
    ensures Look(next, dir + [MetadataDirectory], n) == Look(listing, dir + [MetadataDirectory], n)
  {
    LookInside(next, dir, MetadataDirectory, n);
    LookInside(listing, dir, MetadataDirectory, n);
    if next != listing {
      PutInLook(listing, dir, MetadataDirectory, Dir(Nil));
    }
  }

  lemma {:induction false} ReplaceEffect(listing: Listing, dir: Path, q: Request, next: Listing)
    requires ValidRequest(q) && q.htmlTemp != q.metadataTemp
    requires ApplyAll(listing, Replace(dir, q)) == Some(next)
    ensures At(next, dir).Some? && At(next, dir + [MetadataDirectory]).Some?
    ensures Look(next, dir, q.name) == Look(listing, dir, q.htmlTemp)
    ensures Look(next, dir + [MetadataDirectory], q.name) == Look(listing, dir, q.metadataTemp)
    ensures forall n :: !Touched(q, n) ==> Look(next, dir, n) == Look(listing, dir, n)
    ensures forall n :: n != q.name ==> Look(next, dir + [MetadataDirectory], n) == Look(listing, dir + [MetadataDirectory], n)
  {
    var ops, meta := Replace(dir, q), dir + [MetadataDirectory];
    var l1 := First(listing, ops);
    PlainOp(listing, ops[0], l1);
    var l2 := First(l1, ops[1..]);
    PlainOp(l1, ops[1], l2);
    var l3 := First(l2, ops[1..][1..]);
    RenameBelow(l2, dir, q.metadataTemp, MetadataDirectory, q.name, l3);
    var l4 := First(l3, ops[1..][1..][1..]);
    RenameHere(l3, dir, q.htmlTemp, q.name, l4);
    assert ops[1..][1..][1..][1..] == [] && l4 == next;
    LookBelow(l3, dir, MetadataDirectory);
    LookBelow(l4, dir, MetadataDirectory);
    forall n | n != q.name ensures Look(next, meta, n) == Look(listing, meta, n) {
      LookInside(listing, dir, MetadataDirectory, n);
      LookInside(l1, dir, MetadataDirectory, n);
      MetadataOpens(l1, dir, l2, n);
    }
  }

  lemma PublishUnder(chain: Path, q: Request)
    ensures forall k :: 0 <= k < |Publish(chain, q)| ==> Under(Publish(chain, q)[k], chain)
  {
    assert (chain + [MetadataDirectory])[..|chain|] == chain;
  }

  /**
   A publication whose every operation succeeds ends with the HTML and the metadata
   it was given, each under the requested name in its own directory. The other pages
   of the directory, their metadata, and everything beside the directories on the way
   to it are as they were.
   */
  lemma {:induction false} PlanPublishes(listing: Listing, chain: Path, q: Request, next: Listing)
    requires ValidRequest(q) && q.htmlTemp != q.metadataTemp
    requires ApplyAll(listing, Plan(chain, q)) == Some(next)
    ensures Look(next, chain, q.name) == Some(File(q.html))
    ensures Look(next, chain + [MetadataDirectory], q.name) == Some(File(q.metadata))
    ensures forall n :: !Touched(q, n) ==> Look(next, chain, n) == Look(listing, chain, n)
    ensures forall n :: n != q.name ==>
      Look(next, chain + [MetadataDirectory], n) == Look(listing, chain + [MetadataDirectory], n)
    ensures forall i, n :: 0 <= i < |chain| && n != chain[i] ==> Look(next, chain[..i], n) == Look(listing, chain[..i], n)
  {
    ApplyAllAppend(listing, MakeChain(chain, 0), Publish(chain, q));
    var made := ApplyAll(listing, MakeChain(chain, 0)).value;
    PublishEffect(made, chain, q, next);
    forall n ensures Look(made, chain, n) == Look(listing, chain, n) {
      assert chain[..|chain|] == chain;
      MakeChainLook(listing, chain, 0, made, |chain|, n);
    }
    forall n | n != q.name
      ensures Look(next, chain + [MetadataDirectory], n) == Look(listing, chain + [MetadataDirectory], n)
    {
      LookInside(made, chain, MetadataDirectory, n);
      LookInside(listing, chain, MetadataDirectory, n);
    }
    forall i, n | 0 <= i < |chain| && n != chain[i] ensures Look(next, chain[..i], n) == Look(listing, chain[..i], n) {
      MakeChainLook(listing, chain, 0, made, i, n);
      PublishUnder(chain, q);
      UpperKept(made, Publish(chain, q), next, chain, i, n);
    }
  }

  /**
   Metadata is replaced before HTML: when everything but the two renames is done, both
   entries are as they were; one rename later the metadata is the new one and the HTML
   still the old one.
   */
  lemma {:induction false} RenamesInOrder(listing: Listing, chain: Path, q: Request, ready: Listing, between: Listing)
    requires ValidRequest(q) && q.htmlTemp != q.metadataTemp
    requires ApplyAll(listing, MakeChain(chain, 0) + Publish(chain, q)[..7]) == Some(ready)
    requires ApplyAll(listing, MakeChain(chain, 0) + Publish(chain, q)[..8]) == Some(between)
    ensures Look(ready, chain, q.name) == Look(listing, chain, q.name)
    ensures Look(ready, chain + [MetadataDirectory], q.name) == Look(listing, chain + [MetadataDirectory], q.name)
    ensures Look(between, chain, q.name) == Look(listing, chain, q.name)
    ensures Look(between, chain + [MetadataDirectory], q.name) == Some(File(q.metadata))
  {
    var publish := Publish(chain, q);
    ApplyAllAppend(listing, MakeChain(chain, 0), publish[..7]);
    ApplyAllAppend(listing, MakeChain(chain, 0), publish[..8]);
    var made := ApplyAll(listing, MakeChain(chain, 0)).value;
    assert chain[..|chain|] == chain;
    MakeChainLook(listing, chain, 0, made, |chain|, q.name);
    MakeChainLook(listing, chain, 0, made, |chain|, MetadataDirectory);
    LookInside(made, chain, MetadataDirectory, q.name);
    LookInside(listing, chain, MetadataDirectory, q.name);
    var locks := [OpenLock(chain, PublicationLock), MkDir(chain, MetadataDirectory)];
    assert publish[..7] == Prepare(chain, q) + locks;
    ApplyAllAppend(made, Prepare(chain, q), locks);
    var staged := ApplyAll(made, Prepare(chain, q)).value;
    PrepareEffect(made, chain, q, staged);
    LocksEffect(staged, chain, q, ready);
    var rename := [Rename(chain, q.metadataTemp, chain + [MetadataDirectory], q.name)];
    assert publish[..8] == publish[..7] + rename && rename[1..] == [];
    ApplyAllAppend(made, publish[..7], rename);
    var last := First(ready, rename);
    RenameBelow(ready, chain, q.metadataTemp, MetadataDirectory, q.name, between);
  }

  lemma {:induction false} LocksEffect(staged: Listing, dir: Path, q: Request, ready: Listing)
    requires ValidRequest(q)
    requires ApplyAll(staged, [OpenLock(dir, PublicationLock), MkDir(dir, MetadataDirectory)]) == Some(ready)
    ensures forall n :: n != PublicationLock && n != MetadataDirectory ==> Look(ready, dir, n) == Look(staged, dir, n)
    ensures Look(ready, dir + [MetadataDirectory], q.name) == Look(staged, dir + [MetadataDirectory], q.name)
  {
    var ops := [OpenLock(dir, PublicationLock), MkDir(dir, MetadataDirectory)];
    var l1 := First(staged, ops);
    PlainOp(staged, ops[0], l1);
    var l2 := First(l1, ops[1..]);
    PlainOp(l1, ops[1], l2);
    assert ops[1..][1..] == [];
    LookInside(staged, dir, MetadataDirectory, q.name);
    LookInside(l1, dir, MetadataDirectory, q.name);
    MetadataOpens(l1, dir, l2, q.name);
  }

  lemma {:induction false} PublishEffect(made: Listing, chain: Path, q: Request, next: Listing)
    requires ValidRequest(q) && q.htmlTemp != q.metadataTemp
    requires ApplyAll(made, Publish(chain, q)) == Some(next)
    ensures Look(next, chain, q.name) == Some(File(q.html))
    ensures Look(next, chain + [MetadataDirectory], q.name) == Some(File(q.metadata))
    ensures forall n :: !Touched(q, n) ==> Look(next, chain, n) == Look(made, chain, n)
    ensures forall n :: n != q.name ==>
      Look(next, chain + [MetadataDirectory], n) == Look(made, chain + [MetadataDirectory], n)
  {
    assert Publish(chain, q) == Prepare(chain, q) + Replace(chain, q);
    ApplyAllAppend(made, Prepare(chain, q), Replace(chain, q));
    var staged := ApplyAll(made, Prepare(chain, q)).value;
    PrepareEffect(made, chain, q, staged);
    ReplaceEffect(staged, chain, q, next);
  }
}
