/**
 The file operations of one static publication, in order, with what each may
 cost. All of them act on the listing of the deepest directory that existed at
 admission, so their effect on the site is an edit of that one directory.
 */
module Staging {
  import opened Bytes
  import opened ControlRecord
  import opened SiteTree

  /** One publication. The names of its lock bucket and temporaries are fixed beforehand. */
  datatype Request = Request(
    parents: Path, name: Name, html: seq<Byte>, metadata: seq<Byte>,
    scratch: Name, htmlTemp: Name, metadataTemp: Name)

  /** Published names never begin with a dot; lock and temporary names are reserved ones. */
  predicate ValidRequest(q: Request) {
    && q.name.Other? && q.scratch.ScratchLock? && q.htmlTemp.Temporary? && q.metadataTemp.Temporary?
  }

  /** Directories are relative to the deepest directory that existed at admission. */
  datatype Op =
    | MkDir(dir: Path, name: Name)
    | OpenLock(dir: Path, name: Name)
    | CreateNew(dir: Path, name: Name)
    | Write(dir: Path, name: Name, bytes: seq<Byte>)
    | Rename(dir: Path, name: Name, to: Path, target: Name)

  predicate Missing(listing: Listing, dir: Path, name: Name) {
    At(listing, dir).None? || Get(At(listing, dir).value, name).None?
  }

  function PutIn(listing: Listing, dir: Path, name: Name, node: Node): Listing
    requires At(listing, dir).Some?
  {
    SetAt(listing, dir, Put(At(listing, dir).value, name, node))
  }

  function RemoveIn(listing: Listing, dir: Path, name: Name): Listing
    requires At(listing, dir).Some?
  {
    SetAt(listing, dir, Remove(At(listing, dir).value, name))
  }

  /** One completed operation; `None` is a failure that changed nothing. */
  function Apply(listing: Listing, op: Op): Option<Listing> {
    match At(listing, op.dir)
    case None => None
    case Some(here) =>
      match (op, Get(here, op.name))
      case (MkDir(_, _), None) => Some(PutIn(listing, op.dir, op.name, Dir(Nil)))
      case (MkDir(_, _), Some(Dir(_))) => Some(listing)
      case (OpenLock(_, _), None) => Some(PutIn(listing, op.dir, op.name, File([])))
      case (OpenLock(_, _), Some(File(_))) => Some(listing)
      case (CreateNew(_, _), None) => Some(PutIn(listing, op.dir, op.name, File([])))
      case (Write(_, _, bytes), Some(File(content))) =>
        Some(PutIn(listing, op.dir, op.name, File(content + bytes)))
      case (Rename(_, _, to, target), Some(node)) =>
        if node.Dir? then None
        else
          var without := RemoveIn(listing, op.dir, op.name);
          if At(without, to).Some? && Plain(Get(At(without, to).value, target))
          then Some(PutIn(without, to, target, node)) else None
      case _ => None
  }

  /** The operations after admission; `chain` are the parent directories to create. */
  function Plan(chain: Path, q: Request): seq<Op> {
    MakeChain(chain, 0) + Publish(chain, q)
  }

  function MakeChain(chain: Path, from: nat): seq<Op>
    decreases |chain| - from
  {
    if from >= |chain| then [] else [MkDir(chain[..from], chain[from])] + MakeChain(chain, from + 1)
  }

  function Publish(dir: Path, q: Request): seq<Op> {
    [OpenLock(dir, q.scratch),
     CreateNew(dir, q.htmlTemp), Write(dir, q.htmlTemp, q.html),
     CreateNew(dir, q.metadataTemp), Write(dir, q.metadataTemp, q.metadata),
     OpenLock(dir, PublicationLock),
     MkDir(dir, MetadataDirectory),
     Rename(dir, q.metadataTemp, dir + [MetadataDirectory], q.name),
     Rename(dir, q.htmlTemp, dir, q.name)]
  }

  // ---- What an operation may cost ----

  function Cost(op: Op, listing: Listing, r: Resource): nat {
    match op
    case Write(_, _, bytes) => if r.LogicalFileBytes? then |bytes| else 0
    case Rename(_, _, _, _) => 0
    case CreateNew(_, _) => if r.NamespaceEntries? then 1 else 0
    case _ => if r.NamespaceEntries? && Missing(listing, op.dir, op.name) then 1 else 0
  }

  function CostSum(todo: seq<Op>, listing: Listing, r: Resource): nat {
    if todo == [] then 0 else Cost(todo[0], listing, r) + CostSum(todo[1..], listing, r)
  }

  lemma {:induction false} TotalPutIn(listing: Listing, dir: Path, name: Name, node: Node, r: Resource)
    requires At(listing, dir).Some?
    ensures Total(PutIn(listing, dir, name, node), r) + OptionTotal(Get(At(listing, dir).value, name), r)
         == Total(listing, r) + NodeTotal(node, r)
  {
    TotalPut(At(listing, dir).value, name, node, r);
    TotalSetAt(listing, dir, Put(At(listing, dir).value, name, node), r);
  }

  lemma {:induction false} TotalRemoveIn(listing: Listing, dir: Path, name: Name, r: Resource)
    requires At(listing, dir).Some?
    ensures Total(RemoveIn(listing, dir, name), r) + OptionTotal(Get(At(listing, dir).value, name), r)
         == Total(listing, r)
  {
    TotalRemove(At(listing, dir).value, name, r);
    TotalSetAt(listing, dir, Remove(At(listing, dir).value, name), r);
  }

  /** No operation grows the site by more than its cost. */
  lemma {:induction false} ApplyCost(listing: Listing, op: Op, r: Resource)
    requires Apply(listing, op).Some?
    ensures Total(Apply(listing, op).value, r) <= Total(listing, r) + Cost(op, listing, r)
  {
    var here := At(listing, op.dir).value;
    match op
    case MkDir(dir, name) => TotalPutIn(listing, dir, name, Dir(Nil), r);
    case OpenLock(dir, name) => TotalPutIn(listing, dir, name, File([]), r);
    case CreateNew(dir, name) => TotalPutIn(listing, dir, name, File([]), r);
    case Write(dir, name, bytes) =>
      TotalPutIn(listing, dir, name, File(Get(here, name).value.content + bytes), r);
    case Rename(dir, name, to, target) =>
      TotalRemoveIn(listing, dir, name, r);
      TotalPutIn(RemoveIn(listing, dir, name), to, target, Get(here, name).value, r);
  }

  /** Anything but a rename grows the site by exactly its cost. */
  lemma {:induction false} ApplyExact(listing: Listing, op: Op, r: Resource)
    requires Apply(listing, op).Some? && !op.Rename?
    ensures Total(Apply(listing, op).value, r) == Total(listing, r) + Cost(op, listing, r)
  {
    var here := At(listing, op.dir).value;
    match op
    case MkDir(dir, name) => TotalPutIn(listing, dir, name, Dir(Nil), r);
    case OpenLock(dir, name) => TotalPutIn(listing, dir, name, File([]), r);
    case CreateNew(dir, name) => TotalPutIn(listing, dir, name, File([]), r);
    case Write(dir, name, bytes) =>
      TotalPutIn(listing, dir, name, File(Get(here, name).value.content + bytes), r);
  }

  // ---- Operations that do not change what the local view leaves out ----

  predicate InView(dir: Path, created: Option<Name>) {
    dir == [] || Inside(dir[0], created)
  }

  predicate Confined(op: Op, created: Option<Name>) {
    && InView(op.dir, created)
    && (op.MkDir? && op.dir == [] ==> Inside(op.name, created))
    && (op.Rename? ==> InView(op.to, created))
  }

  lemma {:induction false} ElsewherePutIn(listing: Listing, dir: Path, name: Name, node: Node, created: Option<Name>, r: Resource)
    requires At(listing, dir).Some? && InView(dir, created)
    requires dir == [] && !Inside(name, created) ==> Plain(Get(listing, name)) && !node.Dir?
    ensures Elsewhere(PutIn(listing, dir, name, node), created, r) == Elsewhere(listing, created, r)
  {
    if dir == [] {
      ElsewherePut(listing, name, node, created, r);
    } else {
      ElsewhereSetAt(listing, dir, Put(At(listing, dir).value, name, node), created, r);
    }
  }

  lemma {:induction false} ElsewhereRemoveIn(listing: Listing, dir: Path, name: Name, created: Option<Name>, r: Resource)
    requires At(listing, dir).Some? && InView(dir, created)
    requires Plain(Get(At(listing, dir).value, name))
    ensures Elsewhere(RemoveIn(listing, dir, name), created, r) == Elsewhere(listing, created, r)
  {
    if dir == [] {
      ElsewhereRemove(listing, name, created, r);
    } else {
      ElsewhereSetAt(listing, dir, Remove(At(listing, dir).value, name), created, r);
    }
  }

  lemma {:induction false} ApplyElsewhere(listing: Listing, op: Op, created: Option<Name>, r: Resource)
    requires Apply(listing, op).Some? && Confined(op, created)
    ensures Elsewhere(Apply(listing, op).value, created, r) == Elsewhere(listing, created, r)
  {
    var here := At(listing, op.dir).value;
    match op
    case MkDir(dir, name) =>
      if Get(here, name).None? {
        ElsewherePutIn(listing, dir, name, Dir(Nil), created, r);
      }
    case OpenLock(dir, name) =>
      if Get(here, name).None? {
        ElsewherePutIn(listing, dir, name, File([]), created, r);
      }
    case CreateNew(dir, name) => ElsewherePutIn(listing, dir, name, File([]), created, r);
    case Write(dir, name, bytes) =>
      ElsewherePutIn(listing, dir, name, File(Get(here, name).value.content + bytes), created, r);
    case Rename(dir, name, to, target) =>
      ElsewhereRemoveIn(listing, dir, name, created, r);
      ElsewherePutIn(RemoveIn(listing, dir, name), to, target, Get(here, name).value, created, r);
  }

  // ---- Operations that leave the control file alone ----

  predicate SparesControl(op: Op) {
    && (op.dir == [] ==> op.name != Control)
    && (op.Rename? && op.to == [] ==> op.target != Control)
  }

  lemma {:induction false} ControlSetAt(listing: Listing, dir: Path, next: Listing)
    requires At(listing, dir).Some?
    requires Plain(Get(listing, Control))
    requires dir == [] ==> Get(next, Control) == Get(listing, Control)
    ensures Get(SetAt(listing, dir, next), Control) == Get(listing, Control)
  {
    if dir != [] {
      GetPut(listing, dir[0], Dir(SetAt(Get(listing, dir[0]).value.listing, dir[1..], next)), Control);
    }
  }

  lemma {:induction false} ControlPutIn(listing: Listing, dir: Path, name: Name, node: Node)
    requires At(listing, dir).Some?
    requires Plain(Get(listing, Control))
    requires dir == [] ==> name != Control
    ensures Get(PutIn(listing, dir, name, node), Control) == Get(listing, Control)
  {
    GetPut(At(listing, dir).value, name, node, Control);
    ControlSetAt(listing, dir, Put(At(listing, dir).value, name, node));
  }

  lemma {:induction false} ControlRemoveIn(listing: Listing, dir: Path, name: Name)
    requires At(listing, dir).Some?
    requires Plain(Get(listing, Control))
    requires dir == [] ==> name != Control
    ensures Get(RemoveIn(listing, dir, name), Control) == Get(listing, Control)
  {
    if dir == [] {
      GetRemoveOther(listing, name, Control);
    }
    ControlSetAt(listing, dir, Remove(At(listing, dir).value, name));
  }

  lemma {:induction false} ApplyControl(listing: Listing, op: Op)
    requires Apply(listing, op).Some? && SparesControl(op)
    requires Plain(Get(listing, Control))
    ensures Get(Apply(listing, op).value, Control) == Get(listing, Control)
  {
    var here := At(listing, op.dir).value;
    match op
    case MkDir(dir, name) => ControlPutIn(listing, dir, name, Dir(Nil));
    case OpenLock(dir, name) => ControlPutIn(listing, dir, name, File([]));
    case CreateNew(dir, name) => ControlPutIn(listing, dir, name, File([]));
    case Write(dir, name, bytes) =>
      ControlPutIn(listing, dir, name, File(Get(here, name).value.content + bytes));
    case Rename(dir, name, to, target) =>
      ControlRemoveIn(listing, dir, name);
      ControlPutIn(RemoveIn(listing, dir, name), to, target, Get(here, name).value);
  }

  // ---- The price of the remaining operations only falls ----

  /** A put over a missing or plain entry removes no entry anywhere. */
  lemma {:induction false} PutInKeeps(listing: Listing, dir: Path, name: Name, node: Node, p: Path, n: Name)
    requires At(listing, dir).Some?
    requires Plain(Get(At(listing, dir).value, name))
    ensures !Missing(listing, p, n) ==> !Missing(PutIn(listing, dir, name, node), p, n)
    decreases |dir|
  {
    if dir == [] {
      if p == [] {
        GetPut(listing, name, node, n);
      } else {
        GetPut(listing, name, node, p[0]);
      }
    } else {
      var below := Get(listing, dir[0]).value.listing;
      var next := Put(At(listing, dir).value, name, node);
      assert SetAt(listing, dir, next) == Put(listing, dir[0], Dir(PutIn(below, dir[1..], name, node)));
      if p == [] {
        GetPut(listing, dir[0], Dir(PutIn(below, dir[1..], name, node)), n);
      } else {
        GetPut(listing, dir[0], Dir(PutIn(below, dir[1..], name, node)), p[0]);
        if p[0] == dir[0] {
          PutInKeeps(below, dir[1..], name, node, p[1..], n);
        }
      }
    }
  }

  /** After the first rename only renames remain. */
  predicate Ordered(todo: seq<Op>) {
    forall i, j :: 0 <= i < j < |todo| && todo[i].Rename? ==> todo[j].Rename?
  }

  lemma {:induction false} RenamesAreFree(todo: seq<Op>, listing: Listing, r: Resource)
    requires forall i :: 0 <= i < |todo| ==> todo[i].Rename?
    ensures CostSum(todo, listing, r) == 0
  {
    if todo != [] {
      RenamesAreFree(todo[1..], listing, r);
    }
  }

  lemma {:induction false} CostSumPutIn(todo: seq<Op>, listing: Listing, dir: Path, name: Name, node: Node, r: Resource)
    requires At(listing, dir).Some?
    requires Plain(Get(At(listing, dir).value, name))
    ensures CostSum(todo, PutIn(listing, dir, name, node), r) <= CostSum(todo, listing, r)
  {
    if todo != [] {
      CostSumPutIn(todo[1..], listing, dir, name, node, r);
      PutInKeeps(listing, dir, name, node, todo[0].dir, todo[0].name);
    }
  }

  lemma {:induction false} CostSumFalls(todo: seq<Op>, listing: Listing, op: Op, r: Resource)
    requires Apply(listing, op).Some? && !op.Rename?
    ensures CostSum(todo, Apply(listing, op).value, r) <= CostSum(todo, listing, r)
  {
    var here := At(listing, op.dir).value;
    match (op, Get(here, op.name))
    case (MkDir(dir, name), None) => CostSumPutIn(todo, listing, dir, name, Dir(Nil), r);
    case (OpenLock(dir, name), None) => CostSumPutIn(todo, listing, dir, name, File([]), r);
    case (CreateNew(dir, name), None) => CostSumPutIn(todo, listing, dir, name, File([]), r);
    case (Write(dir, name, bytes), Some(File(content))) =>
      CostSumPutIn(todo, listing, dir, name, File(content + bytes), r);
    case _ =>
  }

  /** Executing the next operation never raises usage plus the cost still to come. */
  lemma {:induction false} ApplyBudget(listing: Listing, todo: seq<Op>, r: Resource)
    requires todo != [] && Ordered(todo)
    requires Apply(listing, todo[0]).Some?
    ensures Total(Apply(listing, todo[0]).value, r) + CostSum(todo[1..], Apply(listing, todo[0]).value, r)
         <= Total(listing, r) + CostSum(todo, listing, r)
  {
    ApplyCost(listing, todo[0], r);
    if todo[0].Rename? {
      RenamesAreFree(todo[1..], Apply(listing, todo[0]).value, r);
    } else {
      CostSumFalls(todo[1..], listing, todo[0], r);
    }
  }

  // ---- The plan itself ----

  predicate PlanShape(todo: seq<Op>, created: Option<Name>) {
    && Ordered(todo)
    && (forall i :: 0 <= i < |todo| ==> Confined(todo[i], created))
    && (forall i :: 0 <= i < |todo| ==> SparesControl(todo[i]))
  }

  function Created(chain: Path): Option<Name> {
    if chain == [] then None else Some(chain[0])
  }

  lemma {:induction false} MakeChainShape(chain: Path, from: nat)
    requires Control !in chain
    ensures forall i :: 0 <= i < |MakeChain(chain, from)| ==>
              var op := MakeChain(chain, from)[i];
              op.MkDir? && Confined(op, Created(chain)) && SparesControl(op)
    decreases |chain| - from
  {
    if from < |chain| {
      MakeChainShape(chain, from + 1);
      assert chain[from] in chain;
    }
  }

  lemma PlanIsShaped(chain: Path, q: Request)
    requires ValidRequest(q) && Control !in chain
    ensures PlanShape(Plan(chain, q), Created(chain))
  {
    MakeChainShape(chain, 0);
    var publish := Publish(chain, q);
    assert forall i :: 0 <= i < |publish| ==> Confined(publish[i], Created(chain)) && SparesControl(publish[i]);
    var n := |MakeChain(chain, 0)|;
    forall i, j | 0 <= i < j < |Plan(chain, q)| && Plan(chain, q)[i].Rename?
      ensures Plan(chain, q)[j].Rename?
    {
      assert i >= n + 7;
      assert Plan(chain, q)[j] == publish[j - n];
    }
  }

  /** What `admit` charges for entries. */
  function NewEntries(dir: Listing, missingParents: nat, q: Request): nat {
    missingParents + 2
    + if missingParents != 0 then 3
      else (if Get(dir, q.scratch).None? then 1 else 0)
           + (if Get(dir, PublicationLock).None? then 1 else 0)
           + (if Get(dir, MetadataDirectory).None? then 1 else 0)
  }

  lemma {:induction false} CostSumAppend(a: seq<Op>, b: seq<Op>, listing: Listing, r: Resource)
    ensures CostSum(a + b, listing, r) == CostSum(a, listing, r) + CostSum(b, listing, r)
  {
    if a == [] {
      assert a + b == b;
    } else {
      assert (a + b)[1..] == a[1..] + b;
      CostSumAppend(a[1..], b, listing, r);
    }
  }

  lemma {:induction false} MakeChainCost(chain: Path, from: nat, listing: Listing, r: Resource)
    ensures CostSum(MakeChain(chain, from), listing, r)
         <= if r.NamespaceEntries? && from < |chain| then |chain| - from else 0
    decreases |chain| - from
  {
    if from < |chain| {
      MakeChainCost(chain, from + 1, listing, r);
      assert MakeChain(chain, from)[1..] == MakeChain(chain, from + 1);
    }
  }

  lemma {:induction false} PublishCost(dir: Path, q: Request, listing: Listing, r: Resource)
    ensures CostSum(Publish(dir, q), listing, r)
         == if r.LogicalFileBytes? then |q.html| + |q.metadata|
            else 2 + Cost(OpenLock(dir, q.scratch), listing, r) + Cost(OpenLock(dir, PublicationLock), listing, r)
                 + Cost(MkDir(dir, MetadataDirectory), listing, r)
  {
    var ops := Publish(dir, q);
    var a, b, c := ops[..3], ops[3..6], ops[6..];
    assert ops == a + b + c;
    CostSumAppend(a + b, c, listing, r);
    CostSumAppend(a, b, listing, r);
    assert a == [ops[0]] + [ops[1]] + [ops[2]];
    CostSumAppend([ops[0]] + [ops[1]], [ops[2]], listing, r);
    CostSumAppend([ops[0]], [ops[1]], listing, r);
    assert b == [ops[3]] + [ops[4]] + [ops[5]];
    CostSumAppend([ops[3]] + [ops[4]], [ops[5]], listing, r);
    CostSumAppend([ops[3]], [ops[4]], listing, r);
    assert c == [ops[6]] + [ops[7]] + [ops[8]];
    CostSumAppend([ops[6]] + [ops[7]], [ops[8]], listing, r);
    CostSumAppend([ops[6]], [ops[7]], listing, r);
    CostSumSingle(ops[0], listing, r); CostSumSingle(ops[1], listing, r); CostSumSingle(ops[2], listing, r);
    CostSumSingle(ops[3], listing, r); CostSumSingle(ops[4], listing, r); CostSumSingle(ops[5], listing, r);
    CostSumSingle(ops[6], listing, r); CostSumSingle(ops[7], listing, r); CostSumSingle(ops[8], listing, r);
  }

  lemma {:induction false} CostSumSingle(op: Op, listing: Listing, r: Resource)
    ensures CostSum([op], listing, r) == Cost(op, listing, r)
  {
    assert [op][1..] == [];
  }

  /** The admitted peak covers every operation of the plan. */
  lemma {:induction false} PlanWithinPeak(chain: Path, q: Request, listing: Listing, r: Resource)
    ensures CostSum(Plan(chain, q), listing, r)
         <= if r.LogicalFileBytes? then |q.html| + |q.metadata| else NewEntries(listing, |chain|, q)
  {
    CostSumAppend(MakeChain(chain, 0), Publish(chain, q), listing, r);
    MakeChainCost(chain, 0, listing, r);
    PublishCost(chain, q, listing, r);
  }
}
