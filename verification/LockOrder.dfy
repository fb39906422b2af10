/**
 The file locks of readers, publishers and installers (static_routes.rs,
 storage.rs), and why they cannot deadlock: a wait goes from the root control to
 the scratch bucket to the publication lock, and installation does not wait for
 the root control at all.

 A participant is the list of lock operations it has still to do. Dying, or
 giving up on an error, releases everything it holds.
 */
module LockOrder {
  import RootScopes

  type Path = RootScopes.Path

  datatype Lock = Control(path: Path) | Bucket(dir: Path, slot: nat) | Publication(dir: Path)
  datatype Mode = Shared | Exclusive
  datatype Hold = Hold(lock: Lock, mode: Mode)

  datatype Instr =
    | Wait(lock: Lock, mode: Mode)
    | Try(lock: Lock)                        // exclusive or not at all
    | Release(lock: Lock, mode: Mode)

  datatype Proc = Proc(held: multiset<Hold>, todo: seq<Instr>)
  type State = seq<Proc>

  const DONE := Proc(multiset{}, [])

  /** Somebody, perhaps the asker itself, holds the lock in a conflicting mode. */
  predicate Conflicts(p: Proc, lock: Lock, mode: Mode) {
    Hold(lock, Exclusive) in p.held || (mode.Exclusive? && Hold(lock, Shared) in p.held)
  }

  predicate Blocked(s: State, lock: Lock, mode: Mode) {
    exists i :: 0 <= i < |s| && Conflicts(s[i], lock, mode)
  }

  predicate CanAdvance(s: State, i: nat) {
    && i < |s| && s[i].todo != []
    && (s[i].todo[0].Wait? ==> !Blocked(s, s[i].todo[0].lock, s[i].todo[0].mode))
  }

  function Advance(s: State, i: nat): State
    requires CanAdvance(s, i)
  {
    var Proc(held, todo) := s[i];
    match todo[0]
    case Wait(lock, mode) => s[i := Proc(held + multiset{Hold(lock, mode)}, todo[1..])]
    case Try(lock) =>
      if Blocked(s, lock, Exclusive) then s[i := DONE]
      else s[i := Proc(held + multiset{Hold(lock, Exclusive)}, todo[1..])]
    case Release(lock, mode) => s[i := Proc(held - multiset{Hold(lock, mode)}, todo[1..])]
  }

  /** A step of participant `i`: it goes on, or it stops and lets go of everything. */
  predicate Next(s: State, i: nat, t: State) {
    && i < |s| && s[i].todo != []
    && (t == s[i := DONE] || (CanAdvance(s, i) && t == Advance(s, i)))
  }

  // ---- The discipline ----

  /** `owned` are the roots whose control some participant takes exclusively. */
  predicate Allowed(owned: set<Path>, held: multiset<Hold>, lock: Lock, mode: Mode) {
    if lock.Control? && mode.Shared? && lock.path !in owned then
      true // nobody ever keeps such a control from a reader
    else
      && (forall h :: h in held ==> !h.lock.Publication?)
      && (forall h :: h in held && h.lock.Bucket? ==> lock.Publication?)
      && (lock.Control? && mode.Exclusive? ==> held == multiset{} && lock.path in owned)
      && (lock.Control? && mode.Shared? ==>
            forall h :: h in held && h.lock.Control? && h.mode.Exclusive? ==> |h.lock.path| < |lock.path|)
  }

  predicate Disciplined(owned: set<Path>, held: multiset<Hold>, todo: seq<Instr>)
    decreases |todo|
  {
    if todo == [] then held == multiset{}
    else
      match todo[0]
      case Wait(lock, mode) =>
        Allowed(owned, held, lock, mode) && Disciplined(owned, held + multiset{Hold(lock, mode)}, todo[1..])
      case Try(lock) =>
        && lock.Control? && lock.path in owned && held == multiset{}
        && Disciplined(owned, multiset{Hold(lock, Exclusive)}, todo[1..])
      case Release(lock, mode) =>
        Hold(lock, mode) in held && Disciplined(owned, held - multiset{Hold(lock, mode)}, todo[1..])
  }

  predicate Tame(owned: set<Path>, held: multiset<Hold>) {
    forall h :: h in held && h.lock.Control? && h.mode.Exclusive? ==> h.lock.path in owned
  }

  predicate Inv(owned: set<Path>, s: State) {
    forall i :: 0 <= i < |s| ==> Disciplined(owned, s[i].held, s[i].todo) && Tame(owned, s[i].held)
  }

  lemma StepKeepsInv(owned: set<Path>, s: State, i: nat, t: State)
    requires Inv(owned, s) && Next(s, i, t)
    ensures Inv(owned, t)
  {
    assert Disciplined(owned, s[i].held, s[i].todo) && Tame(owned, s[i].held);
    if s[i].todo[0].Try? {
      assert s[i].held + multiset{Hold(s[i].todo[0].lock, Exclusive)}
          == multiset{Hold(s[i].todo[0].lock, Exclusive)};
    }
    assert Disciplined(owned, t[i].held, t[i].todo) && Tame(owned, t[i].held);
  }

  // ---- Progress ----

  /** How far along the order a waiting participant is. */
  function Level(todo: seq<Instr>): nat {
    if todo == [] || !todo[0].Wait? then 0
    else match todo[0].lock
      case Publication(_) => 1
      case Bucket(_, _) => 2
      case Control(_) => if todo[0].mode.Shared? then 3 else 4
  }

  function Remaining(todo: seq<Instr>, bound: nat): nat {
    if todo != [] && todo[0].Wait? && todo[0].lock.Control? && |todo[0].lock.path| <= bound
    then bound - |todo[0].lock.path| else 0
  }

  /** Whoever blocks a participant is further along. */
  lemma BlockerIsAhead(owned: set<Path>, bound: nat, s: State, i: nat, k: nat)
    requires Inv(owned, s) && (forall p :: p in owned ==> |p| <= bound)
    requires i < |s| && k < |s| && s[i].todo != [] && s[i].todo[0].Wait?
    requires Conflicts(s[k], s[i].todo[0].lock, s[i].todo[0].mode) && !CanAdvance(s, k)
    ensures s[k].todo != []
    ensures Level(s[k].todo) < Level(s[i].todo)
            || (Level(s[k].todo) == Level(s[i].todo) && Remaining(s[k].todo, bound) < Remaining(s[i].todo, bound))
  {
    var Wait(lock, mode) := s[i].todo[0];
    var h := if Hold(lock, Exclusive) in s[k].held then Hold(lock, Exclusive) else Hold(lock, Shared);
    assert h in s[k].held && Disciplined(owned, s[k].held, s[k].todo) && Tame(owned, s[k].held);
    var Wait(next, nextMode) := s[k].todo[0];
    NotQuiet(owned, s, k);
  }

  /** Waiting for a control nobody takes exclusively never blocks. */
  lemma NotQuiet(owned: set<Path>, s: State, k: nat)
    requires Inv(owned, s) && k < |s| && s[k].todo != [] && !CanAdvance(s, k)
    ensures s[k].todo[0].Wait?
    ensures s[k].todo[0].lock.Control? && s[k].todo[0].mode.Shared? ==> s[k].todo[0].lock.path in owned
  {
    var Wait(lock, mode) := s[k].todo[0];
    var j :| 0 <= j < |s| && Conflicts(s[j], lock, mode);
    assert Tame(owned, s[j].held);
    if lock.Control? && mode.Shared? {
      assert Hold(lock, Exclusive) in s[j].held;
    }
  }

  lemma {:induction false} FindRunner(owned: set<Path>, bound: nat, s: State, i: nat) returns (j: nat)
    requires Inv(owned, s) && (forall p :: p in owned ==> |p| <= bound)
    requires i < |s| && s[i].todo != []
    ensures CanAdvance(s, j)
    decreases Level(s[i].todo), Remaining(s[i].todo, bound)
  {
    if CanAdvance(s, i) {
      j := i;
    } else {
      var k: nat :| k < |s| && Conflicts(s[k], s[i].todo[0].lock, s[i].todo[0].mode);
      if CanAdvance(s, k) {
        j := k;
      } else {
        BlockerIsAhead(owned, bound, s, i, k);
        j := FindRunner(owned, bound, s, k);
      }
    }
  }

  lemma {:induction false} DepthBound(owned: set<Path>) returns (bound: nat)
    ensures forall p :: p in owned ==> |p| <= bound
    decreases |owned|
  {
    if owned == {} {
      bound := 0;
    } else {
      var p :| p in owned;
      bound := DepthBound(owned - {p});
      bound := if bound < |p| then |p| else bound;
      assert forall q :: q in owned ==> q == p || q in owned - {p};
    }
  }

  // ---- Runs ----

  ghost predicate Trace(states: seq<State>, movers: seq<nat>) {
    && |states| == |movers| + 1
    && forall i {:trigger movers[i]} :: 0 <= i < |movers| ==> Next(states[i], movers[i], states[i + 1])
  }

  lemma {:induction false} TraceInv(owned: set<Path>, states: seq<State>, movers: seq<nat>, i: nat)
    requires Trace(states, movers) && Inv(owned, states[0]) && i < |states|
    ensures Inv(owned, states[i])
  {
    if i > 0 {
      TraceInv(owned, states, movers, i - 1);
      StepKeepsInv(owned, states[i - 1], movers[i - 1], states[i]);
    }
  }

  // ---- Exclusion ----

  /** An exclusive hold is the only hold there is on its lock. */
  ghost predicate Excludes(s: State) {
    forall i, j, lock, mode ::
      0 <= i < |s| && 0 <= j < |s| && Hold(lock, Exclusive) in s[i].held && Hold(lock, mode) in s[j].held ==>
        i == j && mode.Exclusive? && s[i].held[Hold(lock, Exclusive)] == 1
  }

  /** Nobody holds a lock that can be taken in a way that conflicts. */
  lemma FreeToTake(s: State, i: nat, lock: Lock, mode: Mode)
    requires !Blocked(s, lock, mode) && i < |s|
    ensures Hold(lock, Exclusive) !in s[i].held && (mode.Exclusive? ==> Hold(lock, Shared) !in s[i].held)
  {
    assert !Conflicts(s[i], lock, mode);
  }

  lemma HeldNow(held: multiset<Hold>, taken: Hold, h: Hold)
    ensures (held + multiset{taken})[h] == held[h] + if h == taken then 1 else 0
  {
  }

  lemma TakeExcludes(s: State, i: nat, lock: Lock, mode: Mode, todo: seq<Instr>)
    requires Excludes(s) && i < |s| && !Blocked(s, lock, mode)
    ensures Excludes(s[i := Proc(s[i].held + multiset{Hold(lock, mode)}, todo)])
  {
    var t := s[i := Proc(s[i].held + multiset{Hold(lock, mode)}, todo)];
    forall a, b, l, m |
      0 <= a < |t| && 0 <= b < |t| && Hold(l, Exclusive) in t[a].held && Hold(l, m) in t[b].held
      ensures a == b && m.Exclusive? && t[a].held[Hold(l, Exclusive)] == 1
    {
      HeldNow(s[i].held, Hold(lock, mode), Hold(l, Exclusive));
      HeldNow(s[i].held, Hold(lock, mode), Hold(l, m));
      if l == lock {
        FreeToTake(s, a, lock, mode);
        FreeToTake(s, b, lock, mode);
        assert m == Shared || m == Exclusive;
      } else {
        assert Hold(l, Exclusive) in s[a].held && Hold(l, m) in s[b].held;
      }
    }
  }

  lemma StepExcludes(s: State, i: nat, t: State)
    requires Excludes(s) && Next(s, i, t)
    ensures Excludes(t)
  {
    if t != s[i := DONE] {
      var Proc(held, todo) := s[i];
      match todo[0]
      case Wait(lock, mode) => TakeExcludes(s, i, lock, mode, todo[1..]);
      case Try(lock) => TakeExcludes(s, i, lock, Exclusive, todo[1..]);
      case Release(lock, mode) => assert t[i].held <= held;
    }
  }

  /** In every run: whoever holds a lock exclusively holds it alone. */
  lemma {:induction false} MutualExclusion(states: seq<State>, movers: seq<nat>, i: nat)
    requires Trace(states, movers) && Excludes(states[0]) && i < |states|
    ensures Excludes(states[i])
  {
    if i > 0 {
      MutualExclusion(states, movers, i - 1);
      StepExcludes(states[i - 1], movers[i - 1], states[i]);
    }
  }

  function Work(s: State): nat {
    if s == [] then 0 else |s[|s| - 1].todo| + Work(s[..|s| - 1])
  }

  lemma {:induction false} WorkUpdated(s: State, i: nat, p: Proc)
    requires i < |s|
    ensures Work(s[i := p]) == Work(s) - |s[i].todo| + |p.todo|
  {
    var n := |s| - 1;
    if i < n {
      assert s[i := p][..n] == s[..n][i := p];
      WorkUpdated(s[..n], i, p);
    } else {
      assert s[i := p][..n] == s[..n];
    }
  }

  lemma {:induction false} StepShrinks(s: State, i: nat, t: State)
    requires Next(s, i, t)
    ensures Work(t) < Work(s)
  {
    WorkUpdated(s, i, t[i]);
    assert t == s[i := t[i]];
  }

  /** No run is longer than the operations there are to do. */
  lemma {:induction false} RunsEnd(states: seq<State>, movers: seq<nat>, i: nat)
    requires Trace(states, movers) && i < |states|
    ensures i + Work(states[i]) <= Work(states[0])
  {
    if i > 0 {
      RunsEnd(states, movers, i - 1);
      StepShrinks(states[i - 1], movers[i - 1], states[i]);
    }
  }

  /** In every reachable state with somebody unfinished, somebody can go on without giving up. */
  lemma NeverDeadlocked(owned: set<Path>, states: seq<State>, movers: seq<nat>, i: nat, p: nat)
    requires Trace(states, movers) && Inv(owned, states[0]) && i < |states|
    requires p < |states[i]| && states[i][p].todo != []
    ensures exists j :: CanAdvance(states[i], j)
  {
    TraceInv(owned, states, movers, i);
    var bound := DepthBound(owned);
    var j := FindRunner(owned, bound, states[i], p);
  }

  // ---- The participants ----

  function Probes(paths: seq<Path>): seq<Instr>
    decreases |paths|
  {
    if paths == [] then [] else [Wait(Control(paths[0]), Shared), Release(Control(paths[0]), Shared)] + Probes(paths[1..])
  }

  /** One look at a directory, and another if the first found no lock file. */
  function Reader(dir: Path, looks: nat): seq<Instr> {
    if looks == 0 then [] else [Wait(Publication(dir), Shared), Release(Publication(dir), Shared)] + Reader(dir, looks - 1)
  }

  /** The renames, and the commit's inventory before the publication lock goes. */
  function Renames(dir: Path, commit: seq<Path>, rest: seq<Instr>): seq<Instr> {
    [Wait(Publication(dir), Exclusive)] + (Probes(commit) + ([Release(Publication(dir), Exclusive)] + rest))
  }

  /** Staging and renaming under the scratch bucket. */
  function Staging(dir: Path, slot: nat, commit: seq<Path>, rest: seq<Instr>): seq<Instr> {
    [Wait(Bucket(dir, slot), Exclusive)] + Renames(dir, commit, [Release(Bucket(dir, slot), Exclusive)] + rest)
  }

  function Publisher(
    root: Path, mode: Mode, before: seq<Path>, admit: seq<Path>, dir: Path, slot: nat, commit: seq<Path>): seq<Instr>
  {
    Probes(before)
    + ([Wait(Control(root), mode)] + (Probes(admit) + Staging(dir, slot, commit, [Release(Control(root), mode)])))
  }

  function Installer(root: Path, before: seq<Path>, inventory: seq<Path>): seq<Instr> {
    Probes(before) + ([Try(Control(root))] + (Probes(inventory) + [Release(Control(root), Exclusive)]))
  }

  function HeldWith(held: multiset<Hold>, op: Instr): multiset<Hold> {
    match op
    case Wait(lock, mode) => held + multiset{Hold(lock, mode)}
    case Try(lock) => held + multiset{Hold(lock, Exclusive)}
    case Release(lock, mode) => held - multiset{Hold(lock, mode)}
  }

  /** What is held after some more operations, if nobody stops. */
  function HeldFrom(held: multiset<Hold>, todo: seq<Instr>): multiset<Hold>
    decreases |todo|
  {
    if todo == [] then held else HeldFrom(HeldWith(held, todo[0]), todo[1..])
  }

  lemma {:induction false} HeldFirst(held: multiset<Hold>, op: Instr, rest: seq<Instr>)
    ensures HeldFrom(held, [op] + rest) == HeldFrom(HeldWith(held, op), rest)
  {
    assert ([op] + rest)[1..] == rest;
  }

  lemma TakenAndReleased(held: multiset<Hold>, hold: Hold)
    ensures held + multiset{hold} - multiset{hold} == held
  {
  }

  lemma {:induction false} HeldProbes(held: multiset<Hold>, paths: seq<Path>, rest: seq<Instr>)
    ensures HeldFrom(held, Probes(paths) + rest) == HeldFrom(held, rest)
    decreases |paths|
  {
    if paths == [] {
      assert Probes(paths) + rest == rest;
    } else {
      var control, tail := Control(paths[0]), Probes(paths[1..]) + rest;
      var hold := multiset{Hold(control, Shared)};
      HeldFirst(held, Wait(control, Shared), [Release(control, Shared)] + tail);
      HeldFirst(held + hold, Release(control, Shared), tail);
      TakenAndReleased(held, Hold(control, Shared));
      HeldProbes(held, paths[1..], rest);
      assert Probes(paths) + rest == [Wait(control, Shared)] + ([Release(control, Shared)] + tail);
    }
  }

  /** A publisher's operations from the locks on, up to whatever comes after its commit's probes. */
  function UnderLocks(
    root: Path, mode: Mode, before: seq<Path>, admit: seq<Path>, dir: Path, slot: nat, commit: seq<Path>, rest: seq<Instr>)
    : seq<Instr>
  {
    Probes(before)
    + ([Wait(Control(root), mode)]
       + (Probes(admit) + ([Wait(Bucket(dir, slot), Exclusive)] + ([Wait(Publication(dir), Exclusive)] + (Probes(commit) + rest)))))
  }

  lemma {:induction false} HeldUnderLocks(
    root: Path, mode: Mode, before: seq<Path>, admit: seq<Path>, dir: Path, slot: nat, commit: seq<Path>, rest: seq<Instr>)
    ensures HeldFrom(multiset{}, UnderLocks(root, mode, before, admit, dir, slot, commit, rest))
         == HeldFrom(multiset{Hold(Control(root), mode), Hold(Bucket(dir, slot), Exclusive), Hold(Publication(dir), Exclusive)}, rest)
  {
    var control, bucket, publication := Wait(Control(root), mode), Wait(Bucket(dir, slot), Exclusive), Wait(Publication(dir), Exclusive);
    var l3 := Probes(commit) + rest;
    var l2 := [bucket] + ([publication] + l3);
    var l1 := Probes(admit) + l2;
    HeldProbes(multiset{}, before, [control] + l1);
    HeldFirst(multiset{}, control, l1);
    var h1 := HeldWith(multiset{}, control);
    HeldProbes(h1, admit, l2);
    HeldFirst(h1, bucket, [publication] + l3);
    var h2 := HeldWith(h1, bucket);
    HeldFirst(h2, publication, l3);
    var h3 := HeldWith(h2, publication);
    HeldProbes(h3, commit, rest);
    assert h3 == multiset{Hold(Control(root), mode), Hold(Bucket(dir, slot), Exclusive), Hold(Publication(dir), Exclusive)};
  }

  /**
   A publisher renames and commits under all three locks: when it comes to release the
   publication lock it holds the root control, its scratch bucket and that lock, and at
   the end nothing.
   */
  lemma RenamesUnderLocks(
    root: Path, mode: Mode, before: seq<Path>, admit: seq<Path>, dir: Path, slot: nat, commit: seq<Path>)
    ensures Publisher(root, mode, before, admit, dir, slot, commit)
         == UnderLocks(root, mode, before, admit, dir, slot, commit,
                       [Release(Publication(dir), Exclusive)] + ([Release(Bucket(dir, slot), Exclusive)] + [Release(Control(root), mode)]))
    ensures HeldFrom(multiset{}, UnderLocks(root, mode, before, admit, dir, slot, commit, []))
         == multiset{Hold(Control(root), mode), Hold(Bucket(dir, slot), Exclusive), Hold(Publication(dir), Exclusive)}
    ensures HeldFrom(multiset{}, Publisher(root, mode, before, admit, dir, slot, commit)) == multiset{}
  {
    var unlock, free, leave := Release(Publication(dir), Exclusive), Release(Bucket(dir, slot), Exclusive), Release(Control(root), mode);
    var rest := [unlock] + ([free] + [leave]);
    HeldUnderLocks(root, mode, before, admit, dir, slot, commit, []);
    HeldUnderLocks(root, mode, before, admit, dir, slot, commit, rest);
    var all := multiset{Hold(Control(root), mode), Hold(Bucket(dir, slot), Exclusive), Hold(Publication(dir), Exclusive)};
    HeldFirst(all, unlock, [free] + [leave]);
    var h2 := HeldWith(all, unlock);
    HeldFirst(h2, free, [leave]);
    var h1 := HeldWith(h2, free);
    assert [leave] + [] == [leave];
    HeldFirst(h1, leave, []);
    assert HeldWith(h1, leave) == multiset{};
  }

  lemma {:induction false} WaitFirst(owned: set<Path>, held: multiset<Hold>, lock: Lock, mode: Mode, rest: seq<Instr>)
    requires Allowed(owned, held, lock, mode) && Disciplined(owned, held + multiset{Hold(lock, mode)}, rest)
    ensures Disciplined(owned, held, [Wait(lock, mode)] + rest)
  {
    assert ([Wait(lock, mode)] + rest)[1..] == rest;
  }

  lemma {:induction false} ReleaseFirst(owned: set<Path>, held: multiset<Hold>, lock: Lock, mode: Mode, rest: seq<Instr>)
    requires Disciplined(owned, held, rest)
    ensures Disciplined(owned, held + multiset{Hold(lock, mode)}, [Release(lock, mode)] + rest)
  {
    var hold := multiset{Hold(lock, mode)};
    assert ([Release(lock, mode)] + rest)[1..] == rest;
    assert held + hold - hold == held;
  }

  /** Probing is harmless wherever each probe is allowed. */
  lemma {:induction false} ProbesDisciplined(owned: set<Path>, held: multiset<Hold>, paths: seq<Path>, rest: seq<Instr>)
    requires forall p :: p in paths ==> Allowed(owned, held, Control(p), Shared)
    requires Disciplined(owned, held, rest)
    ensures Disciplined(owned, held, Probes(paths) + rest)
    decreases |paths|
  {
    if paths == [] {
      assert Probes(paths) + rest == rest;
    } else {
      ProbesDisciplined(owned, held, paths[1..], rest);
      var control, tail := Control(paths[0]), Probes(paths[1..]) + rest;
      assert paths[0] in paths;
      ReleaseFirst(owned, held, control, Shared, tail);
      WaitFirst(owned, held, control, Shared, [Release(control, Shared)] + tail);
      assert Probes(paths) + rest == [Wait(control, Shared)] + ([Release(control, Shared)] + tail);
    }
  }

  lemma {:induction false} RenamesDisciplined(owned: set<Path>, held: multiset<Hold>, dir: Path, commit: seq<Path>, rest: seq<Instr>)
    requires forall h :: h in held ==> !h.lock.Publication?
    requires (forall p :: p in commit ==> p !in owned) && Disciplined(owned, held, rest)
    ensures Disciplined(owned, held, Renames(dir, commit, rest))
  {
    var publication := Publication(dir);
    var unlock := [Release(publication, Exclusive)] + rest;
    ReleaseFirst(owned, held, publication, Exclusive, rest);
    ProbesDisciplined(owned, held + multiset{Hold(publication, Exclusive)}, commit, unlock);
    WaitFirst(owned, held, publication, Exclusive, Probes(commit) + unlock);
  }

  lemma {:induction false} StagingDisciplined(
    owned: set<Path>, held: multiset<Hold>, dir: Path, slot: nat, commit: seq<Path>, rest: seq<Instr>)
    requires forall h :: h in held ==> h.lock.Control?
    requires (forall p :: p in commit ==> p !in owned) && Disciplined(owned, held, rest)
    ensures Disciplined(owned, held, Staging(dir, slot, commit, rest))
  {
    var bucket := Bucket(dir, slot);
    var last := [Release(bucket, Exclusive)] + rest;
    ReleaseFirst(owned, held, bucket, Exclusive, rest);
    RenamesDisciplined(owned, held + multiset{Hold(bucket, Exclusive)}, dir, commit, last);
    WaitFirst(owned, held, bucket, Exclusive, Renames(dir, commit, last));
  }

  lemma {:induction false} PublisherDisciplined(
    owned: set<Path>, root: Path, mode: Mode, before: seq<Path>, admit: seq<Path>, dir: Path, slot: nat, commit: seq<Path>)
    requires mode.Exclusive? ==> root in owned && forall p :: p in admit ==> |root| < |p|
    requires forall p :: p in commit ==> p !in owned
    ensures Disciplined(owned, multiset{}, Publisher(root, mode, before, admit, dir, slot, commit))
  {
    var control := multiset{Hold(Control(root), mode)};
    var release := [Release(Control(root), mode)];
    assert multiset{} + control == control && release + [] == release;
    ReleaseFirst(owned, multiset{}, Control(root), mode, []);
    StagingDisciplined(owned, control, dir, slot, commit, release);
    var staging := Staging(dir, slot, commit, release);
    ProbesDisciplined(owned, control, admit, staging);
    WaitFirst(owned, multiset{}, Control(root), mode, Probes(admit) + staging);
    ProbesDisciplined(owned, multiset{}, before, [Wait(Control(root), mode)] + (Probes(admit) + staging));
  }

  lemma {:induction false} InstallerDisciplined(owned: set<Path>, root: Path, before: seq<Path>, inventory: seq<Path>)
    requires root in owned && forall p :: p in inventory ==> |root| < |p|
    ensures Disciplined(owned, multiset{}, Installer(root, before, inventory))
  {
    var control := multiset{Hold(Control(root), Exclusive)};
    var release := [Release(Control(root), Exclusive)];
    assert release[1..] == [] && control - control == multiset{};
    assert Disciplined(owned, control, release);
    ProbesDisciplined(owned, control, inventory, release);
    var attempt := [Try(Control(root))] + (Probes(inventory) + release);
    assert attempt[1..] == Probes(inventory) + release;
    assert Disciplined(owned, multiset{}, attempt);
    ProbesDisciplined(owned, multiset{}, before, attempt);
  }

  lemma {:induction false} ReaderDisciplined(owned: set<Path>, dir: Path, looks: nat)
    ensures Disciplined(owned, multiset{}, Reader(dir, looks))
  {
    if looks > 0 {
      ReaderDisciplined(owned, dir, looks - 1);
      var hold := multiset{Hold(Publication(dir), Shared)};
      var all := Reader(dir, looks);
      assert all[1..][1..] == Reader(dir, looks - 1) && hold - hold == multiset{} && multiset{} + hold == hold;
      assert Disciplined(owned, hold, all[1..]);
    }
  }

  // ---- Any number of participants on one root ----

  datatype Participant =
    | Reading(dir: Path, looks: nat)
    | PublishingUnlimited(before: seq<Path>, admit: seq<Path>, dir: Path, slot: nat)
    | PublishingManaged(admit: seq<Path>, dir: Path, slot: nat, commit: seq<Path>)
    | Installing(before: seq<Path>, inventory: seq<Path>)

  function Program(root: Path, p: Participant): seq<Instr> {
    match p
    case Reading(dir, looks) => Reader(dir, looks)
    case PublishingUnlimited(before, admit, dir, slot) => Publisher(root, Shared, before, admit, dir, slot, [])
    case PublishingManaged(admit, dir, slot, commit) => Publisher(root, Exclusive, [], admit, dir, slot, commit)
    case Installing(before, inventory) => Installer(root, before, inventory)
  }

  /** Inventories visit only directories below the root. */
  predicate Below(root: Path, paths: seq<Path>) {
    forall p :: p in paths ==> |root| < |p|
  }

  predicate Sensible(root: Path, p: Participant) {
    match p
    case PublishingManaged(admit, _, _, commit) => Below(root, admit) && Below(root, commit)
    case Installing(_, inventory) => Below(root, inventory)
    case _ => true
  }

  predicate Starts(root: Path, cast: seq<Participant>, s: State) {
    |s| == |cast| && forall i :: 0 <= i < |s| ==> s[i] == Proc(multiset{}, Program(root, cast[i]))
  }

  lemma ProgramDisciplined(root: Path, p: Participant)
    requires Sensible(root, p)
    ensures Disciplined({root}, multiset{}, Program(root, p))
  {
    match p
    case Reading(dir, looks) => ReaderDisciplined({root}, dir, looks);
    case PublishingUnlimited(before, admit, dir, slot) =>
      PublisherDisciplined({root}, root, Shared, before, admit, dir, slot, []);
    case PublishingManaged(admit, dir, slot, commit) =>
      PublisherDisciplined({root}, root, Exclusive, [], admit, dir, slot, commit);
    case Installing(before, inventory) => InstallerDisciplined({root}, root, before, inventory);
  }

  /**
   Readers, unlimited and managed publishers and installers on one root, in any
   number and interleaving, some of them failing on the way: whenever anybody is
   unfinished somebody can go on, no run outlasts the work there is, and whoever
   holds a lock exclusively holds it alone.
   */
  lemma OneRootNeverDeadlocks(
    root: Path, cast: seq<Participant>, states: seq<State>, movers: seq<nat>, i: nat)
    requires forall k :: 0 <= k < |cast| ==> Sensible(root, cast[k])
    requires Trace(states, movers) && Starts(root, cast, states[0]) && i < |states|
    ensures (exists p :: 0 <= p < |states[i]| && states[i][p].todo != []) ==> exists j :: CanAdvance(states[i], j)
    ensures i + Work(states[i]) <= Work(states[0])
    ensures Excludes(states[i])
  {
    MutualExclusion(states, movers, i);
    forall k | 0 <= k < |cast| ensures Disciplined({root}, multiset{}, Program(root, cast[k])) {
      ProgramDisciplined(root, cast[k]);
    }
    assert Inv({root}, states[0]);
    RunsEnd(states, movers, i);
    if p: nat :| p < |states[i]| && states[i][p].todo != [] {
      NeverDeadlocked({root}, states, movers, i, p);
    }
  }
}
