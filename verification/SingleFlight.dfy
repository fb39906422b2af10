/**
 Single-flight generation (static_routes.rs): callers of one entry, under any of
 its spellings, share one generation task; each accepted caller is answered once.

 Every mutex-protected block is one step. A caller supplies one render template
 and, if accepted, one oneshot sender, both named here by the caller itself.
 Rendering and publishing are opaque; dropping or unwinding a task is a step.
 */
module SingleFlight {
  import opened Bytes

  type Key = string
  type Wid = nat
  type Cid = nat

  datatype Reason =
    | NoRemainingWaiters
    | EndedBeforeCompletion
    | SubscriptionEnded
    | NoSubscriptionSlot
    | NoRenderSlot
    | RenderError
  datatype Outcome = Succeeded | Failed(reason: Reason)

  // ---- The state behind one work's mutex ----

  datatype WorkState = WorkState(
    waiters: set<Cid>,           // senders of the accepted callers
    requested: Option<Cid>,      // the template of a refreshed request
    running: bool,
    blocked: bool,
    terminal: Option<Outcome>)

  const FRESH := WorkState({}, None, false, false, None)

  function Joined(st: WorkState, c: Cid, cancelled: set<Cid>): WorkState {
    st.(waiters := st.waiters - cancelled + {c},
        requested := if !st.running && st.requested.None? then Some(c) else st.requested)
  }

  function Refused(st: WorkState): WorkState {
    st.(blocked := true, running := false, requested := None, waiters := {})
  }

  function Reopened(st: WorkState): WorkState {
    st.(blocked := false)
  }

  function Begun(st: WorkState): WorkState {
    st.(blocked := false, running := true, requested := None)
  }

  function Finished(st: WorkState, result: Outcome, terminal: bool): WorkState {
    st.(running := false, waiters := {}, terminal := if terminal then Some(result) else st.terminal)
  }

  function Abandoned(st: WorkState, cancelled: set<Cid>): WorkState {
    var live := st.waiters - cancelled;
    st.(waiters := live,
        terminal := if live == {} then Some(Failed(NoRemainingWaiters)) else st.terminal)
  }

  function Drained(st: WorkState): WorkState {
    st.(waiters := {},
        terminal := if st.terminal.Some? then st.terminal
                    else Some(Failed(EndedBeforeCompletion)))
  }

  /** The guarded object itself. */
  class Work {
    var waiters: set<Cid>
    var requested: Option<Cid>
    var running: bool
    var blocked: bool
    var terminal: Option<Outcome>

    ghost function View(): WorkState
      reads this
    {
      WorkState(waiters, requested, running, blocked, terminal)
    }

    constructor ()
      ensures View() == FRESH
    {
      waiters, requested, running, blocked, terminal := {}, None, false, false, None;
    }

    /** A caller's turn at the lock: it retries, is refused, or is accepted. */
    method Join(c: Cid, cancelled: set<Cid>) returns (accepted: bool, retry: bool)
      modifies this
      ensures retry <==> old(terminal).Some?
      ensures accepted <==> old(terminal).None? && !old(blocked)
      ensures View() == if accepted then Joined(old(View()), c, cancelled) else old(View())
    {
      accepted, retry := false, terminal.Some?;
      if retry || blocked {
        return;
      }
      waiters := waiters - cancelled + {c};
      if !running && requested.None? {
        requested := Some(c);
      }
      accepted := true;
    }

    /** Closes admission for callers refused a render slot; they leave with their captures. */
    method Refuse() returns (template: Option<Cid>, leaving: set<Cid>)
      modifies this
      ensures View() == Refused(old(View())) && template == old(requested) && leaving == old(waiters)
    {
      template, leaving := requested, waiters;
      blocked, running, requested, waiters := true, false, None, {};
    }

    method Reopen()
      modifies this
      ensures View() == Reopened(old(View()))
    {
      blocked := false;
    }

    method BeginRender() returns (template: Option<Cid>)
      modifies this
      ensures View() == Begun(old(View())) && template == old(requested)
    {
      template := requested;
      blocked, running, requested := false, true, None;
    }

    method Finish(result: Outcome, end: bool) returns (answered: set<Cid>)
      modifies this
      ensures View() == Finished(old(View()), result, end) && answered == old(waiters)
    {
      running := false;
      if end {
        terminal := Some(result);
      }
      answered := waiters;
      waiters := {};
    }

    method Abandon(cancelled: set<Cid>) returns (ended: bool)
      modifies this
      ensures View() == Abandoned(old(View()), cancelled) && ended == (waiters == {})
    {
      waiters := waiters - cancelled;
      ended := waiters == {};
      if ended {
        terminal := Some(Failed(NoRemainingWaiters));
      }
    }

    method Drain() returns (answered: set<Cid>)
      modifies this
      ensures View() == Drained(old(View())) && answered == old(waiters)
    {
      if terminal.None? {
        terminal := Some(Failed(EndedBeforeCompletion));
      }
      answered := waiters;
      waiters := {};
    }
  }

  // ---- Callers, tasks and the registry ----

  datatype Trigger = ByRequest | BySubscription

  datatype Task =
    | Unspawned                              // registered; its creator has not spawned it yet
    | Spawned
    | AskingPermit(first: bool, trigger: Trigger)
    | Reopening                              // a refused request; admission about to reopen
    | AwaitingPermit                         // a subscription event keeps waiting for a slot
    | Rendering
    | Choosing                               // about to wait for the next trigger
    | Listening                              // waker registered, request not yet inspected
    | Parked                                 // no request was there
    | Ending                                 // the task guard is about to drop
    | Closed                                 // drained; registry entries about to go
    | Over

  datatype Generation = Generation(
    keys: seq<Key>, st: WorkState, task: Task, template: Option<Cid>, armed: bool, notified: bool)

  datatype CallerPhase =
    | Looking
    | Found(work: Wid, isNew: bool)
    | Accepted(work: Wid, isNew: bool)         // its sender is in place; spawn or wake comes next
    | Settled                                  // waiting, answered, refused or gone
  datatype Caller = Caller(keys: seq<Key>, phase: CallerPhase)

  datatype Fate = Pending(work: Wid) | Answered(outcome: Outcome) | Pruned
  datatype Stage = Requested(work: Wid) | Taken(work: Wid) | Rejected

  datatype State = State(
    registry: map<Key, Wid>,
    works: map<Wid, Generation>,
    callers: map<Cid, Caller>,
    cancelled: set<Cid>,
    // History: what became of every sender and every template, each answer
    // given, and every template rendered.
    fates: map<Cid, Fate>,
    stages: map<Cid, Stage>,
    answers: multiset<Cid>,
    rendered: set<Cid>)

  datatype Action =
    | Arrive(c: Cid, keys: seq<Key>)
    | Lookup(c: Cid, w: Wid)
    | TryJoin(c: Cid)
    | SpawnOrWake(c: Cid)
    | Cancel(c: Cid)
    | Start(w: Wid)
    | StartRefused(w: Wid)                   // no subscription permit
    | Granted(w: Wid)
    | RefusedPermit(w: Wid)
    | Reopen(w: Wid)
    | RenderEnded(w: Wid, result: Outcome, end: bool)
    | TryAbandon(w: Wid)
    | Listen(w: Wid)
    | Inspect(w: Wid)
    | Wake(w: Wid)                           // a leaving caller or a stream wakes the task
    | Event(w: Wid)                          // a regeneration stream produced an event
    | StreamsEnded(w: Wid)
    | StopChoosing(w: Wid)                   // no subscription remains
    | DropTask(w: Wid)                       // panic, unwinding or runtime shutdown
    | DrainGuard(w: Wid)
    | Unregister(w: Wid)

  predicate Init(s: State) {
    && s.registry == map[] && s.works == map[] && s.callers == map[] && s.cancelled == {}
    && s.fates == map[] && s.stages == map[] && s.answers == multiset{} && s.rendered == {}
  }

  predicate Live(s: State, k: Key) {
    k in s.registry && s.registry[k] in s.works && s.works[s.registry[k]].st.terminal.None?
  }

  /** The first of a caller's keys that names an active work. */
  function Find(s: State, keys: seq<Key>): Option<Wid> {
    if keys == [] then None
    else if Live(s, keys[0]) then Some(s.registry[keys[0]])
    else Find(s, keys[1..])
  }

  function Insert(registry: map<Key, Wid>, keys: seq<Key>, w: Wid): map<Key, Wid>
    decreases |keys|
  {
    if keys == [] then registry else Insert(registry[keys[0] := w], keys[1..], w)
  }

  /** Senders leaving a work with an answer. */
  function Answer(fates: map<Cid, Fate>, who: set<Cid>, outcome: Outcome): map<Cid, Fate> {
    map c | c in fates :: if c in who then Answered(outcome) else fates[c]
  }

  function Prune(fates: map<Cid, Fate>, who: set<Cid>): map<Cid, Fate> {
    map c | c in fates :: if c in who then Pruned else fates[c]
  }

  function StageOf(stages: map<Cid, Stage>, template: Option<Cid>, stage: Stage): map<Cid, Stage> {
    if template.Some? then stages[template.value := stage] else stages
  }

  /** A task step that answers everybody waiting. */
  function AnswerAll(s: State, w: Wid, me: Generation, outcome: Outcome): State
    requires w in s.works
  {
    var who := s.works[w].st.waiters;
    s.(works := s.works[w := me], fates := Answer(s.fates, who, outcome), answers := s.answers + multiset(who))
  }

  predicate CallerNext(s: State, a: Action, t: State) {
    match a
    case Arrive(c, keys) =>
      && c !in s.callers && keys != []
      && t == s.(callers := s.callers[c := Caller(keys, Looking)])
    case Lookup(c, w) =>
      && c in s.callers && s.callers[c].phase.Looking?
      && var me := s.callers[c];
      if Find(s, me.keys).Some? then
        t == s.(callers := s.callers[c := me.(phase := Found(Find(s, me.keys).value, false))])
      else
        && w !in s.works
        && t == s.(registry := Insert(s.registry, me.keys, w),
                   works := s.works[w := Generation(me.keys, FRESH, Unspawned, None, false, false)],
                   callers := s.callers[c := me.(phase := Found(w, true))])
    case TryJoin(c) =>
      && c in s.callers && s.callers[c].phase.Found? && s.callers[c].phase.work in s.works
      && var Caller(keys, Found(w, isNew)) := s.callers[c];
      && var me := s.works[w];
      if me.st.terminal.Some? then
        t == s.(callers := s.callers[c := Caller(keys, Looking)])
      else if me.st.blocked then
        t == s.(callers := s.callers[c := Caller(keys, Settled)])
      else
        var st := Joined(me.st, c, s.cancelled);
        t == s.(works := s.works[w := me.(st := st)],
                callers := s.callers[c := Caller(keys, Accepted(w, isNew))],
                fates := Prune(s.fates, me.st.waiters * s.cancelled)[c := Pending(w)],
                stages := if st.requested == Some(c) then s.stages[c := Requested(w)] else s.stages)
    case SpawnOrWake(c) =>
      && c in s.callers && s.callers[c].phase.Accepted? && s.callers[c].phase.work in s.works
      && var Caller(keys, Accepted(w, isNew)) := s.callers[c];
      && var me := s.works[w];
      && var next := if isNew then me.(task := Spawned)
                     else if me.armed then me.(armed := false, notified := true) else me;
      t == s.(works := s.works[w := next], callers := s.callers[c := Caller(keys, Settled)])
    case Cancel(c) =>
      && c in s.callers && s.callers[c].phase.Settled?
      && t == s.(cancelled := s.cancelled + {c})
    case _ => false
  }

  /** Permits and rendering. */
  predicate RenderNext(s: State, w: Wid, a: Action, t: State)
    requires w in s.works
  {
    var me := s.works[w];
    match a
    case Start(_) =>
      && me.task.Spawned? && me.st.requested.Some?
      && t == s.(works := s.works[w := me.(st := me.st.(running := true, requested := None),
                                           template := me.st.requested, task := AskingPermit(true, ByRequest))],
                 stages := StageOf(s.stages, me.st.requested, Taken(w)))
    case StartRefused(_) =>
      && me.task.Spawned?
      && t == AnswerAll(s, w, me.(st := Finished(me.st, Failed(NoSubscriptionSlot), true), task := Ending), Failed(NoSubscriptionSlot))
              .(stages := StageOf(s.stages, me.st.requested, Rejected))
    case Granted(_) =>
      && (me.task.AskingPermit? || me.task.AwaitingPermit?)
      && var template := if me.st.requested.Some? then me.st.requested else me.template;
      t == s.(works := s.works[w := me.(st := Begun(me.st), template := template, task := Rendering)],
              stages := StageOf(s.stages, me.st.requested, Taken(w)),
              rendered := if template.Some? then s.rendered + {template.value} else s.rendered)
    case RefusedPermit(_) =>
      && me.task.AskingPermit?
      && if me.task.first then
           t == AnswerAll(s, w, me.(st := Finished(me.st, Failed(NoRenderSlot), true), task := Ending), Failed(NoRenderSlot))
                .(stages := StageOf(s.stages, me.template, Rejected))
         else
           t == AnswerAll(s, w, me.(st := Refused(me.st),
                                    task := if me.task.trigger.ByRequest? then Reopening else AwaitingPermit),
                          Failed(NoRenderSlot))
                .(stages := StageOf(s.stages, me.st.requested, Rejected))
    case Reopen(_) =>
      && me.task.Reopening?
      && t == s.(works := s.works[w := me.(st := Reopened(me.st), task := Choosing)])
    case RenderEnded(_, result, end) =>
      && me.task.Rendering?
      && t == AnswerAll(s, w, me.(st := Finished(me.st, result, end), task := if end then Ending else Choosing), result)
    case TryAbandon(_) =>
      && me.task.Rendering?
      && var st := Abandoned(me.st, s.cancelled);
      t == s.(works := s.works[w := me.(st := st, task := if st.terminal.Some? then Ending else Rendering)],
              fates := Prune(s.fates, me.st.waiters * s.cancelled))
    case _ => false
  }

  /** Waiting for the next trigger, and the task guard: what happens to the generation. */
  predicate TriggerMove(me: Generation, a: Action, next: Generation) {
    match a
    case Listen(_) =>
      && (me.task.Choosing? || me.task.Parked?)
      && next == me.(task := Listening, armed := true, notified := false)
    case Inspect(_) =>
      && me.task.Listening?
      && next == me.(task := if me.st.requested.Some? then AskingPermit(false, ByRequest) else Parked)
    case Wake(_) =>
      && me.armed && !me.task.Unspawned?
      && next == me.(armed := false, notified := true)
    case Event(_) =>
      && me.task.Parked?
      && next == me.(task := AskingPermit(false, BySubscription))
    case StreamsEnded(_) =>
      && me.task.Parked?
      && next == if me.st.requested.Some? then me.(task := AskingPermit(false, ByRequest))
                 else me.(st := me.st.(terminal := Some(Failed(SubscriptionEnded))),
                          task := Ending)
    case StopChoosing(_) =>
      me.task.Choosing? && next == me.(task := Ending)
    case DropTask(_) =>
      !me.task.Unspawned? && !me.task.Closed? && !me.task.Over? && next == me.(task := Ending)
    case DrainGuard(_) =>
      me.task.Ending? && next == me.(st := Drained(me.st), task := Closed)
    case Unregister(_) =>
      me.task.Closed? && next == me.(task := Over)
    case _ => false
  }

  /** What a dropped task's waiters are told: the work's result, if it has one. */
  function Parting(st: WorkState): Outcome {
    if st.terminal.Some? then st.terminal.value else Failed(EndedBeforeCompletion)
  }

  predicate TriggerNext(s: State, w: Wid, a: Action, t: State)
    requires w in s.works
  {
    && w in t.works && TriggerMove(s.works[w], a, t.works[w])
    && t == if a.DrainGuard? then AnswerAll(s, w, t.works[w], Parting(s.works[w].st))
            else if a.Unregister? then
              s.(works := s.works[w := t.works[w]],
                 registry := map k | k in s.registry && !(k in s.works[w].keys && s.registry[k] == w) :: s.registry[k])
            else s.(works := s.works[w := t.works[w]])
  }

  predicate IsRender(a: Action) {
    a.Start? || a.StartRefused? || a.Granted? || a.RefusedPermit? || a.Reopen? || a.RenderEnded? || a.TryAbandon?
  }

  predicate IsTask(a: Action) {
    !a.Arrive? && !a.Lookup? && !a.TryJoin? && !a.SpawnOrWake? && !a.Cancel?
  }

  predicate Next(s: State, a: Action, t: State) {
    if IsRender(a) then a.w in s.works && RenderNext(s, a.w, a, t)
    else if IsTask(a) then a.w in s.works && TriggerNext(s, a.w, a, t)
    else CallerNext(s, a, t)
  }

  // ---- The invariants ----

  /** The task has taken its first template and its guard has not begun to drop. */
  predicate UnderWay(task: Task) {
    || task.Rendering? || task.AskingPermit? || task.AwaitingPermit? || task.Reopening?
    || task.Choosing? || task.Listening? || task.Parked?
  }

  /** One generation by itself. */
  predicate WorkInv(me: Generation) {
    var st := me.st;
    && (st.terminal.Some? ==> st.waiters == {})
    && (st.terminal.None? && st.waiters != {} ==> st.running || st.requested.Some?)
    && (st.terminal.None? && st.blocked ==> st.waiters == {} && st.requested.None? && !st.running)
    && (st.terminal.None? && st.running ==> st.requested.None?)
    && (me.task.Closed? || me.task.Over? ==> st.terminal.Some?)
    && (st.terminal.Some? ==> me.task.Ending? || me.task.Closed? || me.task.Over?)
    && (me.task.Unspawned? || me.task.Spawned? ==> !st.running && !st.blocked)
    && (me.task.Spawned? ==> st.requested.Some?)
    && (me.task.Unspawned? || me.task.Spawned? ==> me.template.None?)
    && (me.task.Choosing? || me.task.Listening? || me.task.Parked? ==> !st.running && !st.blocked)
    && (me.task.AskingPermit? ==> !st.blocked && st.running == me.task.first)
    && (me.task.Reopening? || me.task.AwaitingPermit? ==> !st.running && st.blocked)
    && (me.task.Rendering? ==> st.running && !st.blocked)
    && (UnderWay(me.task) ==> me.template.Some?)
    && ((me.task.Listening? || me.task.Parked?) && !me.notified ==> me.armed)
  }

  /** Every active generation is what the registry names under each of its keys. */
  predicate RegistryInv(registry: map<Key, Wid>, works: map<Wid, Generation>) {
    && (forall w :: w in works && works[w].st.terminal.None? ==>
          forall k :: k in works[w].keys ==> k in registry && registry[k] == w)
    && (forall k :: k in registry ==> registry[k] in works)
  }

  /** A sender waits in exactly the work its fate names; each answer was given once. */
  ghost predicate FateInv(works: map<Wid, Generation>, fates: map<Cid, Fate>, answers: multiset<Cid>) {
    && (forall w, c :: w in works ==> (c in works[w].st.waiters <==> c in fates && fates[c] == Pending(w)))
    && (forall c :: c in fates && fates[c].Pending? ==> fates[c].work in works)
    && (forall c :: answers[c] == if c in fates && fates[c].Answered? then 1 else 0)
  }

  /** The task holds its first template and has not rendered it. */
  predicate Untried(me: Generation) {
    me.task.AskingPermit? && me.task.first
  }

  /** A template is rendered only after it was taken, and a rejected one never was. */
  ghost predicate StageInv(works: map<Wid, Generation>, stages: map<Cid, Stage>, rendered: set<Cid>) {
    && (forall w, c :: w in works && works[w].st.requested == Some(c) && works[w].st.terminal.None? ==>
          c in stages && stages[c] == Requested(w))
    && (forall w, c :: w in works && works[w].template == Some(c) && UnderWay(works[w].task) ==>
          c in stages && stages[c] == Taken(w))
    && (forall w, c :: w in works && works[w].template == Some(c) && Untried(works[w]) ==> c !in rendered)
    && (forall c :: c in rendered ==> c in stages && stages[c].Taken?)
  }

  /** A caller that has not been accepted has no sender and no template in the system. */
  ghost predicate CallerInv(callers: map<Cid, Caller>, senders: set<Cid>, templates: set<Cid>) {
    && senders <= callers.Keys && templates <= callers.Keys
    && forall c :: c in callers && (callers[c].phase.Looking? || callers[c].phase.Found?) ==>
         c !in senders && c !in templates
  }

  predicate Creator(me: Caller) {
    (me.phase.Found? || me.phase.Accepted?) && me.phase.isNew
  }

  /** The creator of a generation spawns it exactly once, with a template in place. */
  ghost predicate CreatorInv(callers: map<Cid, Caller>, works: map<Wid, Generation>) {
    && (forall c :: c in callers && (callers[c].phase.Found? || callers[c].phase.Accepted?) ==>
          callers[c].phase.work in works)
    && (forall c :: c in callers && Creator(callers[c]) ==> works[callers[c].phase.work].task.Unspawned?)
    && (forall c :: c in callers && callers[c].phase.Accepted? && callers[c].phase.isNew ==>
          works[callers[c].phase.work].st.requested.Some?)
    && (forall c, d :: c in callers && d in callers && c != d && Creator(callers[c]) && Creator(callers[d]) ==>
          callers[c].phase.work != callers[d].phase.work)
  }

  ghost predicate HasCreator(callers: map<Cid, Caller>, w: Wid) {
    exists c :: c in callers && Creator(callers[c]) && callers[c].phase.work == w
  }

  /** Whatever has not been spawned still has the caller that will spawn it. */
  ghost predicate SpawnInv(callers: map<Cid, Caller>, works: map<Wid, Generation>) {
    forall w :: w in works && works[w].task.Unspawned? ==> HasCreator(callers, w)
  }

  /** The task sleeps on a request it has not been told about. */
  predicate Unaware(me: Generation) {
    me.task.Parked? && me.st.requested.Some? && !me.notified
  }

  ghost predicate BeingWoken(callers: map<Cid, Caller>, w: Wid) {
    exists c :: c in callers && callers[c].phase == Accepted(w, false)
  }

  /** Somebody is about to wake every task that is unaware of a request. */
  ghost predicate WakeInv(callers: map<Cid, Caller>, works: map<Wid, Generation>) {
    forall w :: w in works && Unaware(works[w]) ==> BeingWoken(callers, w)
  }

  ghost predicate Inv(s: State) {
    && (forall w :: w in s.works ==> WorkInv(s.works[w]))
    && RegistryInv(s.registry, s.works)
    && FateInv(s.works, s.fates, s.answers)
    && StageInv(s.works, s.stages, s.rendered)
    && CallerInv(s.callers, s.fates.Keys, s.stages.Keys)
    && CreatorInv(s.callers, s.works)
    && WakeInv(s.callers, s.works)
  }

  // ---- Preservation: senders ----

  lemma FateAnswerAll(works: map<Wid, Generation>, fates: map<Cid, Fate>, answers: multiset<Cid>, w: Wid, me: Generation, outcome: Outcome)
    requires FateInv(works, fates, answers) && w in works && me.st.waiters == {}
    ensures
      var who := works[w].st.waiters;
      FateInv(works[w := me], Answer(fates, who, outcome), answers + multiset(who))
  {
    var who := works[w].st.waiters;
    var after := Answer(fates, who, outcome);
    forall v, c | v in works[w := me]
      ensures c in works[w := me][v].st.waiters <==> c in after && after[c] == Pending(v)
    {
      assert c in works[v].st.waiters <==> c in fates && fates[c] == Pending(v);
      assert c in who <==> c in fates && fates[c] == Pending(w);
    }
    forall c ensures (answers + multiset(who))[c] == if c in after && after[c].Answered? then 1 else 0 {
      assert c in who <==> c in fates && fates[c] == Pending(w);
    }
  }

  lemma FateSame(works: map<Wid, Generation>, fates: map<Cid, Fate>, answers: multiset<Cid>, w: Wid, me: Generation)
    requires FateInv(works, fates, answers)
    requires me.st.waiters == if w in works then works[w].st.waiters else {}
    ensures FateInv(works[w := me], fates, answers)
  {
    forall v, c | v in works[w := me]
      ensures c in works[w := me][v].st.waiters <==> c in fates && fates[c] == Pending(v)
    {
      if v in works {
        assert c in works[v].st.waiters <==> c in fates && fates[c] == Pending(v);
      }
    }
  }

  lemma FatePrune(works: map<Wid, Generation>, fates: map<Cid, Fate>, answers: multiset<Cid>, w: Wid, me: Generation, gone: set<Cid>)
    requires FateInv(works, fates, answers) && w in works && me.st.waiters == works[w].st.waiters - gone
    ensures FateInv(works[w := me], Prune(fates, works[w].st.waiters * gone), answers)
  {
    var after := Prune(fates, works[w].st.waiters * gone);
    forall v, c | v in works[w := me]
      ensures c in works[w := me][v].st.waiters <==> c in after && after[c] == Pending(v)
    {
      assert c in works[v].st.waiters <==> c in fates && fates[c] == Pending(v);
      assert c in works[w].st.waiters <==> c in fates && fates[c] == Pending(w);
    }
    forall c ensures answers[c] == if c in after && after[c].Answered? then 1 else 0 {
      assert c in works[w].st.waiters <==> c in fates && fates[c] == Pending(w);
    }
  }

  lemma FatePush(works: map<Wid, Generation>, fates: map<Cid, Fate>, answers: multiset<Cid>, w: Wid, me: Generation, c: Cid)
    requires FateInv(works, fates, answers) && w in works && c !in fates
    requires me.st.waiters == works[w].st.waiters + {c}
    ensures FateInv(works[w := me], fates[c := Pending(w)], answers)
  {
    var after := fates[c := Pending(w)];
    forall v, d | v in works[w := me]
      ensures d in works[w := me][v].st.waiters <==> d in after && after[d] == Pending(v)
    {
      assert d in works[v].st.waiters <==> d in fates && fates[d] == Pending(v);
    }
  }

  // ---- Preservation: templates ----

  lemma StageSame(works: map<Wid, Generation>, stages: map<Cid, Stage>, rendered: set<Cid>, w: Wid, me: Generation)
    requires StageInv(works, stages, rendered)
    requires w in works && me.template == works[w].template
    requires me.st.terminal.None? && me.st.requested.Some? ==>
               me.st.requested == works[w].st.requested && works[w].st.terminal.None?
    requires (UnderWay(me.task) ==> UnderWay(works[w].task)) && (Untried(me) ==> Untried(works[w]))
    ensures StageInv(works[w := me], stages, rendered)
  {
  }

  /** The task takes its first template. */
  lemma StageStart(works: map<Wid, Generation>, stages: map<Cid, Stage>, rendered: set<Cid>, w: Wid, me: Generation)
    requires StageInv(works, stages, rendered) && w in works && works[w].st.terminal.None?
    requires works[w].st.requested.Some? && me.st.requested.None? && me.template == works[w].st.requested
    ensures StageInv(works[w := me], StageOf(stages, works[w].st.requested, Taken(w)), rendered)
  {
  }

  /** A requested template replaces the accepted one, and what the task then holds is rendered. */
  lemma StageGrant(works: map<Wid, Generation>, stages: map<Cid, Stage>, rendered: set<Cid>, w: Wid, me: Generation)
    requires StageInv(works, stages, rendered) && w in works && works[w].st.terminal.None? && UnderWay(works[w].task)
    requires me.st.requested.None? && !Untried(me) && me.template.Some?
    requires me.template == if works[w].st.requested.Some? then works[w].st.requested else works[w].template
    ensures StageInv(works[w := me], StageOf(stages, works[w].st.requested, Taken(w)), rendered + {me.template.value})
  {
  }

  lemma StageReject(works: map<Wid, Generation>, stages: map<Cid, Stage>, rendered: set<Cid>, w: Wid, me: Generation)
    requires StageInv(works, stages, rendered) && w in works && works[w].st.terminal.None?
    requires (me.st.requested.None? || me.st.terminal.Some?) && me.template == works[w].template && !Untried(me)
    requires UnderWay(me.task) ==> UnderWay(works[w].task)
    ensures StageInv(works[w := me], StageOf(stages, works[w].st.requested, Rejected), rendered)
  {
  }

  /** The first template is refused before it was ever rendered. */
  lemma StageRejectFirst(works: map<Wid, Generation>, stages: map<Cid, Stage>, rendered: set<Cid>, w: Wid, me: Generation)
    requires StageInv(works, stages, rendered) && w in works && Untried(works[w])
    requires me.st.terminal.Some? && !UnderWay(me.task)
    ensures StageInv(works[w := me], StageOf(stages, works[w].template, Rejected), rendered)
  {
  }

  lemma StageRequest(works: map<Wid, Generation>, stages: map<Cid, Stage>, rendered: set<Cid>, w: Wid, me: Generation, c: Cid)
    requires StageInv(works, stages, rendered) && w in works && c !in stages
    requires me.st.requested == Some(c) && me.template == works[w].template && me.task == works[w].task
    ensures StageInv(works[w := me], stages[c := Requested(w)], rendered)
  {
  }

  lemma StageNew(works: map<Wid, Generation>, stages: map<Cid, Stage>, rendered: set<Cid>, w: Wid, me: Generation)
    requires StageInv(works, stages, rendered) && w !in works && me.template.None? && me.st.requested.None?
    ensures StageInv(works[w := me], stages, rendered)
  {
  }

  // ---- Preservation: the registry ----

  lemma {:induction false} InsertMeaning(registry: map<Key, Wid>, keys: seq<Key>, w: Wid, k: Key)
    ensures k in Insert(registry, keys, w) <==> k in registry || k in keys
    ensures k in keys ==> Insert(registry, keys, w)[k] == w
    ensures k !in keys && k in registry ==> Insert(registry, keys, w)[k] == registry[k]
    decreases |keys|
  {
    if keys != [] {
      InsertMeaning(registry[keys[0] := w], keys[1..], w, k);
    }
  }

  lemma {:induction false} FindMeaning(s: State, keys: seq<Key>)
    ensures Find(s, keys).None? <==> forall k :: k in keys ==> !Live(s, k)
    ensures Find(s, keys).Some? ==>
      && Find(s, keys).value in s.works && s.works[Find(s, keys).value].st.terminal.None?
      && exists k :: k in keys && k in s.registry && s.registry[k] == Find(s, keys).value
  {
    if keys != [] {
      FindMeaning(s, keys[1..]);
      if Live(s, keys[0]) {
        assert keys[0] in keys;
      } else {
        assert forall k :: k in keys <==> k == keys[0] || k in keys[1..];
      }
    }
  }

  lemma {:induction false} RegisterKeeps(s: State, keys: seq<Key>, w: Wid)
    requires RegistryInv(s.registry, s.works) && Find(s, keys).None? && w !in s.works
    ensures RegistryInv(Insert(s.registry, keys, w),
                        s.works[w := Generation(keys, FRESH, Unspawned, None, false, false)])
  {
    FindMeaning(s, keys);
    var after := Insert(s.registry, keys, w);
    var works := s.works[w := Generation(keys, FRESH, Unspawned, None, false, false)];
    forall v, k | v in works && works[v].st.terminal.None? && k in works[v].keys
      ensures k in after && after[k] == v
    {
      InsertMeaning(s.registry, keys, w, k);
      if v != w {
        assert k in s.registry && s.registry[k] == v;
        assert Live(s, k);
      }
    }
    forall k | k in after ensures after[k] in works {
      InsertMeaning(s.registry, keys, w, k);
    }
  }

  lemma RegistrySame(registry: map<Key, Wid>, works: map<Wid, Generation>, w: Wid, me: Generation)
    requires RegistryInv(registry, works) && w in works
    requires me.keys == works[w].keys && (works[w].st.terminal.Some? ==> me.st.terminal.Some?)
    ensures RegistryInv(registry, works[w := me])
  {
  }

  // ---- Preservation: task steps ----

  lemma RenderWork(s: State, w: Wid, a: Action, t: State)
    requires w in s.works && WorkInv(s.works[w]) && RenderNext(s, w, a, t)
    ensures w in t.works && WorkInv(t.works[w]) && !Unaware(t.works[w])
  {
  }

  lemma RenderFrame(s: State, w: Wid, a: Action, t: State)
    requires w in s.works && WorkInv(s.works[w]) && RenderNext(s, w, a, t)
    ensures w in t.works && t.works == s.works[w := t.works[w]]
    ensures t.works[w].keys == s.works[w].keys && t.callers == s.callers && t.cancelled == s.cancelled
    ensures s.works[w].st.terminal.Some? ==> t.works[w].st.terminal.Some?
    ensures !s.works[w].task.Unspawned? && !t.works[w].task.Unspawned?
  {
  }

  /** What a step of a task answers everybody waiting with. */
  function AnswerGiven(s: State, a: Action): Option<Outcome> {
    match a
    case StartRefused(_) => Some(Failed(NoSubscriptionSlot))
    case RefusedPermit(_) => Some(Failed(NoRenderSlot))
    case RenderEnded(_, result, _) => Some(result)
    case DrainGuard(w) => if w in s.works then Some(Parting(s.works[w].st)) else None
    case _ => None
  }

  lemma RenderFates(s: State, w: Wid, a: Action, t: State)
    requires w in s.works && RenderNext(s, w, a, t) && FateInv(s.works, s.fates, s.answers)
    ensures FateInv(t.works, t.fates, t.answers)
    ensures t.fates.Keys == s.fates.Keys
  {
    var me := t.works[w];
    if a.StartRefused? || a.RefusedPermit? || a.RenderEnded? {
      FateAnswerAll(s.works, s.fates, s.answers, w, me, AnswerGiven(s, a).value);
    } else if a.TryAbandon? {
      FatePrune(s.works, s.fates, s.answers, w, me, s.cancelled);
    } else {
      FateSame(s.works, s.fates, s.answers, w, me);
    }
  }

  lemma TakingStages(s: State, w: Wid, a: Action, t: State)
    requires w in s.works && WorkInv(s.works[w]) && RenderNext(s, w, a, t) && (a.Start? || a.Granted?)
    requires StageInv(s.works, s.stages, s.rendered)
    ensures StageInv(t.works, t.stages, t.rendered)
    ensures t.stages.Keys == s.stages.Keys
  {
    if a.Start? {
      StageStart(s.works, s.stages, s.rendered, w, t.works[w]);
    } else {
      StageGrant(s.works, s.stages, s.rendered, w, t.works[w]);
    }
  }

  lemma RefusingStages(s: State, w: Wid, a: Action, t: State)
    requires w in s.works && WorkInv(s.works[w]) && RenderNext(s, w, a, t) && (a.RefusedPermit? || a.StartRefused?)
    requires StageInv(s.works, s.stages, s.rendered)
    ensures StageInv(t.works, t.stages, t.rendered)
    ensures t.stages.Keys == s.stages.Keys
  {
    if a.RefusedPermit? && s.works[w].task.first {
      StageRejectFirst(s.works, s.stages, s.rendered, w, t.works[w]);
    } else {
      StageReject(s.works, s.stages, s.rendered, w, t.works[w]);
    }
  }

  lemma RenderStages(s: State, w: Wid, a: Action, t: State)
    requires w in s.works && WorkInv(s.works[w]) && RenderNext(s, w, a, t)
    requires StageInv(s.works, s.stages, s.rendered)
    ensures StageInv(t.works, t.stages, t.rendered)
    ensures t.stages.Keys == s.stages.Keys
  {
    if a.Start? || a.Granted? {
      TakingStages(s, w, a, t);
    } else if a.RefusedPermit? || a.StartRefused? {
      RefusingStages(s, w, a, t);
    } else {
      StageSame(s.works, s.stages, s.rendered, w, t.works[w]);
    }
  }

  lemma RenderRegistry(s: State, w: Wid, a: Action, t: State)
    requires w in s.works && WorkInv(s.works[w]) && RenderNext(s, w, a, t)
    requires RegistryInv(s.registry, s.works)
    ensures RegistryInv(t.registry, t.works)
  {
    RenderFrame(s, w, a, t);
    RegistrySame(s.registry, s.works, w, t.works[w]);
  }

  lemma TriggerWork(me: Generation, a: Action, next: Generation)
    requires WorkInv(me) && TriggerMove(me, a, next)
    ensures WorkInv(next) && !Unaware(next)
    ensures next.keys == me.keys && next.template == me.template && next.st.requested == me.st.requested
    ensures me.st.terminal.Some? ==> next.st.terminal.Some?
    ensures !me.task.Unspawned? && !next.task.Unspawned?
    ensures next.st.waiters == if a.DrainGuard? then {} else me.st.waiters
    ensures (UnderWay(next.task) ==> UnderWay(me.task)) && (Untried(next) ==> Untried(me))
  {
  }

  lemma TriggerFates(s: State, w: Wid, a: Action, t: State)
    requires w in s.works && WorkInv(s.works[w]) && TriggerNext(s, w, a, t) && FateInv(s.works, s.fates, s.answers)
    ensures FateInv(t.works, t.fates, t.answers)
    ensures t.fates.Keys == s.fates.Keys
  {
    TriggerWork(s.works[w], a, t.works[w]);
    if a.DrainGuard? {
      FateAnswerAll(s.works, s.fates, s.answers, w, t.works[w], Parting(s.works[w].st));
    } else {
      FateSame(s.works, s.fates, s.answers, w, t.works[w]);
    }
  }

  lemma TriggerRegistry(s: State, w: Wid, a: Action, t: State)
    requires w in s.works && WorkInv(s.works[w]) && TriggerNext(s, w, a, t) && RegistryInv(s.registry, s.works)
    ensures RegistryInv(t.registry, t.works)
  {
    TriggerWork(s.works[w], a, t.works[w]);
    RegistrySame(s.registry, s.works, w, t.works[w]);
    if a.Unregister? {
      forall v, k | v in t.works && t.works[v].st.terminal.None? && k in t.works[v].keys
        ensures k in t.registry && t.registry[k] == v
      {
        assert k in s.registry && s.registry[k] == v;
      }
    }
  }

  lemma CreatorTask(callers: map<Cid, Caller>, works: map<Wid, Generation>, w: Wid, me: Generation)
    requires CreatorInv(callers, works) && w in works
    requires (!works[w].task.Unspawned? && !me.task.Unspawned?)
             || (me.task == works[w].task && (works[w].st.requested.Some? ==> me.st.requested.Some?))
    ensures CreatorInv(callers, works[w := me])
  {
  }

  lemma WakeTask(callers: map<Cid, Caller>, works: map<Wid, Generation>, w: Wid, me: Generation)
    requires WakeInv(callers, works) && (Unaware(me) ==> BeingWoken(callers, w))
    ensures WakeInv(callers, works[w := me])
  {
  }

  lemma RenderKeeps(s: State, a: Action, t: State)
    requires Inv(s) && IsRender(a) && Next(s, a, t)
    ensures Inv(t)
  {
    var w := a.w;
    RenderWork(s, w, a, t);
    RenderFrame(s, w, a, t);
    RenderFates(s, w, a, t);
    RenderStages(s, w, a, t);
    RenderRegistry(s, w, a, t);
    CreatorTask(s.callers, s.works, w, t.works[w]);
    WakeTask(s.callers, s.works, w, t.works[w]);
  }

  lemma TriggerKeeps(s: State, a: Action, t: State)
    requires Inv(s) && IsTask(a) && !IsRender(a) && Next(s, a, t)
    ensures Inv(t)
  {
    var w := a.w;
    TriggerWork(s.works[w], a, t.works[w]);
    TriggerFates(s, w, a, t);
    StageSame(s.works, s.stages, s.rendered, w, t.works[w]);
    TriggerRegistry(s, w, a, t);
    CreatorTask(s.callers, s.works, w, t.works[w]);
    WakeTask(s.callers, s.works, w, t.works[w]);
  }

  // ---- Preservation: caller steps ----

  /** A caller that creates nothing moves on; whoever it was to wake is aware by now. */
  lemma CallerMoves(callers: map<Cid, Caller>, works: map<Wid, Generation>, c: Cid, me: Caller)
    requires CreatorInv(callers, works) && WakeInv(callers, works) && !Creator(me)
    requires me.phase.Found? || me.phase.Accepted? ==> me.phase.work in works
    requires c in callers && callers[c].phase.Accepted? && callers[c].phase.work in works ==>
               !Unaware(works[callers[c].phase.work])
    ensures CreatorInv(callers[c := me], works) && WakeInv(callers[c := me], works)
  {
    forall w | w in works && Unaware(works[w]) ensures BeingWoken(callers[c := me], w) {
      var d :| d in callers && callers[d].phase == Accepted(w, false);
      assert d in callers[c := me] && callers[c := me][d].phase == Accepted(w, false);
    }
  }

  lemma CallerCreates(callers: map<Cid, Caller>, works: map<Wid, Generation>, c: Cid, w: Wid, keys: seq<Key>, me: Generation)
    requires CreatorInv(callers, works) && WakeInv(callers, works)
    requires c in callers && callers[c].phase.Looking? && w !in works && me.task.Unspawned?
    ensures CreatorInv(callers[c := Caller(keys, Found(w, true))], works[w := me])
    ensures WakeInv(callers[c := Caller(keys, Found(w, true))], works[w := me])
  {
    var after := callers[c := Caller(keys, Found(w, true))];
    forall v | v in works && Unaware(works[v]) ensures BeingWoken(after, v) {
      var d :| d in callers && callers[d].phase == Accepted(v, false);
      assert d in after && after[d].phase == Accepted(v, false);
    }
  }

  lemma LookupFinds(s: State, c: Cid, me: Caller)
    requires Inv(s) && c in s.callers && s.callers[c].phase.Looking?
    requires me.phase.Found? && !me.phase.isNew && me.phase.work in s.works
    ensures Inv(s.(callers := s.callers[c := me]))
  {
    CallerMoves(s.callers, s.works, c, me);
  }

  lemma {:induction false} LookupCreates(s: State, c: Cid, w: Wid, keys: seq<Key>, t: State)
    requires Inv(s) && c in s.callers && s.callers[c].phase.Looking? && w !in s.works && Find(s, keys).None?
    requires t == s.(registry := Insert(s.registry, keys, w),
                     works := s.works[w := Generation(keys, FRESH, Unspawned, None, false, false)],
                     callers := s.callers[c := Caller(keys, Found(w, true))])
    ensures Inv(t)
  {
    var me := t.works[w];
    assert forall v :: v in t.works ==> WorkInv(t.works[v]);
    RegisterKeeps(s, keys, w);
    FateSame(s.works, s.fates, s.answers, w, me);
    StageNew(s.works, s.stages, s.rendered, w, me);
    CallerCreates(s.callers, s.works, c, w, keys, me);
    CallerSeeks(s.callers, s.fates.Keys, s.stages.Keys, c, t.callers[c]);
  }

  lemma CallerSeeks(callers: map<Cid, Caller>, senders: set<Cid>, templates: set<Cid>, c: Cid, me: Caller)
    requires CallerInv(callers, senders, templates) && c in callers && callers[c].phase.Looking?
    ensures CallerInv(callers[c := me], senders, templates)
  {
  }

  /** What an accepted caller does to the generation it joins. */
  lemma JoinWork(me: Generation, c: Cid, cancelled: set<Cid>)
    requires WorkInv(me) && me.st.terminal.None? && !me.st.blocked
    ensures WorkInv(me.(st := Joined(me.st, c, cancelled)))
    ensures Joined(me.st, c, cancelled).requested.Some? || me.st.running
  {
  }

  lemma JoinFates(s: State, c: Cid, w: Wid)
    requires FateInv(s.works, s.fates, s.answers) && w in s.works && c !in s.fates
    ensures
      var me := s.works[w];
      FateInv(s.works[w := me.(st := Joined(me.st, c, s.cancelled))],
              Prune(s.fates, me.st.waiters * s.cancelled)[c := Pending(w)], s.answers)
  {
    var me := s.works[w];
    var mid := me.(st := me.st.(waiters := me.st.waiters - s.cancelled));
    FatePrune(s.works, s.fates, s.answers, w, mid, s.cancelled);
    var next := me.(st := Joined(me.st, c, s.cancelled));
    FatePush(s.works[w := mid], Prune(s.fates, me.st.waiters * s.cancelled), s.answers, w, next, c);
    assert s.works[w := mid][w := next] == s.works[w := next];
  }

  /** An accepted caller keeps the role it had and promises to wake the task it joined. */
  lemma JoinCallers(callers: map<Cid, Caller>, works: map<Wid, Generation>, c: Cid, w: Wid, isNew: bool, me: Generation)
    requires CreatorInv(callers, works) && WakeInv(callers, works)
    requires c in callers && callers[c].phase == Found(w, isNew) && w in works
    requires me.task == works[w].task && (works[w].st.requested.Some? ==> me.st.requested.Some?)
    requires isNew ==> me.st.requested.Some?
    ensures
      var after := callers[c := callers[c].(phase := Accepted(w, isNew))];
      CreatorInv(after, works[w := me]) && WakeInv(after, works[w := me])
  {
    var after := callers[c := callers[c].(phase := Accepted(w, isNew))];
    CreatorTask(callers, works, w, me);
    forall v | v in works[w := me] && Unaware(works[w := me][v]) ensures BeingWoken(after, v) {
      if v == w {
        assert c in after && after[c].phase == Accepted(w, false);
      } else {
        var d :| d in callers && callers[d].phase == Accepted(v, false);
        assert d in after && after[d].phase == Accepted(v, false);
      }
    }
  }

  lemma JoinStages(s: State, c: Cid, w: Wid)
    requires w in s.works && s.works[w].st.terminal.None?
    requires StageInv(s.works, s.stages, s.rendered) && c !in s.stages
    ensures
      var me := s.works[w].(st := Joined(s.works[w].st, c, s.cancelled));
      StageInv(s.works[w := me],
               if me.st.requested == Some(c) then s.stages[c := Requested(w)] else s.stages, s.rendered)
  {
    var me := s.works[w].(st := Joined(s.works[w].st, c, s.cancelled));
    if me.st.requested == Some(c) {
      StageRequest(s.works, s.stages, s.rendered, w, me, c);
    } else {
      StageSame(s.works, s.stages, s.rendered, w, me);
    }
  }

  lemma JoinCreator(s: State, c: Cid, w: Wid, isNew: bool)
    requires CreatorInv(s.callers, s.works) && WakeInv(s.callers, s.works)
    requires c in s.callers && s.callers[c].phase == Found(w, isNew)
    requires WorkInv(s.works[w]) && s.works[w].st.terminal.None? && !s.works[w].st.blocked
    ensures
      var me := s.works[w].(st := Joined(s.works[w].st, c, s.cancelled));
      var after := s.callers[c := s.callers[c].(phase := Accepted(w, isNew))];
      CreatorInv(after, s.works[w := me]) && WakeInv(after, s.works[w := me])
  {
    var me := s.works[w].(st := Joined(s.works[w].st, c, s.cancelled));
    JoinWork(s.works[w], c, s.cancelled);
    assert Creator(s.callers[c]) == isNew;
    JoinCallers(s.callers, s.works, c, w, isNew, me);
  }

  lemma JoinSenders(callers: map<Cid, Caller>, senders: set<Cid>, templates: set<Cid>, c: Cid, me: Caller, all: set<Cid>)
    requires CallerInv(callers, senders, templates) && c in callers && me.phase.Accepted? && all <= templates + {c}
    ensures CallerInv(callers[c := me], senders + {c}, all)
  {
  }

  /** The state in which a caller has been accepted. */
  function JoinedState(s: State, c: Cid, w: Wid, isNew: bool): State
    requires c in s.callers && w in s.works
  {
    var me := s.works[w].(st := Joined(s.works[w].st, c, s.cancelled));
    s.(works := s.works[w := me],
       callers := s.callers[c := s.callers[c].(phase := Accepted(w, isNew))],
       fates := Prune(s.fates, s.works[w].st.waiters * s.cancelled)[c := Pending(w)],
       stages := if me.st.requested == Some(c) then s.stages[c := Requested(w)] else s.stages)
  }

  lemma JoinKeeps(s: State, c: Cid, w: Wid, isNew: bool)
    requires Inv(s) && c in s.callers && s.callers[c].phase == Found(w, isNew) && w in s.works
    requires s.works[w].st.terminal.None? && !s.works[w].st.blocked
    ensures Inv(JoinedState(s, c, w, isNew))
  {
    var t := JoinedState(s, c, w, isNew);
    JoinWork(s.works[w], c, s.cancelled);
    JoinFates(s, c, w);
    JoinStages(s, c, w);
    RegistrySame(s.registry, s.works, w, t.works[w]);
    JoinCreator(s, c, w, isNew);
    assert t.fates.Keys == s.fates.Keys + {c} && t.stages.Keys <= s.stages.Keys + {c};
    JoinSenders(s.callers, s.fates.Keys, s.stages.Keys, c, t.callers[c], t.stages.Keys);
  }

  /** A caller that arrives, looks again, is refused or leaves changes nothing else. */
  lemma RetryKeeps(s: State, c: Cid, me: Caller)
    requires Inv(s) && (me.phase.Looking? || me.phase.Settled?)
    requires c in s.callers ==> s.callers[c].phase.Found?
    ensures Inv(s.(callers := s.callers[c := me]))
  {
    CallerMoves(s.callers, s.works, c, me);
  }

  /** The creator spawns its task and is its creator no longer. */
  lemma SpawnCallers(callers: map<Cid, Caller>, works: map<Wid, Generation>, c: Cid, me: Caller, next: Generation)
    requires CreatorInv(callers, works) && WakeInv(callers, works)
    requires c in callers && callers[c].phase.Accepted? && callers[c].phase.isNew && me.phase.Settled?
    requires next.task.Spawned?
    ensures CreatorInv(callers[c := me], works[callers[c].phase.work := next])
    ensures WakeInv(callers[c := me], works[callers[c].phase.work := next])
  {
    var w := callers[c].phase.work;
    CallerMoves(callers, works, c, me);
    assert forall d :: d in callers[c := me] && Creator(callers[c := me][d]) ==> callers[d].phase.work != w;
    WakeTask(callers[c := me], works, w, next);
  }

  lemma WokenRest(s: State, w: Wid, next: Generation)
    requires FateInv(s.works, s.fates, s.answers) && StageInv(s.works, s.stages, s.rendered)
    requires RegistryInv(s.registry, s.works) && w in s.works
    requires next.st == s.works[w].st && next.template == s.works[w].template && next.keys == s.works[w].keys
    requires next.task == s.works[w].task || next.task.Spawned?
    ensures FateInv(s.works[w := next], s.fates, s.answers) && StageInv(s.works[w := next], s.stages, s.rendered)
    ensures RegistryInv(s.registry, s.works[w := next])
  {
    FateSame(s.works, s.fates, s.answers, w, next);
    StageSame(s.works, s.stages, s.rendered, w, next);
    RegistrySame(s.registry, s.works, w, next);
  }

  lemma SpawnKeeps(s: State, c: Cid, w: Wid, next: Generation, t: State)
    requires Inv(s) && c in s.callers && s.callers[c].phase == Accepted(w, true) && w in s.works
    requires next == s.works[w].(task := Spawned)
    requires t == s.(works := s.works[w := next], callers := s.callers[c := s.callers[c].(phase := Settled)])
    ensures Inv(t)
  {
    assert WorkInv(s.works[w]) && Creator(s.callers[c]);
    SpawnCallers(s.callers, s.works, c, t.callers[c], next);
    WokenRest(s, w, next);
  }

  lemma WakeKeeps(s: State, c: Cid, w: Wid, next: Generation, t: State)
    requires Inv(s) && c in s.callers && s.callers[c].phase == Accepted(w, false) && w in s.works
    requires next == if s.works[w].armed then s.works[w].(armed := false, notified := true) else s.works[w]
    requires t == s.(works := s.works[w := next], callers := s.callers[c := s.callers[c].(phase := Settled)])
    ensures Inv(t)
  {
    assert WorkInv(s.works[w]) && WorkInv(next);
    CreatorTask(s.callers, s.works, w, next);
    WakeTask(s.callers, s.works, w, next);
    CallerMoves(s.callers, t.works, c, t.callers[c]);
    WokenRest(s, w, next);
  }

  lemma LookupKeeps(s: State, c: Cid, w: Wid, t: State)
    requires Inv(s) && CallerNext(s, Lookup(c, w), t)
    ensures Inv(t)
  {
    var me := s.callers[c];
    FindMeaning(s, me.keys);
    if Find(s, me.keys).Some? {
      LookupFinds(s, c, t.callers[c]);
    } else {
      LookupCreates(s, c, w, me.keys, t);
    }
  }

  /** The two things that can happen to a caller at the lock. */
  lemma TryJoinCases(s: State, c: Cid, t: State)
    requires CallerNext(s, TryJoin(c), t)
    ensures
      var Caller(_, Found(w, isNew)) := s.callers[c];
      if s.works[w].st.terminal.Some? || s.works[w].st.blocked then
        && c in t.callers && (t.callers[c].phase.Looking? || t.callers[c].phase.Settled?)
        && t == s.(callers := s.callers[c := t.callers[c]])
      else t == JoinedState(s, c, w, isNew)
  {
  }

  lemma TryJoinKeeps(s: State, c: Cid, t: State)
    requires Inv(s) && CallerNext(s, TryJoin(c), t)
    ensures Inv(t)
  {
    var Caller(_, Found(w, isNew)) := s.callers[c];
    TryJoinCases(s, c, t);
    if s.works[w].st.terminal.Some? || s.works[w].st.blocked {
      RetryKeeps(s, c, t.callers[c]);
    } else {
      JoinKeeps(s, c, w, isNew);
    }
  }

  lemma SpawnOrWakeKeeps(s: State, c: Cid, t: State)
    requires Inv(s) && CallerNext(s, SpawnOrWake(c), t)
    ensures Inv(t)
  {
    var Caller(keys, Accepted(w, isNew)) := s.callers[c];
    if isNew {
      SpawnKeeps(s, c, w, t.works[w], t);
    } else {
      WakeKeeps(s, c, w, t.works[w], t);
    }
  }

  lemma StepKeepsInv(s: State, a: Action, t: State)
    requires Inv(s) && Next(s, a, t)
    ensures Inv(t)
  {
    if IsRender(a) {
      RenderKeeps(s, a, t);
    } else if IsTask(a) {
      TriggerKeeps(s, a, t);
    } else if a.Lookup? {
      LookupKeeps(s, a.c, a.w, t);
    } else if a.TryJoin? {
      TryJoinKeeps(s, a.c, t);
    } else if a.SpawnOrWake? {
      SpawnOrWakeKeeps(s, a.c, t);
    } else if a.Arrive? {
      RetryKeeps(s, a.c, t.callers[a.c]);
    }
  }

  // ---- Preservation: creators ----

  lemma SpawnCaller(callers: map<Cid, Caller>, works: map<Wid, Generation>, c: Cid, me: Caller)
    requires SpawnInv(callers, works)
    requires c in callers && Creator(callers[c]) ==>
               || (Creator(me) && me.phase.work == callers[c].phase.work)
               || (callers[c].phase.work in works && !works[callers[c].phase.work].task.Unspawned?)
    ensures SpawnInv(callers[c := me], works)
  {
    var after := callers[c := me];
    forall w | w in works && works[w].task.Unspawned? ensures HasCreator(after, w) {
      var d :| d in callers && Creator(callers[d]) && callers[d].phase.work == w;
      assert d in after && Creator(after[d]) && after[d].phase.work == w;
    }
  }

  lemma SpawnWork(callers: map<Cid, Caller>, works: map<Wid, Generation>, w: Wid, me: Generation)
    requires SpawnInv(callers, works) && (me.task.Unspawned? ==> HasCreator(callers, w))
    ensures SpawnInv(callers, works[w := me])
  {
  }

  lemma TaskKeepsSpawn(s: State, a: Action, t: State)
    requires Inv(s) && SpawnInv(s.callers, s.works) && IsTask(a) && Next(s, a, t)
    ensures SpawnInv(t.callers, t.works)
  {
    assert WorkInv(s.works[a.w]);
    if IsRender(a) {
      RenderFrame(s, a.w, a, t);
    } else {
      TriggerWork(s.works[a.w], a, t.works[a.w]);
    }
    SpawnWork(s.callers, s.works, a.w, t.works[a.w]);
  }

  /** A caller turned away from a work was never the one to spawn it. */
  lemma RetryIsNoCreator(s: State, c: Cid)
    requires CreatorInv(s.callers, s.works) && c in s.callers && s.callers[c].phase.Found?
    requires WorkInv(s.works[s.callers[c].phase.work])
    requires s.works[s.callers[c].phase.work].st.terminal.Some? || s.works[s.callers[c].phase.work].st.blocked
    ensures !Creator(s.callers[c])
  {
  }

  lemma JoinKeepsSpawn(s: State, c: Cid, t: State)
    requires Inv(s) && SpawnInv(s.callers, s.works) && CallerNext(s, TryJoin(c), t)
    ensures SpawnInv(t.callers, t.works)
  {
    var w := s.callers[c].phase.work;
    assert WorkInv(s.works[w]);
    if s.works[w].st.terminal.Some? || s.works[w].st.blocked {
      RetryIsNoCreator(s, c);
    }
    SpawnCaller(s.callers, s.works, c, t.callers[c]);
    if t.callers[c].phase.Accepted? {
      SpawnWork(t.callers, s.works, w, t.works[w]);
    }
  }

  lemma WakeKeepsSpawn(s: State, c: Cid, t: State)
    requires Inv(s) && SpawnInv(s.callers, s.works) && CallerNext(s, SpawnOrWake(c), t)
    ensures SpawnInv(t.callers, t.works)
  {
    var Caller(keys, Accepted(w, isNew)) := s.callers[c];
    SpawnWork(s.callers, s.works, w, t.works[w]);
    SpawnCaller(s.callers, t.works, c, t.callers[c]);
  }

  lemma StepKeepsSpawn(s: State, a: Action, t: State)
    requires Inv(s) && SpawnInv(s.callers, s.works) && Next(s, a, t)
    ensures SpawnInv(t.callers, t.works)
  {
    if IsTask(a) {
      TaskKeepsSpawn(s, a, t);
    } else {
      match a
      case Lookup(c, w) =>
        SpawnCaller(s.callers, s.works, c, t.callers[c]);
        if Find(s, s.callers[c].keys).None? {
          assert c in t.callers && Creator(t.callers[c]) && t.callers[c].phase.work == w;
          SpawnWork(t.callers, s.works, w, t.works[w]);
        }
      case TryJoin(c) => JoinKeepsSpawn(s, c, t);
      case SpawnOrWake(c) => WakeKeepsSpawn(s, c, t);
      case Arrive(c, _) => SpawnCaller(s.callers, s.works, c, t.callers[c]);
      case Cancel(_) =>
    }
  }

  // ---- Whole runs ----

  ghost predicate Run(states: seq<State>, actions: seq<Action>) {
    && |states| == |actions| + 1
    && Init(states[0])
    && forall i {:trigger actions[i]} :: 0 <= i < |actions| ==> Next(states[i], actions[i], states[i + 1])
  }

  lemma {:induction false} RunInv(states: seq<State>, actions: seq<Action>, i: nat)
    requires Run(states, actions) && i < |states|
    ensures Inv(states[i])
  {
    if i > 0 {
      RunInv(states, actions, i - 1);
      StepKeepsInv(states[i - 1], actions[i - 1], states[i]);
    }
  }

  lemma {:induction false} RunSpawn(states: seq<State>, actions: seq<Action>, i: nat)
    requires Run(states, actions) && i < |states|
    ensures SpawnInv(states[i].callers, states[i].works)
  {
    if i > 0 {
      RunSpawn(states, actions, i - 1);
      RunInv(states, actions, i - 1);
      StepKeepsSpawn(states[i - 1], actions[i - 1], states[i]);
    }
  }

  /**
   Two generations that are not terminal share no key, and each is what the
   registry names under all of its keys.
   */
  lemma OneGenerationPerKey(states: seq<State>, actions: seq<Action>, i: nat, v: Wid, w: Wid, k: Key)
    requires Run(states, actions) && i < |states|
    requires v in states[i].works && states[i].works[v].st.terminal.None? && k in states[i].works[v].keys
    ensures k in states[i].registry && states[i].registry[k] == v
    ensures w in states[i].works && w != v && states[i].works[w].st.terminal.None? ==> k !in states[i].works[w].keys
  {
    RunInv(states, actions, i);
  }

  /** A finishing task removes only entries that still name it, never its successor's. */
  lemma SuccessorStaysRegistered(states: seq<State>, actions: seq<Action>, i: nat, w: Wid)
    requires Run(states, actions) && i < |actions| && actions[i] == Unregister(w)
    ensures w in states[i].works && states[i].works[w].st.terminal.Some?
    ensures forall k :: k in states[i].registry && states[i].registry[k] != w ==>
              k in states[i + 1].registry && states[i + 1].registry[k] == states[i].registry[k]
    ensures forall k :: k in states[i].works[w].keys && k in states[i + 1].registry ==> states[i + 1].registry[k] != w
  {
    RunInv(states, actions, i);
    assert Next(states[i], actions[i], states[i + 1]);
    assert WorkInv(states[i].works[w]);
  }

  /** Somebody acts next on this work: its task, its creator, or whoever is to wake the task. */
  ghost predicate Attended(s: State, w: Wid)
    requires w in s.works
  {
    var me := s.works[w];
    match me.task
    case Unspawned => HasCreator(s.callers, w)
    case Parked => me.st.requested.Some? && (me.notified || BeingWoken(s.callers, w))
    case Spawned => me.st.requested.Some?
    case AskingPermit(_, _) => true
    case Rendering => me.st.running
    case Choosing => me.st.requested.Some?
    case Listening => me.st.requested.Some?
    case Ending => true
    case _ => false
  }

  /**
   Every accepted sender is waiting in one work, or was answered exactly once, or
   was cancelled; it never waits in a terminal or blocked work, where it waits a
   render is running or requested, and somebody acts next on that work.
   */
  lemma WaitersNeverStranded(states: seq<State>, actions: seq<Action>, i: nat, c: Cid)
    requires Run(states, actions) && i < |states| && c in states[i].fates
    ensures states[i].answers[c] == if states[i].fates[c].Answered? then 1 else 0
    ensures states[i].fates[c].Pending? ==>
      && states[i].fates[c].work in states[i].works
      && var me := states[i].works[states[i].fates[c].work];
      && c in me.st.waiters && me.st.terminal.None? && !me.st.blocked
      && (me.st.running || me.st.requested.Some?)
      && Attended(states[i], states[i].fates[c].work)
  {
    RunInv(states, actions, i);
    RunSpawn(states, actions, i);
    if states[i].fates[c].Pending? {
      WaiterAttended(states[i], c);
    }
  }

  lemma WaiterAttended(s: State, c: Cid)
    requires (forall w :: w in s.works ==> WorkInv(s.works[w])) && FateInv(s.works, s.fates, s.answers)
    requires WakeInv(s.callers, s.works) && SpawnInv(s.callers, s.works)
    requires c in s.fates && s.fates[c].Pending?
    ensures s.fates[c].work in s.works
    ensures
      var me := s.works[s.fates[c].work];
      && c in me.st.waiters && me.st.terminal.None? && !me.st.blocked
      && (me.st.running || me.st.requested.Some?)
      && Attended(s, s.fates[c].work)
  {
    var w := s.fates[c].work;
    assert c in s.works[w].st.waiters;
    assert WorkInv(s.works[w]);
    assert Unaware(s.works[w]) ==> BeingWoken(s.callers, w);
  }

  /** The state in which a task has taken one of its own steps. */
  function Moved(s: State, w: Wid, me: Generation): State {
    s.(works := s.works[w := me])
  }

  /** Attention is not an empty word: the actor has a step to take. */
  lemma AttendedActs(s: State, w: Wid) returns (a: Action, t: State)
    requires Inv(s) && w in s.works && Attended(s, w)
    ensures Next(s, a, t)
    ensures (IsTask(a) && a.w == w)
            || ((a.TryJoin? || a.SpawnOrWake?) && a.c in s.callers && !s.callers[a.c].phase.Looking?
                && !s.callers[a.c].phase.Settled? && s.callers[a.c].phase.work == w)
  {
    var me := s.works[w];
    match me.task
    case Unspawned =>
      var c :| c in s.callers && Creator(s.callers[c]) && s.callers[c].phase.work == w;
      a, t := CallerActs(s, c);
    case Parked =>
      if me.notified {
        a, t := Listen(w), Moved(s, w, me.(task := Listening, armed := true, notified := false));
      } else {
        var c :| c in s.callers && s.callers[c].phase == Accepted(w, false);
        a, t := CallerActs(s, c);
      }
    case Spawned =>
      a := Start(w);
      t := Moved(s, w, me.(st := me.st.(running := true, requested := None), template := me.st.requested,
                           task := AskingPermit(true, ByRequest)))
           .(stages := StageOf(s.stages, me.st.requested, Taken(w)));
    case AskingPermit(_, _) =>
      var template := if me.st.requested.Some? then me.st.requested else me.template;
      a := Granted(w);
      t := Moved(s, w, me.(st := Begun(me.st), template := template, task := Rendering))
           .(stages := StageOf(s.stages, me.st.requested, Taken(w)),
             rendered := if template.Some? then s.rendered + {template.value} else s.rendered);
    case Rendering =>
      a := RenderEnded(w, Succeeded, true);
      t := AnswerAll(s, w, me.(st := Finished(me.st, Succeeded, true), task := Ending), Succeeded);
    case Choosing => a, t := Listen(w), Moved(s, w, me.(task := Listening, armed := true, notified := false));
    case Listening => a, t := Inspect(w), Moved(s, w, me.(task := AskingPermit(false, ByRequest)));
    case Ending =>
      a := DrainGuard(w);
      t := AnswerAll(s, w, me.(st := Drained(me.st), task := Closed), Parting(me.st));
  }

  /** A caller that found a work, or was accepted by one, has its next step. */
  lemma CallerActs(s: State, c: Cid) returns (a: Action, t: State)
    requires CreatorInv(s.callers, s.works) && c in s.callers
    requires s.callers[c].phase.Found? || s.callers[c].phase.Accepted?
    ensures Next(s, a, t) && (a == TryJoin(c) || a == SpawnOrWake(c))
  {
    var Caller(keys, phase) := s.callers[c];
    var me := s.works[phase.work];
    if phase.Accepted? {
      a := SpawnOrWake(c);
      var next := if phase.isNew then me.(task := Spawned)
                  else if me.armed then me.(armed := false, notified := true) else me;
      t := s.(works := s.works[phase.work := next], callers := s.callers[c := Caller(keys, Settled)]);
    } else {
      a := TryJoin(c);
      if me.st.terminal.Some? {
        t := s.(callers := s.callers[c := Caller(keys, Looking)]);
      } else if me.st.blocked {
        t := s.(callers := s.callers[c := Caller(keys, Settled)]);
      } else {
        var st := Joined(me.st, c, s.cancelled);
        t := s.(works := s.works[phase.work := me.(st := st)],
                callers := s.callers[c := Caller(keys, Accepted(phase.work, phase.isNew))],
                fates := Prune(s.fates, me.st.waiters * s.cancelled)[c := Pending(phase.work)],
                stages := if st.requested == Some(c) then s.stages[c := Requested(phase.work)] else s.stages);
      }
    }
  }

  lemma PrunedByTask(s: State, a: Action, t: State, c: Cid)
    requires IsTask(a) && Next(s, a, t)
    requires c in t.fates && t.fates[c].Pruned? && !(c in s.fates && s.fates[c].Pruned?)
    ensures c in s.cancelled
  {
    if a.TryAbandon? {
      assert c in s.works[a.w].st.waiters * s.cancelled;
    }
  }

  /** A step drops only cancelled senders without an answer. */
  lemma PrunedWereCancelled(s: State, a: Action, t: State, c: Cid)
    requires Next(s, a, t)
    requires c in t.fates && t.fates[c].Pruned? && !(c in s.fates && s.fates[c].Pruned?)
    ensures c in s.cancelled
  {
    if IsTask(a) {
      PrunedByTask(s, a, t, c);
    } else {
      assert a.TryJoin?;
      assert c in s.works[s.callers[a.c].phase.work].st.waiters * s.cancelled;
    }
  }

  lemma CancelledGrows(s: State, a: Action, t: State)
    requires Next(s, a, t)
    ensures s.cancelled <= t.cancelled
  {
  }

  /** Over a whole run: whoever lost its place without an answer had gone before. */
  lemma {:induction false} DroppedHadLeft(states: seq<State>, actions: seq<Action>, i: nat, c: Cid)
    requires Run(states, actions) && i < |states| && c in states[i].fates && states[i].fates[c].Pruned?
    ensures c in states[i].cancelled
  {
    if i > 0 {
      var s, a, t := states[i - 1], actions[i - 1], states[i];
      CancelledGrows(s, a, t);
      if c in s.fates && s.fates[c].Pruned? {
        DroppedHadLeft(states, actions, i - 1, c);
      } else {
        PrunedWereCancelled(s, a, t, c);
      }
    }
  }

  /** A parked task with a request is notified or about to be woken by the requester. */
  lemma RequestsAreNoticed(states: seq<State>, actions: seq<Action>, i: nat, w: Wid)
    requires Run(states, actions) && i < |states|
    requires w in states[i].works && states[i].works[w].task.Parked? && states[i].works[w].st.requested.Some?
    ensures states[i].works[w].notified
            || exists c :: c in states[i].callers && states[i].callers[c].phase == Accepted(w, false)
  {
    RunInv(states, actions, i);
  }

  /** The template a refusal turns down: a start without a subscription slot, or a render without a render slot. */
  function TurnedDown(s: State, a: Action): Option<Cid> {
    match a
    case StartRefused(w) => if w in s.works then s.works[w].st.requested else None
    case RefusedPermit(w) =>
      if w !in s.works then None
      else if s.works[w].task.AskingPermit? && s.works[w].task.first then s.works[w].template
      else s.works[w].st.requested
    case _ => None
  }

  /** Every refusal marks the template it turns down, and the first refusals always have one. */
  lemma RefusalMarks(s: State, a: Action, t: State)
    requires Next(s, a, t) && (a.StartRefused? || a.RefusedPermit?) && WorkInv(s.works[a.w])
    ensures TurnedDown(s, a).Some? ==> TurnedDown(s, a).value in t.stages && t.stages[TurnedDown(s, a).value].Rejected?
    ensures a.StartRefused? || s.works[a.w].task.first ==> TurnedDown(s, a).Some?
  {
  }

  /**
   Whatever a refusal turns down, before the first render or after, is never
   rendered: not before the refusal, not then and not later.
   */
  lemma RefusedNeverRendered(states: seq<State>, actions: seq<Action>, i: nat, j: nat, c: Cid)
    requires Run(states, actions) && i < |actions| && j < |states|
    requires TurnedDown(states[i], actions[i]) == Some(c)
    ensures c !in states[j].rendered
  {
    RunInv(states, actions, i);
    RefusalMarks(states[i], actions[i], states[i + 1]);
    var last := if j <= i then i + 1 else j;
    RejectedUnrendered(states, actions, i + 1, last, c);
    RenderedGrows(states, actions, j, last);
  }

  lemma RejectedUnrendered(states: seq<State>, actions: seq<Action>, i: nat, j: nat, c: Cid)
    requires Run(states, actions) && i <= j < |states|
    requires c in states[i].stages && states[i].stages[c].Rejected?
    ensures c !in states[j].rendered
  {
    RejectedStays(states, actions, i, j, c);
    RunInv(states, actions, j);
  }

  lemma RenderedStep(s: State, a: Action, t: State)
    requires Next(s, a, t)
    ensures s.rendered <= t.rendered
  {
  }

  lemma {:induction false} RenderedGrows(states: seq<State>, actions: seq<Action>, i: nat, j: nat)
    requires Run(states, actions) && i <= j < |states|
    ensures states[i].rendered <= states[j].rendered
  {
    if i < j {
      RenderedGrows(states, actions, i, j - 1);
      RenderedStep(states[j - 1], actions[j - 1], states[j]);
    }
  }

  /** A caller that went away without leaving a template: refused at a closed door, or sharing another's render. */
  predicate LeftNoTemplate(s: State, c: Cid) {
    c in s.callers && s.callers[c].phase.Settled? && c !in s.stages
  }

  lemma RenderLeavesNone(s: State, a: Action, t: State, c: Cid)
    requires IsRender(a) && Next(s, a, t) && WorkInv(s.works[a.w]) && StageInv(s.works, s.stages, s.rendered)
    requires LeftNoTemplate(s, c)
    ensures LeftNoTemplate(t, c)
  {
    RenderStages(s, a.w, a, t);
    RenderFrame(s, a.w, a, t);
    assert c !in s.stages.Keys;
  }

  lemma OtherLeavesNone(s: State, a: Action, t: State, c: Cid)
    requires !IsRender(a) && Next(s, a, t) && LeftNoTemplate(s, c)
    ensures LeftNoTemplate(t, c)
  {
  }

  lemma LeftNoTemplateNext(states: seq<State>, actions: seq<Action>, i: nat, c: Cid)
    requires Run(states, actions) && i < |actions| && LeftNoTemplate(states[i], c)
    ensures LeftNoTemplate(states[i + 1], c)
  {
    if IsRender(actions[i]) {
      RunInv(states, actions, i);
      RenderLeavesNone(states[i], actions[i], states[i + 1], c);
    } else {
      OtherLeavesNone(states[i], actions[i], states[i + 1], c);
    }
  }

  lemma {:induction false} LeftNoTemplateStays(states: seq<State>, actions: seq<Action>, i: nat, j: nat, c: Cid)
    requires Run(states, actions) && i <= j < |states| && LeftNoTemplate(states[i], c)
    ensures LeftNoTemplate(states[j], c)
  {
    if i < j {
      LeftNoTemplateStays(states, actions, i, j - 1, c);
      LeftNoTemplateNext(states, actions, j - 1, c);
    }
  }

  /** The template of a caller refused while its work was blocked is never rendered either. */
  lemma BlockedNeverRendered(states: seq<State>, actions: seq<Action>, i: nat, j: nat, c: Cid)
    requires Run(states, actions) && i <= j < |states| && LeftNoTemplate(states[i], c)
    ensures c !in states[j].rendered
  {
    LeftNoTemplateStays(states, actions, i, j, c);
    RunInv(states, actions, j);
  }

  lemma RejectedByTask(s: State, a: Action, t: State, c: Cid)
    requires IsRender(a) && Next(s, a, t) && WorkInv(s.works[a.w]) && StageInv(s.works, s.stages, s.rendered)
    requires c in s.stages && s.stages[c].Rejected?
    ensures c in t.stages && t.stages[c].Rejected?
  {
    if a.Start? || a.Granted? {
      assert s.works[a.w].st.requested != Some(c);
    }
  }

  lemma RejectedStep(s: State, a: Action, t: State, c: Cid)
    requires !IsRender(a) && Next(s, a, t) && CallerInv(s.callers, s.fates.Keys, s.stages.Keys)
    requires c in s.stages && s.stages[c].Rejected?
    ensures c in t.stages && t.stages[c].Rejected?
  {
    if a.TryJoin? {
      assert a.c !in s.stages.Keys;
    }
  }

  lemma RejectedNext(states: seq<State>, actions: seq<Action>, i: nat, c: Cid)
    requires Run(states, actions) && i < |actions|
    requires c in states[i].stages && states[i].stages[c].Rejected?
    ensures c in states[i + 1].stages && states[i + 1].stages[c].Rejected?
  {
    RunInv(states, actions, i);
    if IsRender(actions[i]) {
      RejectedByTask(states[i], actions[i], states[i + 1], c);
    } else {
      RejectedStep(states[i], actions[i], states[i + 1], c);
    }
  }

  lemma {:induction false} RejectedStays(states: seq<State>, actions: seq<Action>, i: nat, j: nat, c: Cid)
    requires Run(states, actions) && i <= j < |states|
    requires c in states[i].stages && states[i].stages[c].Rejected?
    ensures c in states[j].stages && states[j].stages[c].Rejected?
  {
    if i < j {
      RejectedStays(states, actions, i, j - 1, c);
      RejectedNext(states, actions, j - 1, c);
    }
  }

  /** The task's first step always finds the template it expects. */
  lemma FirstTemplateIsThere(states: seq<State>, actions: seq<Action>, i: nat, w: Wid)
    requires Run(states, actions) && i < |states|
    requires w in states[i].works && states[i].works[w].task.Spawned?
    ensures states[i].works[w].st.requested.Some? && states[i].works[w].st.terminal.None?
  {
    RunInv(states, actions, i);
    assert WorkInv(states[i].works[w]);
  }

  /** A task's step changes its own work and no caller. */
  lemma TaskFrame(s: State, a: Action, t: State)
    requires IsTask(a) && Next(s, a, t) && WorkInv(s.works[a.w])
    ensures a.w in t.works && t.works == s.works[a.w := t.works[a.w]]
    ensures t.callers == s.callers && t.cancelled == s.cancelled
    ensures !s.works[a.w].task.Unspawned? && !t.works[a.w].task.Unspawned?
  {
    if IsRender(a) {
      RenderFrame(s, a.w, a, t);
    } else {
      TriggerWork(s.works[a.w], a, t.works[a.w]);
    }
  }

  // ---- Which template is rendered ----

  /** Every template taken by a task is its first, still untried, or has been rendered. */
  ghost predicate TakenInv(works: map<Wid, Generation>, stages: map<Cid, Stage>, rendered: set<Cid>) {
    forall c :: c in stages && stages[c].Taken? ==> TakenBy(works, c, stages[c].work, rendered)
  }

  predicate TakenBy(works: map<Wid, Generation>, c: Cid, w: Wid, rendered: set<Cid>) {
    && w in works && !works[w].task.Unspawned? && !works[w].task.Spawned?
    && (Untried(works[w]) ==> works[w].template == Some(c))
    && (UnderWay(works[w].task) && !Untried(works[w]) ==> c in rendered)
  }

  lemma GrantKeepsTaken(s: State, w: Wid, a: Action, t: State)
    requires w in s.works && WorkInv(s.works[w]) && RenderNext(s, w, a, t) && (a.Start? || a.Granted?)
    requires TakenInv(s.works, s.stages, s.rendered)
    ensures TakenInv(t.works, t.stages, t.rendered)
  {
    forall c | c in t.stages && t.stages[c].Taken? ensures TakenBy(t.works, c, t.stages[c].work, t.rendered) {
      assert s.works[w].st.requested != Some(c) ==> TakenBy(s.works, c, s.stages[c].work, s.rendered);
    }
  }

  /** A step of a task that takes no template, as the templates taken see it. */
  lemma RenderMoves(s: State, w: Wid, a: Action, t: State)
    requires w in s.works && WorkInv(s.works[w]) && RenderNext(s, w, a, t) && !a.Start? && !a.Granted?
    ensures w in t.works && t.rendered == s.rendered && t.works[w].template == s.works[w].template
    ensures forall c :: c in t.stages && t.stages[c].Taken? ==> c in s.stages && s.stages[c] == t.stages[c]
    ensures UnderWay(t.works[w].task) ==> UnderWay(s.works[w].task) && Untried(t.works[w]) == Untried(s.works[w])
    ensures !t.works[w].task.Unspawned? && !t.works[w].task.Spawned? && !Untried(t.works[w])
  {
  }

  lemma TriggerMoves(me: Generation, a: Action, next: Generation)
    requires WorkInv(me) && TriggerMove(me, a, next)
    ensures UnderWay(next.task) ==> UnderWay(me.task) && Untried(next) == Untried(me)
    ensures next.template == me.template && (next.task.Spawned? ==> me.task.Spawned?) && !next.task.Unspawned?
  {
  }

  lemma OtherKeepsTaken(s: State, a: Action, t: State)
    requires IsTask(a) && !a.Start? && !a.Granted? && Next(s, a, t) && WorkInv(s.works[a.w])
    requires TakenInv(s.works, s.stages, s.rendered)
    ensures TakenInv(t.works, t.stages, t.rendered)
  {
    TaskFrame(s, a, t);
    if IsRender(a) {
      RenderMoves(s, a.w, a, t);
    } else {
      TriggerMoves(s.works[a.w], a, t.works[a.w]);
      assert t.stages == s.stages && t.rendered == s.rendered;
    }
    forall c | c in t.stages && t.stages[c].Taken? ensures TakenBy(t.works, c, t.stages[c].work, t.rendered) {
      assert TakenBy(s.works, c, s.stages[c].work, s.rendered);
    }
  }

  /** A caller's step leaves the templates taken, and the tasks under way, alone. */
  lemma CallerFrame(s: State, a: Action, t: State)
    requires !IsTask(a) && Next(s, a, t) && CreatorInv(s.callers, s.works)
    ensures t.rendered == s.rendered && s.works.Keys <= t.works.Keys
    ensures forall c :: c in t.stages && t.stages[c].Taken? ==> c in s.stages && s.stages[c] == t.stages[c]
    ensures forall w :: w in s.works ==>
      t.works[w].template == s.works[w].template
      && (t.works[w].task == s.works[w].task || s.works[w].task.Unspawned?)
  {
    match a
    case SpawnOrWake(c) =>
      if s.callers[c].phase.isNew {
        assert Creator(s.callers[c]);
      }
    case TryJoin(c) => JoinFrame(s, c, t);
    case _ =>
  }

  lemma JoinFrame(s: State, c: Cid, t: State)
    requires CallerNext(s, TryJoin(c), t)
    ensures t.rendered == s.rendered && s.works.Keys == t.works.Keys
    ensures forall d :: d in t.stages && t.stages[d].Taken? ==> d in s.stages && s.stages[d] == t.stages[d]
    ensures forall w :: w in s.works ==> t.works[w].template == s.works[w].template && t.works[w].task == s.works[w].task
  {
  }

  lemma CallerKeepsTaken(s: State, a: Action, t: State)
    requires !IsTask(a) && Next(s, a, t) && TakenInv(s.works, s.stages, s.rendered)
    requires CreatorInv(s.callers, s.works)
    ensures TakenInv(t.works, t.stages, t.rendered)
  {
    CallerFrame(s, a, t);
    forall c | c in t.stages && t.stages[c].Taken? ensures TakenBy(t.works, c, t.stages[c].work, t.rendered) {
      assert TakenBy(s.works, c, s.stages[c].work, s.rendered);
    }
  }

  lemma {:induction false} RunTaken(states: seq<State>, actions: seq<Action>, i: nat)
    requires Run(states, actions) && i < |states|
    ensures TakenInv(states[i].works, states[i].stages, states[i].rendered)
  {
    if i > 0 {
      var s, a, t := states[i - 1], actions[i - 1], states[i];
      RunTaken(states, actions, i - 1);
      RunInv(states, actions, i - 1);
      if a.Start? || a.Granted? {
        GrantKeepsTaken(s, a.w, a, t);
      } else if IsTask(a) {
        OtherKeepsTaken(s, a, t);
      } else {
        CallerKeepsTaken(s, a, t);
      }
    }
  }

  /** No template is lost: what a task has taken and is past its first slot with has been rendered. */
  lemma TakenIsRendered(states: seq<State>, actions: seq<Action>, i: nat, c: Cid, w: Wid)
    requires Run(states, actions) && i < |states|
    requires c in states[i].stages && states[i].stages[c] == Taken(w)
    ensures w in states[i].works
    ensures UnderWay(states[i].works[w].task) && !Untried(states[i].works[w]) ==> c in states[i].rendered
  {
    RunTaken(states, actions, i);
    assert TakenBy(states[i].works, c, w, states[i].rendered);
  }

  // ---- Requests ----

  /** A template supplied as a request stays the request of its work until a slot takes or refuses it. */
  ghost predicate RequestInv(works: map<Wid, Generation>, stages: map<Cid, Stage>) {
    forall c :: c in stages && stages[c].Requested? ==>
      stages[c].work in works && works[stages[c].work].st.requested == Some(c)
  }

  lemma TaskKeepsRequests(s: State, a: Action, t: State)
    requires IsTask(a) && Next(s, a, t) && WorkInv(s.works[a.w]) && RequestInv(s.works, s.stages)
    ensures RequestInv(t.works, t.stages)
  {
    if !IsRender(a) {
      TriggerWork(s.works[a.w], a, t.works[a.w]);
    }
  }

  lemma CallerKeepsRequests(s: State, a: Action, t: State)
    requires !IsTask(a) && Next(s, a, t) && RequestInv(s.works, s.stages)
    ensures RequestInv(t.works, t.stages)
  {
  }

  /** In every run: no request is overwritten or forgotten. */
  lemma {:induction false} RequestsStay(states: seq<State>, actions: seq<Action>, i: nat)
    requires Run(states, actions) && i < |states|
    ensures RequestInv(states[i].works, states[i].stages)
  {
    if i > 0 {
      RequestsStay(states, actions, i - 1);
      if IsTask(actions[i - 1]) {
        RunInv(states, actions, i - 1);
        TaskKeepsRequests(states[i - 1], actions[i - 1], states[i]);
      } else {
        CallerKeepsRequests(states[i - 1], actions[i - 1], states[i]);
      }
    }
  }

  /** A render is abandoned exactly if every caller waiting for it has gone; otherwise those who stay, stay. */
  lemma AbandonedIffAlone(states: seq<State>, actions: seq<Action>, i: nat, w: Wid)
    requires Run(states, actions) && i < |actions| && actions[i] == TryAbandon(w)
    ensures w in states[i].works && w in states[i + 1].works
    ensures
      var waiting, after := states[i].works[w].st.waiters, states[i + 1].works[w];
      && (after.task.Ending? <==> waiting <= states[i].cancelled)
      && (after.st.terminal.Some? <==> waiting <= states[i].cancelled)
      && after.st.waiters == waiting - states[i].cancelled
  {
    RunInv(states, actions, i);
    assert Next(states[i], actions[i], states[i + 1]);
    assert WorkInv(states[i].works[w]);
    var waiting := states[i].works[w].st.waiters;
    if !(waiting <= states[i].cancelled) {
      var c :| c in waiting && c !in states[i].cancelled;
      assert c in waiting - states[i].cancelled;
    }
  }

  /**
   The template a work should render at this point of a run, from what happened to it
   alone: the request it took with a render slot last, else the one it started with.
   */
  function Newest(states: seq<State>, actions: seq<Action>, i: nat, w: Wid): Option<Cid>
    requires i < |states| && |states| == |actions| + 1
  {
    if i == 0 then None
    else if (actions[i - 1] == Start(w) || actions[i - 1] == Granted(w))
            && w in states[i - 1].works && states[i - 1].works[w].st.requested.Some?
    then states[i - 1].works[w].st.requested
    else Newest(states, actions, i - 1, w)
  }

  /** Only a start and a grant change what a task holds. */
  lemma TemplateStep(s: State, a: Action, t: State, w: Wid)
    requires Next(s, a, t) && w in t.works && UnderWay(t.works[w].task)
    requires a != Start(w) && a != Granted(w) && (IsTask(a) ==> WorkInv(s.works[a.w]))
    ensures w in s.works && t.works[w].template == s.works[w].template && UnderWay(s.works[w].task)
  {
    if IsTask(a) {
      TaskFrame(s, a, t);
      if a.w == w {
        if IsRender(a) {
          RenderMoves(s, w, a, t);
        } else {
          TriggerMoves(s.works[w], a, t.works[w]);
        }
      }
    }
  }

  lemma {:induction false} HoldsNewest(states: seq<State>, actions: seq<Action>, i: nat, w: Wid)
    requires Run(states, actions) && i < |states| && w in states[i].works && UnderWay(states[i].works[w].task)
    ensures states[i].works[w].template == Newest(states, actions, i, w)
  {
    if i > 0 {
      var s, a, t := states[i - 1], actions[i - 1], states[i];
      assert Next(s, a, t);
      if a == Granted(w) {
        HoldsNewest(states, actions, i - 1, w);
      } else if a != Start(w) {
        RunInv(states, actions, i - 1);
        TemplateStep(s, a, t, w);
        HoldsNewest(states, actions, i - 1, w);
      }
    }
  }

  /**
   A granted slot renders exactly one template: the one requested, if there is a
   request, and otherwise the one rendered last or, at the first slot, started with.
   */
  lemma GrantRenders(states: seq<State>, actions: seq<Action>, i: nat, w: Wid) returns (c: Cid)
    requires Run(states, actions) && i < |actions| && actions[i] == Granted(w)
    ensures w in states[i].works
    ensures Some(c) == if states[i].works[w].st.requested.Some? then states[i].works[w].st.requested
                       else Newest(states, actions, i, w)
    ensures states[i + 1].rendered == states[i].rendered + {c}
    ensures w in states[i + 1].works && states[i + 1].works[w].task.Rendering? && states[i + 1].works[w].template == Some(c)
  {
    RunInv(states, actions, i);
    assert Next(states[i], actions[i], states[i + 1]);
    assert WorkInv(states[i].works[w]);
    HoldsNewest(states, actions, i, w);
    c := states[i + 1].works[w].template.value;
  }

  // ---- Subscription events ----

  /** A subscription event has been consumed and no slot has been granted since. */
  predicate EventPending(actions: seq<Action>, i: nat, w: Wid)
    requires i <= |actions|
  {
    if i == 0 then false
    else if actions[i - 1] == Event(w) then true
    else if actions[i - 1] == Granted(w) || actions[i - 1] == DropTask(w) then false
    else EventPending(actions, i - 1, w)
  }

  predicate KeepsEvent(task: Task) {
    task.AwaitingPermit? || (task.AskingPermit? && task.trigger.BySubscription?)
  }

  /** How one step of its own moves a task towards or away from an event. */
  predicate EventMoves(before: Task, a: Action, after: Task) {
    && (KeepsEvent(after) <==> a.Event? || (KeepsEvent(before) && !a.Granted? && !a.DropTask?))
    && (KeepsEvent(after) && after.AskingPermit? ==> !after.first)
  }

  lemma RenderEvent(s: State, w: Wid, a: Action, t: State)
    requires w in s.works && RenderNext(s, w, a, t)
    requires KeepsEvent(s.works[w].task) && s.works[w].task.AskingPermit? ==> !s.works[w].task.first
    ensures w in t.works && EventMoves(s.works[w].task, a, t.works[w].task)
  {
  }

  lemma TriggerEvent(me: Generation, a: Action, next: Generation)
    requires TriggerMove(me, a, next) && (KeepsEvent(me.task) && me.task.AskingPermit? ==> !me.task.first)
    ensures EventMoves(me.task, a, next.task)
  {
  }

  /** Steps of callers and of other tasks do not touch a task that is under way. */
  lemma ForeignEvent(s: State, a: Action, t: State, w: Wid)
    requires Next(s, a, t) && w in t.works && !(IsTask(a) && a.w == w)
    requires CreatorInv(s.callers, s.works) && (IsTask(a) ==> WorkInv(s.works[a.w]))
    ensures w in s.works ==> t.works[w].task == s.works[w].task || (s.works[w].task.Unspawned? && t.works[w].task.Spawned?)
    ensures w !in s.works ==> t.works[w].task.Unspawned?
  {
    if IsTask(a) {
      TaskFrame(s, a, t);
    } else if a.SpawnOrWake? && s.callers[a.c].phase.isNew {
      assert Creator(s.callers[a.c]);
    }
  }

  lemma EventStep(s: State, a: Action, t: State, w: Wid)
    requires Next(s, a, t) && w in t.works && CreatorInv(s.callers, s.works) && (IsTask(a) ==> WorkInv(s.works[a.w]))
    requires w in s.works && KeepsEvent(s.works[w].task) && s.works[w].task.AskingPermit? ==> !s.works[w].task.first
    ensures w in s.works && IsTask(a) && a.w == w ==> EventMoves(s.works[w].task, a, t.works[w].task)
    ensures w in s.works && !(IsTask(a) && a.w == w) ==>
      || t.works[w].task == s.works[w].task
      || (s.works[w].task.Unspawned? && t.works[w].task.Spawned?)
    ensures w !in s.works ==> t.works[w].task.Unspawned?
  {
    if IsTask(a) && a.w == w {
      if IsRender(a) {
        RenderEvent(s, w, a, t);
      } else {
        TriggerEvent(s.works[w], a, t.works[w]);
      }
    } else {
      ForeignEvent(s, a, t, w);
    }
  }

  /** Nothing has happened to a work that does not exist yet. */
  lemma {:induction false} NoEventYet(states: seq<State>, actions: seq<Action>, i: nat, w: Wid)
    requires Run(states, actions) && i < |states| && w !in states[i].works
    ensures !EventPending(actions, i, w)
  {
    if i > 0 {
      assert Next(states[i - 1], actions[i - 1], states[i]);
      NoEventYet(states, actions, i - 1, w);
    }
  }

  /**
   A consumed subscription event is kept until a slot is granted, through refusals and
   refused requests, unless the task is dropped; and a task waits for a slot, its
   admission closed, only with such an event in hand.
   */
  lemma {:induction false} EventsAreKept(states: seq<State>, actions: seq<Action>, i: nat, w: Wid)
    requires Run(states, actions) && i < |states| && w in states[i].works
    ensures KeepsEvent(states[i].works[w].task) <==> EventPending(actions, i, w)
    ensures KeepsEvent(states[i].works[w].task) && states[i].works[w].task.AskingPermit? ==> !states[i].works[w].task.first
  {
    if i > 0 {
      var s, a, t := states[i - 1], actions[i - 1], states[i];
      assert Next(s, a, t);
      if w in s.works {
        EventsAreKept(states, actions, i - 1, w);
      } else {
        NoEventYet(states, actions, i - 1, w);
      }
      RunInv(states, actions, i - 1);
      EventStep(s, a, t, w);
    }
  }

  // ---- What the callers are told ----

  lemma AnswerStep(s: State, a: Action, t: State, c: Cid)
    requires Next(s, a, t) && c in t.fates && t.fates[c].Answered? && !(c in s.fates && s.fates[c].Answered?)
    ensures IsTask(a) && a.w in s.works && c in s.works[a.w].st.waiters
    ensures AnswerGiven(s, a) == Some(t.fates[c].outcome)
  {
    if !IsTask(a) {
      CallersAnswerNobody(s, a, t, c);
    }
  }

  lemma CallersAnswerNobody(s: State, a: Action, t: State, c: Cid)
    requires !IsTask(a) && Next(s, a, t) && c in t.fates && t.fates[c].Answered?
    ensures c in s.fates && s.fates[c].Answered?
  {
  }

  lemma AnswerStays(s: State, a: Action, t: State, c: Cid)
    requires Next(s, a, t) && FateInv(s.works, s.fates, s.answers) && CallerInv(s.callers, s.fates.Keys, s.stages.Keys)
    requires c in s.fates && s.fates[c].Answered?
    ensures c in t.fates && t.fates[c] == s.fates[c]
  {
    assert forall w :: w in s.works ==> c !in s.works[w].st.waiters;
    if IsTask(a) {
      TaskFates(s, a, t, c);
    }
  }

  /** A task's step decides the fate of those who wait in its work and of nobody else. */
  lemma TaskFates(s: State, a: Action, t: State, c: Cid)
    requires IsTask(a) && Next(s, a, t) && c in s.fates && c !in s.works[a.w].st.waiters
    ensures c in t.fates && t.fates[c] == s.fates[c]
  {
  }

  /** A task comes to its end without a result only if it was dropped or ran out of subscriptions. */
  lemma {:induction false} EndedWithoutResult(states: seq<State>, actions: seq<Action>, i: nat, w: Wid) returns (k: nat)
    requires Run(states, actions) && i < |states| && w in states[i].works
    requires states[i].works[w].task.Ending? && states[i].works[w].st.terminal.None?
    ensures k < i && (actions[k] == DropTask(w) || actions[k] == StopChoosing(w))
  {
    var s, a, t := states[i - 1], actions[i - 1], states[i];
    RunInv(states, actions, i - 1);
    assert Next(s, a, t);
    assert IsTask(a) ==> WorkInv(s.works[a.w]);
    if IsTask(a) && a.w == w {
      EndingStep(s, a, t);
    } else {
      ForeignEvent(s, a, t, w);
      StaysActive(s, a, t, w);
    }
    if a == DropTask(w) || a == StopChoosing(w) {
      k := i - 1;
    } else {
      k := EndedWithoutResult(states, actions, i - 1, w);
    }
  }

  lemma EndingStep(s: State, a: Action, t: State)
    requires Next(s, a, t) && IsTask(a) && WorkInv(s.works[a.w])
    requires a.w in t.works && t.works[a.w].task.Ending? && t.works[a.w].st.terminal.None?
    ensures a.DropTask? || a.StopChoosing? || (a.Wake? && s.works[a.w].task.Ending? && s.works[a.w].st.terminal.None?)
  {
    assert !IsRender(a) ==> TriggerMove(s.works[a.w], a, t.works[a.w]);
  }

  lemma StaysActive(s: State, a: Action, t: State, w: Wid)
    requires Next(s, a, t) && w in s.works && w in t.works && !(IsTask(a) && a.w == w)
    requires IsTask(a) ==> WorkInv(s.works[a.w])
    ensures t.works[w].st.terminal == s.works[w].st.terminal
  {
    if IsTask(a) {
      TaskFrame(s, a, t);
    }
  }

  /**
   Everybody who was answered heard what became of the work it waited in, from the
   step that ended the wait: the result of a render, a refusal, or the end of a task
   that was dropped or ran out of subscriptions. In particular success is only
   reported by a render that succeeded, and a request that is there when the
   subscriptions end is still rendered.
   */
  lemma {:induction false} AnswersAreTrue(states: seq<State>, actions: seq<Action>, i: nat, c: Cid) returns (j: nat, w: Wid)
    requires Run(states, actions) && i < |states| && c in states[i].fates && states[i].fates[c].Answered?
    ensures j < i && w in states[j].works && c in states[j].works[w].st.waiters
    ensures
      var outcome := states[i].fates[c].outcome;
      || (actions[j].RenderEnded? && actions[j].w == w && actions[j].result == outcome)
      || (actions[j] == StartRefused(w) && outcome == Failed(NoSubscriptionSlot))
      || (actions[j] == RefusedPermit(w) && outcome == Failed(NoRenderSlot))
      || (actions[j] == DrainGuard(w) && outcome == Failed(EndedBeforeCompletion)
          && exists k :: 0 <= k < j && (actions[k] == DropTask(w) || actions[k] == StopChoosing(w)))
  {
    var s, a, t := states[i - 1], actions[i - 1], states[i];
    RunInv(states, actions, i - 1);
    if c in s.fates && s.fates[c].Answered? {
      AnswerStays(s, a, t, c);
      j, w := AnswersAreTrue(states, actions, i - 1, c);
    } else {
      AnswerStep(s, a, t, c);
      assert WorkInv(s.works[a.w]);
      j, w := i - 1, a.w;
      if a.DrainGuard? {
        var k := EndedWithoutResult(states, actions, j, w);
      }
    }
  }

  // ---- Who is turned away ----

  /**
   A caller at the lock is turned away exactly if the work is active and its admission
   closed, which on a task under way means that it has no render slot; a finished work
   sends it back to look again, and any other accepts it.
   */
  lemma TurnedAwayIffBlocked(states: seq<State>, actions: seq<Action>, i: nat, c: Cid)
    requires Run(states, actions) && i < |actions| && actions[i] == TryJoin(c)
    ensures c in states[i].callers && states[i].callers[c].phase.Found? && c !in states[i].fates
    ensures states[i].callers[c].phase.work in states[i].works && c in states[i + 1].callers
    ensures
      var me, after := states[i].works[states[i].callers[c].phase.work], states[i + 1].callers[c].phase;
      && (after.Settled? <==> me.st.terminal.None? && me.st.blocked)
      && (after.Looking? <==> me.st.terminal.Some?)
      && (c in states[i + 1].fates <==> me.st.terminal.None? && !me.st.blocked)
      && (UnderWay(me.task) ==> (me.st.blocked <==> me.task.Reopening? || me.task.AwaitingPermit?))
  {
    RunInv(states, actions, i);
    assert Next(states[i], actions[i], states[i + 1]);
    assert WorkInv(states[i].works[states[i].callers[c].phase.work]);
  }

  /** In every run: whoever has settled without being accepted was turned away. */
  lemma {:induction false} SettledOrTurnedAway(states: seq<State>, actions: seq<Action>, i: nat, c: Cid) returns (j: nat)
    requires Run(states, actions) && i < |states| && c in states[i].callers
    requires states[i].callers[c].phase.Settled? && c !in states[i].fates
    ensures j < i && actions[j] == TryJoin(c) && c in states[j].callers && states[j].callers[c].phase.Found?
    ensures
      var w := states[j].callers[c].phase.work;
      w in states[j].works && states[j].works[w].st.terminal.None? && states[j].works[w].st.blocked
  {
    var s, a, t := states[i - 1], actions[i - 1], states[i];
    AcceptedSenders(states, actions, i - 1);
    assert Next(s, a, t);
    if a == TryJoin(c) {
      TurnedAwayIffBlocked(states, actions, i - 1, c);
      j := i - 1;
    } else {
      SettledBefore(s, a, t, c);
      j := SettledOrTurnedAway(states, actions, i - 1, c);
    }
  }

  predicate SendersPlaced(callers: map<Cid, Caller>, senders: set<Cid>) {
    forall c :: c in callers && callers[c].phase.Accepted? ==> c in senders
  }

  lemma {:induction false} AcceptedSenders(states: seq<State>, actions: seq<Action>, i: nat)
    requires Run(states, actions) && i < |states|
    ensures SendersPlaced(states[i].callers, states[i].fates.Keys)
  {
    if i > 0 {
      AcceptedSenders(states, actions, i - 1);
      SendersStay(states[i - 1], actions[i - 1], states[i]);
    }
  }

  lemma TasksLeaveCallers(s: State, a: Action, t: State)
    requires IsTask(a) && Next(s, a, t)
    ensures t.callers == s.callers && s.fates.Keys <= t.fates.Keys
  {
  }

  lemma CallersKeepSenders(s: State, a: Action, t: State)
    requires !IsTask(a) && Next(s, a, t)
    ensures s.fates.Keys <= t.fates.Keys
  {
  }

  lemma SendersStay(s: State, a: Action, t: State)
    requires Next(s, a, t) && SendersPlaced(s.callers, s.fates.Keys)
    ensures s.fates.Keys <= t.fates.Keys && SendersPlaced(t.callers, t.fates.Keys)
  {
    if IsTask(a) {
      TasksLeaveCallers(s, a, t);
    } else {
      CallersKeepSenders(s, a, t);
    }
  }

  lemma SettledBefore(s: State, a: Action, t: State, c: Cid)
    requires Next(s, a, t) && SendersPlaced(s.callers, s.fates.Keys) && a != TryJoin(c)
    requires c in t.callers && t.callers[c].phase.Settled? && c !in t.fates
    ensures c in s.callers && s.callers[c].phase.Settled? && c !in s.fates
  {
    SendersStay(s, a, t);
  }
}
