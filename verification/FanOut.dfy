/** fanout.go: ExecuteFanOut starts one worker per task, lets a bounded number of them past a semaphore, and joins their result
    slots under a policy. Each worker delegates its task from the shared parent, so what one worker records and charges
    decides what another finds. Workers interleave freely, between the steps of a delegation too; the run may time out
    and single tasks may be cancelled at any point. */
module FanOut {
  import opened Options
  import opened Budget
  import opened Sets
  import D = Delegation

  /** The concurrency bound of a request over `total` tasks: at least one worker as soon as there is a task, and never more
      workers than tasks. */
  function Concurrency(requested: int, parent: Option<Work>, total: nat): (c: nat)
    ensures c <= total && (0 < total ==> 1 <= c)
  {
    var c := if requested > 0 then requested
             else if parent.Some? && parent.value.budget.maxConcurrency > 0 then parent.value.budget.maxConcurrency
             else DEFAULT_MAX_CONCURRENCY;
    if c > total then total else c
  }

  // ---------- tasks and their slots ----------

  datatype TaskState = Submitted | Completed | Failed | Canceled

  datatype Reason = NoReason | NotDelegated | ExecutorFailed | NotScheduled | Interrupted

  datatype Slot = Slot(state: TaskState, tokens: int, units: int, reason: Reason)

  const BLANK := Slot(Submitted, 0, 0, NoReason)
  const NOT_DELEGATED := Slot(Failed, 0, 0, NotDelegated)
  const NOT_SCHEDULED := Slot(Canceled, 0, 0, NotScheduled)
  const INTERRUPTED := Slot(Canceled, 0, 0, Interrupted)

  /** What a task's executor does when it is left alone: it fails, or it succeeds and reports usage (None when it returns no
      output at all). */
  datatype Script = Fails | Succeeds(usage: Option<(int, int)>)

  /** `id` is the given task id, or the one drawn when none is given. */
  datatype Task = Task(id: string, budget: Option<WorkBudget>, tokens: int, units: int, script: Script)

  /** A task whose executor succeeds without output is completed in its slot, but nothing completes its record. */
  predicate Silent(t: Task) { t.script == Succeeds(None) }

  /** The slot a task's executor decides. */
  function Decided(t: Task): Slot {
    match t.script
    case Fails => Slot(Failed, 0, 0, ExecutorFailed)
    case Succeeds(None) => Slot(Completed, 0, 0, NoReason)
    case Succeeds(Some(u)) => Slot(Completed, u.0, u.1, NoReason)
  }

  /** A fan-out: its parent, its tasks, the concurrency it requests, and the store it starts from. */
  datatype Plan = Plan(parentID: string, tasks: seq<Task>, requested: int, store: D.Store)

  function ParentRecord(pl: Plan): Option<Work> {
    if pl.parentID != "" && pl.parentID in pl.store then Some(pl.store[pl.parentID]) else None
  }

  /** The size of the semaphore. */
  function Cap(pl: Plan): (c: nat)
    ensures c <= |pl.tasks| && (pl.tasks != [] ==> 1 <= c)
  {
    Concurrency(pl.requested, ParentRecord(pl), |pl.tasks|)
  }

  // ---------- workers ----------

  /** A worker holds the semaphore from Holding to Executing. Delegating takes it through three steps: it has inspected the
      parent and prepared its record, it has recorded it, and it has charged the parent. */
  datatype Phase = Waiting | Holding | Inspected(work: Work) | Recorded | Executing | Finished

  predicate Holds(p: Phase) { p.Holding? || p.Inspected? || p.Recorded? || p.Executing? }
  predicate Running(p: Phase) { p.Recorded? || p.Executing? }
  predicate Uncharged(p: Phase) { p.Waiting? || p.Holding? || p.Inspected? || p.Recorded? }

  datatype State = State(store: D.Store, phases: seq<Phase>, slots: seq<Slot>, sem: int, stopped: bool)

  /** `marked` says whether the update of the child's state at the end, where there is one, takes effect. */
  datatype Action = Stop | Acquire(i: nat) | Abandon(i: nat) | Inspect(i: nat) | Record(i: nat) | Charge(i: nat) |
                    Finish(i: nat, cancelled: bool, marked: bool)

  predicate Shaped(pl: Plan, s: State) { |s.phases| == |s.slots| == |pl.tasks| }

  predicate Enabled(pl: Plan, s: State, a: Action)
    requires Shaped(pl, s)
  {
    match a
    case Stop => true
    case Acquire(i) => i < |pl.tasks| && s.phases[i].Waiting? && s.sem < Cap(pl)
    case Abandon(i) => i < |pl.tasks| && s.phases[i].Waiting? && s.stopped
    case Inspect(i) => i < |pl.tasks| && s.phases[i].Holding?
    case Record(i) => i < |pl.tasks| && s.phases[i].Inspected?
    case Charge(i) => i < |pl.tasks| && s.phases[i].Recorded?
    case Finish(i, cancelled, _) => i < |pl.tasks| && s.phases[i].Executing? && (s.stopped ==> cancelled)
  }

  /** The children that count against the concurrency limit. */
  ghost function Active(s: D.Store, p: string): set<string> {
    set w | w in s && s[w].parent == Some(p) && !s[w].terminal
  }

  ghost function RequestFor(pl: Plan, s: D.Store, i: nat): D.Request
    requires i < |pl.tasks|
  {
    var t := pl.tasks[i];
    D.Request(pl.parentID, t.id, t.budget, t.tokens, t.units, false, "", Some(|Active(s, pl.parentID)|), false)
  }

  function Leave(s: State, i: nat, slot: Slot, release: int): State
    requires i < |s.phases| == |s.slots|
  {
    s.(phases := s.phases[i := Finished], slots := s.slots[i := slot], sem := s.sem - release)
  }

  function Charged(pl: Plan, s: D.Store, t: Task): D.Store {
    if pl.parentID == "" || pl.parentID !in s then s
    else
      var p := s[pl.parentID];
      s[pl.parentID := p.(usedChildren := p.usedChildren + 1, usedTokens := p.usedTokens + t.tokens,
                          usedWorkUnits := p.usedWorkUnits + t.units)]
  }

  /** Whether a worker that leaves updates its child's state: not when a task that was not cancelled has no output. */
  predicate Closes(t: Task, cancelled: bool, marked: bool) { marked && (cancelled || !Silent(t)) }

  function Closed(s: D.Store, id: string, slot: Slot, marked: bool): D.Store {
    if id !in s then s
    else
      var w := s[id];
      s[id := w.(terminal := w.terminal || marked, usedTokens := w.usedTokens + slot.tokens,
                 usedWorkUnits := w.usedWorkUnits + slot.units)]
  }

  /** One step; an action that is not enabled does nothing. Once the run is stopped its context is cancelled: reading the
      parent and recording the child fail then, and charging the parent has no effect. */
  ghost function Step(pl: Plan, s: State, a: Action): (s': State)
    requires Shaped(pl, s)
    ensures Shaped(pl, s')
  {
    if !Enabled(pl, s, a) then s
    else match a
      case Stop => s.(stopped := true)
      case Acquire(i) => s.(phases := s.phases[i := Holding], sem := s.sem + 1)
      case Abandon(i) => Leave(s, i, NOT_SCHEDULED, 0)
      case Inspect(i) =>
        var req := RequestFor(pl, s.store, i);
        if (s.stopped && pl.parentID != "") || D.Inspection(s.store, req).Some? then Leave(s, i, NOT_DELEGATED, 1)
        else s.(phases := s.phases[i := Inspected(D.NewWork(s.store, req))])
      case Record(i) =>
        var id := pl.tasks[i].id;
        if s.stopped || id in s.store then Leave(s, i, NOT_DELEGATED, 1)
        else s.(phases := s.phases[i := Recorded], store := s.store[id := s.phases[i].work])
      case Charge(i) =>
        s.(phases := s.phases[i := Executing], store := if s.stopped then s.store else Charged(pl, s.store, pl.tasks[i]))
      case Finish(i, cancelled, marked) =>
        var slot := if cancelled then INTERRUPTED else Decided(pl.tasks[i]);
        Leave(s, i, slot, 1).(store := Closed(s.store, pl.tasks[i].id, slot, Closes(pl.tasks[i], cancelled, marked)))
  }

  function Start(pl: Plan): State {
    State(pl.store, seq(|pl.tasks|, _ => Waiting), seq(|pl.tasks|, _ => BLANK), 0, false)
  }

  ghost function Run(pl: Plan, actions: seq<Action>): (s: State)
    ensures Shaped(pl, s)
  {
    if actions == [] then Start(pl) else Step(pl, Run(pl, actions[..|actions| - 1]), actions[|actions| - 1])
  }

  lemma RunSnoc(pl: Plan, actions: seq<Action>, a: Action)
    ensures Run(pl, actions + [a]) == Step(pl, Run(pl, actions), a)
  {
    assert (actions + [a])[..|actions|] == actions;
  }

  /** Left to itself, a worker's three delegation steps are one call of DelegateTask. */
  lemma AloneIsDelegateTask(pl: Plan, s: State, i: nat)
    requires Shaped(pl, s) && i < |pl.tasks| && s.phases[i].Holding? && !s.stopped
    ensures var req := RequestFor(pl, s.store, i);
            Step(pl, Step(pl, Step(pl, s, Inspect(i)), Record(i)), Charge(i)) ==
            if D.Outcome(s.store, req).Created? then s.(store := D.Next(s.store, req), phases := s.phases[i := Executing])
            else Leave(s, i, NOT_DELEGATED, 1)
  {
    hide D.EdgeAccepted, D.Refusal, AllocateChildBudget, EffectiveBudget, Active;
  }

  // ---------- sums over the workers ----------

  function Total(tasks: seq<Task>, phases: seq<Phase>, g: (Task, Phase) -> nat): nat
    requires |tasks| == |phases|
  {
    if tasks == [] then 0
    else
      Total(tasks[..|tasks| - 1], phases[..|phases| - 1], g) + g(tasks[|tasks| - 1], phases[|phases| - 1])
  }

  lemma {:induction false} TotalUpdate(tasks: seq<Task>, phases: seq<Phase>, i: nat, p: Phase, g: (Task, Phase) -> nat)
    requires |tasks| == |phases| && i < |tasks|
    ensures Total(tasks, phases[i := p], g) == Total(tasks, phases, g) - g(tasks[i], phases[i]) + g(tasks[i], p)
    ensures g(tasks[i], phases[i]) <= Total(tasks, phases, g)
  {
    var n := |tasks| - 1;
    if i == n {
      assert phases[i := p][..n] == phases[..n];
    } else {
      assert phases[i := p][..n] == phases[..n][i := p];
      TotalUpdate(tasks[..n], phases[..n], i, p, g);
    }
  }

  lemma {:induction false} TotalAtMost(tasks: seq<Task>, phases: seq<Phase>, g: (Task, Phase) -> nat, h: (Task, Phase) -> nat)
    requires |tasks| == |phases| && forall i :: 0 <= i < |tasks| ==> g(tasks[i], phases[i]) <= h(tasks[i], phases[i])
    ensures Total(tasks, phases, g) <= Total(tasks, phases, h)
  {
    if tasks != [] {
      TotalAtMost(tasks[..|tasks| - 1], phases[..|tasks| - 1], g, h);
    }
  }

  lemma {:induction false} TotalSum(tasks: seq<Task>, phases: seq<Phase>, f: (Task, Phase) -> nat, g: (Task, Phase) -> nat,
                                    h: (Task, Phase) -> nat)
    requires |tasks| == |phases|
    requires forall i :: 0 <= i < |tasks| ==> f(tasks[i], phases[i]) <= g(tasks[i], phases[i]) + h(tasks[i], phases[i])
    ensures Total(tasks, phases, f) <= Total(tasks, phases, g) + Total(tasks, phases, h)
  {
    if tasks != [] {
      TotalSum(tasks[..|tasks| - 1], phases[..|tasks| - 1], f, g, h);
    }
  }

  lemma {:induction false} TotalZero(tasks: seq<Task>, phases: seq<Phase>, g: (Task, Phase) -> nat)
    requires |tasks| == |phases| && forall i :: 0 <= i < |tasks| ==> g(tasks[i], phases[i]) == 0
    ensures Total(tasks, phases, g) == 0
  {
    if tasks != [] {
      TotalZero(tasks[..|tasks| - 1], phases[..|tasks| - 1], g);
    }
  }

  function HoldsOne(t: Task, p: Phase): nat { if Holds(p) then 1 else 0 }
  function RunsOne(t: Task, p: Phase): nat { if Running(p) then 1 else 0 }
  function OwesOne(t: Task, p: Phase): nat { if Uncharged(p) then 1 else 0 }

  function Ask(t: Task, r: Resource): int { match r case Tokens => t.tokens case Units => t.units }
  function Wants(t: Task, r: Resource): nat { if Ask(t, r) > 0 then Ask(t, r) else 0 }

  function Owes(r: Resource): (Task, Phase) -> nat { (t: Task, p: Phase) => if Uncharged(p) then Wants(t, r) else 0 }

  /** All that the tasks ask for, a request below zero counting as nothing. */
  function Wanted(tasks: seq<Task>, r: Resource): nat {
    if tasks == [] then 0 else Wanted(tasks[..|tasks| - 1], r) + Wants(tasks[|tasks| - 1], r)
  }

  function AllWaiting(n: nat): seq<Phase> { seq(n, _ => Waiting) }

  lemma {:induction false} StartOwes(tasks: seq<Task>, r: Resource)
    ensures Total(tasks, AllWaiting(|tasks|), Owes(r)) == Wanted(tasks, r)
    ensures Total(tasks, AllWaiting(|tasks|), OwesOne) == |tasks|
    ensures Total(tasks, AllWaiting(|tasks|), HoldsOne) == 0
  {
    if tasks != [] {
      assert AllWaiting(|tasks|)[..|tasks| - 1] == AllWaiting(|tasks| - 1);
      StartOwes(tasks[..|tasks| - 1], r);
    }
  }

  // ---------- what every interleaving keeps ----------

  predicate SlotOk(t: Task, p: Phase, slot: Slot) {
    if p.Finished? then slot in {NOT_DELEGATED, NOT_SCHEDULED, INTERRUPTED, Decided(t)} else slot == BLANK
  }

  ghost predicate SlotsOk(pl: Plan, s: State)
    requires Shaped(pl, s)
  {
    forall i :: 0 <= i < |pl.tasks| ==> SlotOk(pl.tasks[i], s.phases[i], s.slots[i])
  }

  predicate IsParent(pl: Plan, w: string) { pl.parentID != "" && w == pl.parentID }

  function ParentLink(pl: Plan): Option<string> { if pl.parentID == "" then None else Some(pl.parentID) }

  /** Nothing of the store is lost or changed but the parent's counters, and what is added are children of the parent. */
  ghost predicate StoreOk(pl: Plan, s: D.Store) {
    && D.SameParents(pl.store, s)
    && (forall w :: w in pl.store && !IsParent(pl, w) ==> s[w] == pl.store[w])
    && (forall w :: w in pl.store && IsParent(pl, w) ==>
          s[w] == pl.store[w].(usedChildren := s[w].usedChildren, usedTokens := s[w].usedTokens,
                               usedWorkUnits := s[w].usedWorkUnits))
    && (forall w :: w in s && w !in pl.store ==> s[w].parent == ParentLink(pl))
  }

  ghost predicate RecordedBy(pl: Plan, s: State, w: string)
    requires Shaped(pl, s)
  {
    exists i :: 0 <= i < |pl.tasks| && pl.tasks[i].id == w && (Running(s.phases[i]) || s.phases[i].Finished?)
  }

  /** An open record that nothing has been charged to. */
  predicate Blank(w: Work) { !w.terminal && w.usedTokens == w.usedWorkUnits == 0 }

  /** Each worker that has recorded its child finds it in the store, and everything added was recorded by a worker. */
  ghost predicate RecordsOk(pl: Plan, s: State)
    requires Shaped(pl, s)
  {
    && (forall i :: 0 <= i < |pl.tasks| && Running(s.phases[i]) ==> pl.tasks[i].id in s.store && pl.tasks[i].id !in pl.store)
    && (forall i :: 0 <= i < |pl.tasks| && s.phases[i].Inspected? ==>
          s.phases[i].work.parent == ParentLink(pl) && Blank(s.phases[i].work))
    && (forall w :: w in s.store && w !in pl.store ==> RecordedBy(pl, s, w))
  }

  /** The parent is never charged for more than what the tasks asked: what is used and what is still owed stays within
      what was used before and all that is wanted. */
  ghost predicate ChargesOk(pl: Plan, s: State)
    requires Shaped(pl, s)
  {
    forall w :: w in pl.store && w in s.store && IsParent(pl, w) ==>
      && s.store[w].usedChildren + Total(pl.tasks, s.phases, OwesOne) <= pl.store[w].usedChildren + |pl.tasks|
      && forall r :: Used(s.store[w], r) + Total(pl.tasks, s.phases, Owes(r)) <= Used(pl.store[w], r) + Wanted(pl.tasks, r)
  }

  ghost predicate Inv(pl: Plan, s: State) {
    && Shaped(pl, s) && s.sem == Total(pl.tasks, s.phases, HoldsOne) <= Cap(pl)
    && SlotsOk(pl, s) && StoreOk(pl, s.store) && RecordsOk(pl, s) && ChargesOk(pl, s)
  }

  /** What a step makes of worker i's phase. */
  lemma StepPhases(pl: Plan, s: State, a: Action)
    requires Shaped(pl, s) && Enabled(pl, s, a) && !a.Stop?
    ensures a.i < |pl.tasks| && Step(pl, s, a).phases == s.phases[a.i := Step(pl, s, a).phases[a.i]]
    ensures Step(pl, s, a).slots == s.slots[a.i := Step(pl, s, a).slots[a.i]]
    ensures var p, p' := s.phases[a.i], Step(pl, s, a).phases[a.i];
            && Step(pl, s, a).sem == s.sem - (if Holds(p) then 1 else 0) + (if Holds(p') then 1 else 0)
            && (a.Charge? <==> Uncharged(p) && p'.Executing?) && (p'.Executing? ==> a.Charge?)
            && (p'.Inspected? ==> a.Inspect?) && (p'.Recorded? ==> a.Record?) && (a.Finish? ==> p'.Finished?) && !p.Finished?
  {
    hide D.Inspection, D.NewWork, Active, Charged, Closed;
  }

  lemma SemInv(pl: Plan, s: State, a: Action)
    requires Shaped(pl, s) && s.sem == Total(pl.tasks, s.phases, HoldsOne) <= Cap(pl)
    ensures Step(pl, s, a).sem == Total(pl.tasks, Step(pl, s, a).phases, HoldsOne) <= Cap(pl)
  {
    if Enabled(pl, s, a) && !a.Stop? {
      StepPhases(pl, s, a);
      TotalUpdate(pl.tasks, s.phases, a.i, Step(pl, s, a).phases[a.i], HoldsOne);
      hide Total, D.Inspection, D.NewWork, Charged, Closed;
    }
  }

  lemma SlotsInv(pl: Plan, s: State, a: Action)
    requires Shaped(pl, s) && SlotsOk(pl, s)
    ensures SlotsOk(pl, Step(pl, s, a))
  {
    hide D.Inspection, D.NewWork, Charged, Closed, Decided, Active;
  }

  lemma AddedStoreOk(pl: Plan, s: D.Store, id: string, w: Work)
    requires StoreOk(pl, s) && id !in s && w.parent == ParentLink(pl)
    ensures StoreOk(pl, s[id := w])
  {
  }

  lemma ChargedStoreOk(pl: Plan, s: D.Store, t: Task)
    requires StoreOk(pl, s)
    ensures StoreOk(pl, Charged(pl, s, t))
  {
  }

  lemma ClosedStoreOk(pl: Plan, s: D.Store, id: string, slot: Slot, marked: bool)
    requires StoreOk(pl, s) && id !in pl.store
    ensures StoreOk(pl, Closed(s, id, slot, marked))
  {
  }

  lemma StoreInv(pl: Plan, s: State, a: Action)
    requires Shaped(pl, s) && StoreOk(pl, s.store) && RecordsOk(pl, s)
    ensures StoreOk(pl, Step(pl, s, a).store)
  {
    hide D.Inspection, D.NewWork, Active, RecordedBy, Decided, StoreOk, Charged, Closed;
    if Enabled(pl, s, a) {
      match a {
        case Record(i) =>
          if pl.tasks[i].id !in s.store { AddedStoreOk(pl, s.store, pl.tasks[i].id, s.phases[i].work); }
        case Charge(i) => ChargedStoreOk(pl, s.store, pl.tasks[i]);
        case Finish(i, cancelled, marked) =>
          ClosedStoreOk(pl, s.store, pl.tasks[i].id, if cancelled then INTERRUPTED else Decided(pl.tasks[i]),
                        Closes(pl.tasks[i], cancelled, marked));
        case _ =>
      }
    }
  }

  /** What a step adds to the store: at most the child of the worker that records it. */
  lemma StepKeys(pl: Plan, s: State, a: Action)
    requires Shaped(pl, s)
    ensures forall w :: w in s.store ==> w in Step(pl, s, a).store
    ensures forall w :: w in Step(pl, s, a).store && w !in s.store ==>
              a.Record? && Enabled(pl, s, a) && w == pl.tasks[a.i].id && Step(pl, s, a).phases[a.i] == Recorded
    ensures a.Record? && Enabled(pl, s, a) && Step(pl, s, a).phases[a.i] == Recorded ==>
              pl.tasks[a.i].id !in s.store && pl.tasks[a.i].id in Step(pl, s, a).store
  {
    hide D.Inspection, D.NewWork, Active, Decided;
  }

  lemma RunningInv(pl: Plan, s: State, a: Action, i: nat)
    requires Shaped(pl, s) && RecordsOk(pl, s) && StoreOk(pl, s.store) && i < |pl.tasks| && Running(Step(pl, s, a).phases[i])
    ensures pl.tasks[i].id in Step(pl, s, a).store && pl.tasks[i].id !in pl.store
  {
    StepKeys(pl, s, a);
    if Enabled(pl, s, a) && !a.Stop? { StepPhases(pl, s, a); }
    hide D.Inspection, D.NewWork, Active, Decided, RecordedBy, Step;
  }

  lemma InspectedInv(pl: Plan, s: State, a: Action, i: nat)
    requires Shaped(pl, s) && RecordsOk(pl, s) && i < |pl.tasks| && Step(pl, s, a).phases[i].Inspected?
    ensures Step(pl, s, a).phases[i].work.parent == ParentLink(pl) && Blank(Step(pl, s, a).phases[i].work)
  {
    hide D.Inspection, Active, Decided, AllocateChildBudget, EffectiveBudget, RecordedBy, Charged, Closed;
  }

  lemma RecordedInv(pl: Plan, s: State, a: Action, w: string)
    requires Shaped(pl, s) && RecordsOk(pl, s) && w in Step(pl, s, a).store && w !in pl.store
    ensures RecordedBy(pl, Step(pl, s, a), w)
  {
    var s' := Step(pl, s, a);
    StepKeys(pl, s, a);
    if Enabled(pl, s, a) && !a.Stop? { StepPhases(pl, s, a); }
    hide Step;
    if w in s.store {
      assert RecordedBy(pl, s, w);
      var i :| 0 <= i < |pl.tasks| && pl.tasks[i].id == w && (Running(s.phases[i]) || s.phases[i].Finished?);
      StaysRecorded(pl, s, a, i);
    } else {
      assert Running(s'.phases[a.i]);
    }
  }

  lemma StaysRecorded(pl: Plan, s: State, a: Action, i: nat)
    requires Shaped(pl, s) && i < |pl.tasks| && (Running(s.phases[i]) || s.phases[i].Finished?)
    ensures Running(Step(pl, s, a).phases[i]) || Step(pl, s, a).phases[i].Finished?
    ensures s.phases[i].Finished? ==> Step(pl, s, a).phases[i].Finished? && Step(pl, s, a).slots[i] == s.slots[i]
  {
    hide D.Inspection, D.NewWork, Active, Decided, Charged, Closed;
  }

  lemma RecordsInv(pl: Plan, s: State, a: Action)
    requires Shaped(pl, s) && RecordsOk(pl, s) && StoreOk(pl, s.store)
    ensures RecordsOk(pl, Step(pl, s, a))
  {
    hide Step, StoreOk, RecordedBy;
    var s' := Step(pl, s, a);
    forall i | 0 <= i < |pl.tasks| && Running(s'.phases[i]) ensures pl.tasks[i].id in s'.store && pl.tasks[i].id !in pl.store {
      RunningInv(pl, s, a, i);
    }
    forall i | 0 <= i < |pl.tasks| && s'.phases[i].Inspected?
      ensures s'.phases[i].work.parent == ParentLink(pl) && Blank(s'.phases[i].work)
    {
      InspectedInv(pl, s, a, i);
    }
    forall w | w in s'.store && w !in pl.store ensures RecordedBy(pl, s', w) { RecordedInv(pl, s, a, w); }
  }

  /** What a step makes of the parent. */
  lemma StepParent(pl: Plan, s: State, a: Action)
    requires Shaped(pl, s) && RecordsOk(pl, s) && pl.parentID != "" && pl.parentID in pl.store && pl.parentID in s.store
    ensures pl.parentID in Step(pl, s, a).store
    ensures Step(pl, s, a).store[pl.parentID] ==
            if a.Charge? && Enabled(pl, s, a) && !s.stopped then Charged(pl, s.store, pl.tasks[a.i])[pl.parentID]
            else s.store[pl.parentID]
  {
    hide D.Inspection, D.NewWork, Active, Decided, RecordedBy;
  }

  /** A step that charges for a worker takes as much off what is owed. */
  lemma ChargeBalances(pl: Plan, s: State, a: Action, r: Resource)
    requires Shaped(pl, s) && RecordsOk(pl, s) && pl.parentID != "" && pl.parentID in pl.store && pl.parentID in s.store
    ensures var s' := Step(pl, s, a);
            && pl.parentID in s'.store
            && s'.store[pl.parentID].usedChildren + Total(pl.tasks, s'.phases, OwesOne) <=
               s.store[pl.parentID].usedChildren + Total(pl.tasks, s.phases, OwesOne)
            && Used(s'.store[pl.parentID], r) + Total(pl.tasks, s'.phases, Owes(r)) <=
               Used(s.store[pl.parentID], r) + Total(pl.tasks, s.phases, Owes(r))
  {
    hide RecordsOk, Total;
    StepParent(pl, s, a);
    if Enabled(pl, s, a) && !a.Stop? {
      StepPhases(pl, s, a);
      hide Step;
      TotalUpdate(pl.tasks, s.phases, a.i, Step(pl, s, a).phases[a.i], OwesOne);
      TotalUpdate(pl.tasks, s.phases, a.i, Step(pl, s, a).phases[a.i], Owes(r));
    }
  }

  lemma ChargesInv(pl: Plan, s: State, a: Action)
    requires Shaped(pl, s) && RecordsOk(pl, s) && ChargesOk(pl, s) && StoreOk(pl, s.store)
    ensures ChargesOk(pl, Step(pl, s, a))
  {
    hide Step, Total, RecordsOk, Used, Wanted;
    if pl.parentID != "" && pl.parentID in pl.store {
      ChargeBalances(pl, s, a, Tokens);
      forall r: Resource
        ensures Used(Step(pl, s, a).store[pl.parentID], r) + Total(pl.tasks, Step(pl, s, a).phases, Owes(r)) <=
                Used(pl.store[pl.parentID], r) + Wanted(pl.tasks, r)
      {
        ChargeBalances(pl, s, a, r);
      }
    }
  }

  /** In every interleaving, stopped or not: the semaphore counts the workers past it and never exceeds its bound; a slot
      stays blank until its worker leaves and then holds its own task's outcome, a refused delegation or a cancellation;
      the store only gains children of the parent; and the parent is charged for no more than was asked. */
  lemma {:induction false} EveryInterleaving(pl: Plan, actions: seq<Action>)
    ensures Inv(pl, Run(pl, actions))
  {
    if actions == [] {
      StartInv(pl);
    } else {
      hide Step, SlotsOk, StoreOk, RecordsOk, ChargesOk;
      var before, a := actions[..|actions| - 1], actions[|actions| - 1];
      EveryInterleaving(pl, before);
      var s := Run(pl, before);
      SemInv(pl, s, a);
      SlotsInv(pl, s, a);
      StoreInv(pl, s, a);
      RecordsInv(pl, s, a);
      ChargesInv(pl, s, a);
    }
  }

  lemma StartInv(pl: Plan)
    ensures Inv(pl, Start(pl))
  {
    StartOwes(pl.tasks, Tokens);
    StartOwes(pl.tasks, Units);
    assert Start(pl).phases == AllWaiting(|pl.tasks|);
    forall r: Resource ensures Total(pl.tasks, AllWaiting(|pl.tasks|), Owes(r)) == Wanted(pl.tasks, r) {
      StartOwes(pl.tasks, r);
    }
  }

  // ---------- no deadlock, no endless run ----------

  /** What happens when nothing times out, no task is cancelled and every update takes effect. */
  predicate Undisturbed(a: Action) { !a.Stop? && !a.Abandon? && (a.Finish? ==> !a.cancelled && a.marked) }

  ghost predicate Quiet(actions: seq<Action>) { forall k :: 0 <= k < |actions| ==> Undisturbed(actions[k]) }

  /** Worker steps still to come, at most. */
  function StepsLeft(t: Task, p: Phase): nat {
    match p
    case Waiting => 5
    case Holding => 4
    case Inspected(_) => 3
    case Recorded => 2
    case Executing => 1
    case Finished => 0
  }

  /** Every worker step uses one up, so every run of the workers ends. */
  lemma EachWorkerStepCounts(pl: Plan, s: State, a: Action)
    requires Shaped(pl, s) && Enabled(pl, s, a) && !a.Stop?
    ensures Total(pl.tasks, Step(pl, s, a).phases, StepsLeft) < Total(pl.tasks, s.phases, StepsLeft)
  {
    StepPhases(pl, s, a);
    TotalUpdate(pl.tasks, s.phases, a.i, Step(pl, s, a).phases[a.i], StepsLeft);
    FewerSteps(pl, s, a);
    hide Step, Total;
  }

  lemma FewerSteps(pl: Plan, s: State, a: Action)
    requires Shaped(pl, s) && Enabled(pl, s, a) && !a.Stop?
    ensures StepsLeft(pl.tasks[a.i], Step(pl, s, a).phases[a.i]) < StepsLeft(pl.tasks[a.i], s.phases[a.i])
  {
    hide D.Inspection, D.NewWork, Active, Decided, Charged, Closed;
  }

  /** While a worker is unfinished some worker can move: its own move if it holds the semaphore, else one to get there. */
  lemma SomeWorkerMoves(pl: Plan, s: State, i: nat) returns (a: Action)
    requires Inv(pl, s) && pl.tasks != [] && i < |pl.tasks| && !s.phases[i].Finished?
    ensures Enabled(pl, s, a) && !a.Stop? && (!s.stopped ==> Undisturbed(a))
  {
    hide SlotsOk, StoreOk, RecordsOk, ChargesOk, Total;
    if j :| 0 <= j < |pl.tasks| && Holds(s.phases[j]) {
      var p := s.phases[j];
      a := if p.Holding? then Inspect(j) else if p.Inspected? then Record(j) else if p.Recorded? then Charge(j)
           else Finish(j, s.stopped, true);
    } else {
      TotalZero(pl.tasks, s.phases, HoldsOne);
      a := Acquire(i);
    }
  }

  ghost predicate AllFinished(pl: Plan, s: State)
    requires Shaped(pl, s)
  {
    forall i :: 0 <= i < |pl.tasks| ==> s.phases[i].Finished?
  }

  lemma StaysGoing(pl: Plan, s: State, a: Action)
    requires Shaped(pl, s) && !s.stopped && Undisturbed(a)
    ensures !Step(pl, s, a).stopped
  {
    hide D.Inspection, D.NewWork, Active, Decided, Charged, Closed;
  }

  lemma {:induction false} QuietNotStopped(pl: Plan, actions: seq<Action>)
    requires Quiet(actions)
    ensures !Run(pl, actions).stopped
  {
    if actions != [] {
      hide Step;
      QuietNotStopped(pl, actions[..|actions| - 1]);
      StaysGoing(pl, Run(pl, actions[..|actions| - 1]), actions[|actions| - 1]);
    }
  }

  /** Any run can be brought to its end, an undisturbed one without disturbance, and what was decided stays. */
  lemma {:induction false} CanFinish(pl: Plan, actions: seq<Action>) returns (all: seq<Action>)
    ensures AllFinished(pl, Run(pl, all)) && (Quiet(actions) ==> Quiet(all))
    ensures forall i :: 0 <= i < |pl.tasks| && Run(pl, actions).phases[i].Finished? ==>
              Run(pl, all).slots[i] == Run(pl, actions).slots[i]
    decreases Total(pl.tasks, Run(pl, actions).phases, StepsLeft)
  {
    hide Run, Step, Total, Inv;
    var s := Run(pl, actions);
    if i :| 0 <= i < |pl.tasks| && !s.phases[i].Finished? {
      EveryInterleaving(pl, actions);
      if Quiet(actions) { QuietNotStopped(pl, actions); }
      var a := SomeWorkerMoves(pl, s, i);
      EachWorkerStepCounts(pl, s, a);
      RunSnoc(pl, actions, a);
      assert Quiet(actions) ==> Quiet(actions + [a]);
      forall j | 0 <= j < |pl.tasks| && s.phases[j].Finished?
        ensures Step(pl, s, a).phases[j].Finished? && Step(pl, s, a).slots[j] == s.slots[j]
      {
        StaysRecorded(pl, s, a, j);
      }
      all := CanFinish(pl, actions + [a]);
    } else {
      all := actions;
    }
  }

  /** When all workers have left, the semaphore is free and every slot holds an outcome. */
  lemma FinishedRun(pl: Plan, actions: seq<Action>)
    requires AllFinished(pl, Run(pl, actions))
    ensures var s := Run(pl, actions);
            s.sem == 0 && forall i :: 0 <= i < |pl.tasks| ==>
              s.slots[i] in {NOT_DELEGATED, NOT_SCHEDULED, INTERRUPTED, Decided(pl.tasks[i])}
  {
    hide Run;
    EveryInterleaving(pl, actions);
    TotalZero(pl.tasks, Run(pl, actions).phases, HoldsOne);
  }

  // ---------- the join ----------

  datatype Policy = AllSuccess | PartialFailure | Quorum | FirstSuccess | Unsupported

  datatype JoinResult = JoinResult(completed: nat, failed: nat, canceled: nat, tokens: int, units: int, success: bool)

  function Count(slots: seq<Slot>, f: Slot -> bool): nat {
    if slots == [] then 0 else Count(slots[..|slots| - 1], f) + (if f(slots[|slots| - 1]) then 1 else 0)
  }

  function SumTokens(slots: seq<Slot>): int {
    if slots == [] then 0 else SumTokens(slots[..|slots| - 1]) + slots[|slots| - 1].tokens
  }

  function SumUnits(slots: seq<Slot>): int {
    if slots == [] then 0 else SumUnits(slots[..|slots| - 1]) + slots[|slots| - 1].units
  }

  predicate Success(policy: Policy, minSuccess: int, completed: nat, total: nat) {
    match policy
    case AllSuccess => completed == total
    case PartialFailure => completed >= (if minSuccess <= 0 then 1 else minSuccess)
    case Quorum => completed >= (if minSuccess <= 0 then total / 2 + 1 else minSuccess)
    case FirstSuccess => completed >= 1
    case Unsupported => false
  }

  ghost function InState(slots: seq<Slot>, state: TaskState): set<nat> {
    set i: nat | i < |slots| && slots[i].state == state
  }

  /** What each policy asks of the slots. */
  ghost predicate Verdict(policy: Policy, minSuccess: int, slots: seq<Slot>) {
    match policy
    case AllSuccess => forall i :: 0 <= i < |slots| ==> slots[i].state.Completed?
    case FirstSuccess => exists i :: 0 <= i < |slots| && slots[i].state.Completed?
    case PartialFailure =>
      if minSuccess <= 0 then exists i :: 0 <= i < |slots| && slots[i].state.Completed?
      else exists some :: some <= InState(slots, Completed) && |some| == minSuccess
    case Quorum =>
      if minSuccess <= 0 then 2 * |InState(slots, Completed)| > |slots|
      else exists some :: some <= InState(slots, Completed) && |some| == minSuccess
    case Unsupported => false
  }

  lemma {:induction false} CountIsSize(slots: seq<Slot>, state: TaskState)
    ensures Count(slots, (s: Slot) => s.state == state) == |InState(slots, state)|
  {
    if slots == [] {
      assert InState(slots, state) == {};
    } else {
      var n := |slots| - 1;
      CountIsSize(slots[..n], state);
      if slots[n].state == state {
        assert InState(slots, state) == InState(slots[..n], state) + {n};
      } else {
        assert InState(slots, state) == InState(slots[..n], state);
      }
    }
  }

  lemma {:induction false} SubsetOfSize(all: set<nat>, n: nat) returns (some: set<nat>)
    requires n <= |all|
    ensures some <= all && |some| == n
  {
    if n == |all| {
      some := all;
    } else {
      var x :| x in all;
      some := SubsetOfSize(all - {x}, n);
    }
  }

  lemma FitsInto(all: set<nat>, n: int)
    requires n > 0
    ensures n <= |all| <==> exists some :: some <= all && |some| == n
  {
    if n <= |all| { var some := SubsetOfSize(all, n); }
    if some :| some <= all && |some| == n { SubsetSize(some, all); }
  }

  lemma AllOrSome(slots: seq<Slot>)
    ensures |InState(slots, Completed)| == |slots| <==> forall i :: 0 <= i < |slots| ==> slots[i].state.Completed?
    ensures |InState(slots, Completed)| >= 1 <==> exists i :: 0 <= i < |slots| && slots[i].state.Completed?
  {
    var done, all := InState(slots, Completed), Indices(|slots|);
    forall i: nat | i < |slots| ensures i in done <==> slots[i].state.Completed? {}
    if done != {} {
      var i :| i in done;
      assert slots[i].state.Completed?;
    }
    if i :| 0 <= i < |slots| && !slots[i].state.Completed? {
      assert done <= all - {i};
      SubsetSize(done, all - {i});
    } else {
      assert done == all;
    }
  }

  lemma SuccessIsVerdict(policy: Policy, minSuccess: int, slots: seq<Slot>)
    ensures Success(policy, minSuccess, |InState(slots, Completed)|, |slots|) <==> Verdict(policy, minSuccess, slots)
  {
    AllOrSome(slots);
    if minSuccess > 0 { FitsInto(InState(slots, Completed), minSuccess); }
    hide InState;
  }

  /** The aggregation loop: every slot is counted once, one that never reached an outcome as failed, and success is what the
      policy asks of the slots. */
  method Join(results: seq<Slot>, policy: Policy, minSuccess: int) returns (r: JoinResult)
    ensures r.completed == |InState(results, Completed)| && r.canceled == |InState(results, Canceled)|
    ensures r.completed + r.failed + r.canceled == |results|
    ensures r.tokens == SumTokens(results) && r.units == SumUnits(results)
    ensures r.success <==> Verdict(policy, minSuccess, results)
  {
    var completed, failed, canceled, tokens, units := 0, 0, 0, 0, 0;
    for i := 0 to |results|
      invariant completed == Count(results[..i], (s: Slot) => s.state == Completed)
      invariant canceled == Count(results[..i], (s: Slot) => s.state == Canceled)
      invariant completed + failed + canceled == i && 0 <= failed
      invariant tokens == SumTokens(results[..i]) && units == SumUnits(results[..i])
    {
      assert results[..i + 1][..i] == results[..i];
      var slot := results[i];
      tokens, units := tokens + slot.tokens, units + slot.units;
      match slot.state {
        case Completed => completed := completed + 1;
        case Canceled => canceled := canceled + 1;
        case _ => failed := failed + 1;
      }
    }
    assert results[..|results|] == results;
    CountIsSize(results, Completed);
    CountIsSize(results, Canceled);
    SuccessIsVerdict(policy, minSuccess, results);
    r := JoinResult(completed, failed, canceled, tokens, units, Success(policy, minSuccess, completed, |results|));
  }

  /** The totals: nothing for no slots, and each slot counts for what it reports. */
  lemma {:induction false} TotalsOfSlots(slots: seq<Slot>, i: nat, s: Slot)
    requires i < |slots|
    ensures SumTokens(slots[i := s]) == SumTokens(slots) - slots[i].tokens + s.tokens
    ensures SumUnits(slots[i := s]) == SumUnits(slots) - slots[i].units + s.units
    ensures SumTokens([]) == SumUnits([]) == 0
  {
    var n := |slots| - 1;
    if i == n {
      assert slots[i := s][..n] == slots[..n];
    } else {
      assert slots[i := s][..n] == slots[..n][i := s];
      TotalsOfSlots(slots[..n], i, s);
    }
  }

  lemma {:induction false} StatesAddUp(slots: seq<Slot>)
    requires forall i :: 0 <= i < |slots| ==> !slots[i].state.Submitted?
    ensures |InState(slots, Completed)| + |InState(slots, Failed)| + |InState(slots, Canceled)| == |slots|
  {
    CountIsSize(slots, Completed);
    CountIsSize(slots, Failed);
    CountIsSize(slots, Canceled);
    CountsAddUp(slots);
  }

  lemma {:induction false} CountsAddUp(slots: seq<Slot>)
    requires forall i :: 0 <= i < |slots| ==> !slots[i].state.Submitted?
    ensures Count(slots, (s: Slot) => s.state == Completed) + Count(slots, (s: Slot) => s.state == Failed) +
            Count(slots, (s: Slot) => s.state == Canceled) == |slots|
  {
    if slots != [] { CountsAddUp(slots[..|slots| - 1]); }
  }

  /** Joining the slots of a run that has ended: what counts as failed did fail, by default a quorum is a majority, and with
      the default thresholds all-success implies quorum implies partial failure, which is first success. */
  lemma JoinOfRun(pl: Plan, actions: seq<Action>, minSuccess: int)
    requires AllFinished(pl, Run(pl, actions)) && pl.tasks != [] && minSuccess <= 0
    ensures var slots := Run(pl, actions).slots;
            && |InState(slots, Completed)| + |InState(slots, Failed)| + |InState(slots, Canceled)| == |pl.tasks|
            && (Verdict(Quorum, minSuccess, slots) <==>
                  |InState(slots, Completed)| > |InState(slots, Failed)| + |InState(slots, Canceled)|)
            && (Verdict(AllSuccess, minSuccess, slots) ==> Verdict(Quorum, minSuccess, slots))
            && (Verdict(Quorum, minSuccess, slots) ==> Verdict(PartialFailure, minSuccess, slots))
            && (Verdict(PartialFailure, minSuccess, slots) <==> Verdict(FirstSuccess, minSuccess, slots))
  {
    hide Run;
    FinishedRun(pl, actions);
    StatesAddUp(Run(pl, actions).slots);
    AllOrSome(Run(pl, actions).slots);
    hide InState;
  }
}
