/** fanout.go: when the results of a fan-out depend on the order its workers happen to run in. They all delegate from one
    parent under its limits, so a sibling's charge or a sibling still running can decide whether a task is delegated. */
module FanOutOrder {
  import opened Options
  import opened Budget
  import opened Sets
  import opened FanOut
  import D = Delegation

  /** What ExecuteFanOut checks before it starts a worker. */
  predicate Admitted(pl: Plan) {
    pl.parentID == "" ||
    (pl.parentID in pl.store && !pl.store[pl.parentID].terminal &&
     ValidateFanOutLimit(pl.store[pl.parentID], |pl.tasks|).None?)
  }

  ghost predicate Plausible(pl: Plan) { D.TreeOk(pl.store) && Admitted(pl) && pl.tasks != [] }

  ghost predicate FreshIds(pl: Plan) {
    && (forall i :: 0 <= i < |pl.tasks| ==> pl.tasks[i].id !in pl.store)
    && forall i, j :: 0 <= i < j < |pl.tasks| ==> pl.tasks[i].id != pl.tasks[j].id
  }

  predicate DeepEnough(w: Work) { w.depth + 1 <= OrDefault(w.budget.maxDepth, DEFAULT_MAX_DEPTH) }
  predicate RunsAtOnce(w: Work, n: int) { n <= OrDefault(w.budget.maxConcurrency, DEFAULT_MAX_CONCURRENCY) }

  /** The parent can afford an amount of a resource; one without a limit can afford anything. */
  predicate CanAfford(w: Work, r: Resource, amount: int) {
    Limit(w, r) > 0 && amount > 0 ==> amount <= Remaining(Limit(w, r), Used(w, r))
  }

  function Silents(tasks: seq<Task>): nat {
    if tasks == [] then 0 else Silents(tasks[..|tasks| - 1]) + (if Silent(tasks[|tasks| - 1]) then 1 else 0)
  }

  /** As many children as can be active at once: those that run, and every one whose task had no output, since its record
      is never completed. */
  function MostActive(pl: Plan): nat { Min(|pl.tasks|, Silents(pl.tasks) + Cap(pl)) }

  /** The parent has room for all the tasks together: their ids are new and different, its depth limit leaves a level, its
      concurrency limit leaves as many children as can be active at once, and what is left of its tokens and work units
      covers all that is wanted. */
  ghost predicate Room(pl: Plan) {
    FreshIds(pl) &&
    (pl.parentID != "" && pl.parentID in pl.store ==>
       var p := pl.store[pl.parentID];
       && DeepEnough(p) && RunsAtOnce(p, |Active(pl.store, pl.parentID)| + MostActive(pl))
       && forall r :: CanAfford(p, r, Wanted(pl.tasks, r)))
  }

  /** No undisturbed interleaving refuses any task's delegation. */
  ghost predicate NeverRefused(pl: Plan) {
    forall actions, i :: Quiet(actions) && 0 <= i < |pl.tasks| ==> Run(pl, actions).slots[i] != NOT_DELEGATED
  }

  // ---------- passing the inspection ----------

  lemma DelegationFits(parent: Work, req: D.Request)
    requires DeepEnough(parent) && parent.usedChildren + 1 <= OrDefault(parent.budget.maxChildren, DEFAULT_MAX_CHILDREN)
    requires req.activeChildren.Some? && RunsAtOnce(parent, req.activeChildren.value + 1)
    requires CanAfford(parent, Tokens, req.tokens) && CanAfford(parent, Units, req.units)
    ensures D.Refusal(parent, req).None?
  {
  }

  lemma DelegationFitted(parent: Work, req: D.Request)
    requires D.Refusal(parent, req).None? && req.activeChildren.Some?
    ensures DeepEnough(parent) && RunsAtOnce(parent, req.activeChildren.value + 1)
    ensures CanAfford(parent, Tokens, req.tokens) && CanAfford(parent, Units, req.units)
  {
  }

  /** The fan-out check and the account of charges leave a place among the parent's children for every worker that has
      not charged yet. */
  lemma ChildFits(pl: Plan, s: State, i: nat)
    requires Inv(pl, s) && Admitted(pl) && pl.parentID != "" && i < |pl.tasks| && Uncharged(s.phases[i])
    ensures pl.parentID in s.store && !s.store[pl.parentID].terminal
    ensures s.store[pl.parentID].budget == pl.store[pl.parentID].budget && s.store[pl.parentID].depth == pl.store[pl.parentID].depth
    ensures s.store[pl.parentID].usedChildren + 1 <= OrDefault(s.store[pl.parentID].budget.maxChildren, DEFAULT_MAX_CHILDREN)
  {
    hide Total, SlotsOk, RecordsOk;
    TotalUpdate(pl.tasks, s.phases, i, Finished, OwesOne);
  }

  lemma InspectionPasses(pl: Plan, s: State, i: nat)
    requires Plausible(pl) && Inv(pl, s) && i < |pl.tasks| && Uncharged(s.phases[i]) && pl.tasks[i].id !in pl.store
    requires pl.parentID != "" && pl.parentID in s.store ==>
               var p := s.store[pl.parentID];
               DeepEnough(p) && RunsAtOnce(p, |Active(s.store, pl.parentID)| + 1) &&
               CanAfford(p, Tokens, pl.tasks[i].tokens) && CanAfford(p, Units, pl.tasks[i].units)
    ensures D.Inspection(s.store, RequestFor(pl, s.store, i)).None?
  {
    hide Total, SlotsOk, RecordsOk, ChargesOk, D.EdgeAccepted, D.TreeOk, D.Refusal, Active, RunsAtOnce, CanAfford, DeepEnough;
    if pl.parentID != "" {
      ChildFits(pl, s, i);
      var req := RequestFor(pl, s.store, i);
      D.FreshEdgeAccepted(pl.store, s.store, req);
      DelegationFits(s.store[pl.parentID], req);
    }
  }

  /** In the same terms, what an inspection that passes has found. */
  lemma InspectionPassed(pl: Plan, s: State, i: nat)
    requires i < |pl.tasks| && pl.parentID != "" && D.Inspection(s.store, RequestFor(pl, s.store, i)).None?
    ensures pl.parentID in s.store
    ensures var p := s.store[pl.parentID];
            DeepEnough(p) && RunsAtOnce(p, |Active(s.store, pl.parentID)| + 1) &&
            CanAfford(p, Tokens, pl.tasks[i].tokens) && CanAfford(p, Units, pl.tasks[i].units)
  {
    hide D.EdgeAccepted, D.Refusal, Active;
    DelegationFitted(s.store[pl.parentID], RequestFor(pl, s.store, i));
  }

  // ---------- the children that are active ----------

  /** A worker whose child counts as active. */
  predicate Lingers(t: Task, p: Phase) { Running(p) || (p.Finished? && Silent(t)) }

  function LingersOne(t: Task, p: Phase): nat { if Lingers(t, p) then 1 else 0 }
  function SilentOne(t: Task, p: Phase): nat { if Silent(t) then 1 else 0 }
  function One(t: Task, p: Phase): nat { 1 }

  lemma {:induction false} TotalsOfTasks(tasks: seq<Task>, phases: seq<Phase>)
    requires |tasks| == |phases|
    ensures Total(tasks, phases, SilentOne) == Silents(tasks) && Total(tasks, phases, One) == |tasks|
  {
    if tasks != [] { TotalsOfTasks(tasks[..|tasks| - 1], phases[..|tasks| - 1]); }
  }

  ghost function LingeringIds(tasks: seq<Task>, phases: seq<Phase>): set<string>
    requires |tasks| == |phases|
  {
    set i | 0 <= i < |tasks| && Lingers(tasks[i], phases[i]) :: tasks[i].id
  }

  lemma {:induction false} FewLingering(tasks: seq<Task>, phases: seq<Phase>)
    requires |tasks| == |phases|
    ensures |LingeringIds(tasks, phases)| <= Total(tasks, phases, LingersOne)
  {
    if tasks == [] {
      assert LingeringIds(tasks, phases) == {};
    } else {
      var n := |tasks| - 1;
      FewLingering(tasks[..n], phases[..n]);
      var last := if Lingers(tasks[n], phases[n]) then {tasks[n].id} else {};
      assert LingeringIds(tasks, phases) <= LingeringIds(tasks[..n], phases[..n]) + last;
      SubsetSize(LingeringIds(tasks, phases), LingeringIds(tasks[..n], phases[..n]) + last);
    }
  }

  /** The active children are those from before and those of workers that linger. */
  ghost predicate ActiveOk(pl: Plan, s: State)
    requires Shaped(pl, s)
  {
    Active(s.store, pl.parentID) <= Active(pl.store, pl.parentID) + LingeringIds(pl.tasks, s.phases)
  }

  lemma LingeringUpdate(tasks: seq<Task>, phases: seq<Phase>, i: nat, p: Phase)
    requires |tasks| == |phases| && i < |tasks|
    ensures LingeringIds(tasks, phases) <= LingeringIds(tasks, phases[i := p]) + {tasks[i].id}
    ensures Lingers(tasks[i], p) ==> LingeringIds(tasks, phases) + {tasks[i].id} <= LingeringIds(tasks, phases[i := p])
    ensures !Lingers(tasks[i], phases[i]) ==> LingeringIds(tasks, phases) <= LingeringIds(tasks, phases[i := p])
  {
    var after := phases[i := p];
    assert Lingers(tasks[i], p) ==> tasks[i].id in LingeringIds(tasks, after);
    forall x | x in LingeringIds(tasks, phases)
      ensures x in LingeringIds(tasks, after) || (x == tasks[i].id && Lingers(tasks[i], phases[i]))
    {
      var j :| 0 <= j < |tasks| && Lingers(tasks[j], phases[j]) && tasks[j].id == x;
      if j != i { assert Lingers(tasks[j], after[j]); }
    }
  }

  /** How one quiet step changes the set of active children. */
  lemma ActiveStep(pl: Plan, s: State, a: Action)
    requires Shaped(pl, s) && StoreOk(pl, s.store) && RecordsOk(pl, s) && Undisturbed(a) && Enabled(pl, s, a)
    ensures var before, after := Active(s.store, pl.parentID), Active(Step(pl, s, a).store, pl.parentID);
            if a.Record? && Step(pl, s, a).phases[a.i].Recorded? then after <= before + {pl.tasks[a.i].id}
            else if a.Finish? && !Silent(pl.tasks[a.i]) then after == before - {pl.tasks[a.i].id}
            else after == before
  {
    hide D.Inspection, D.NewWork, Decided, RecordedBy;
  }

  lemma ActiveInv(pl: Plan, s: State, a: Action)
    requires Inv(pl, s) && ActiveOk(pl, s) && Undisturbed(a)
    ensures ActiveOk(pl, Step(pl, s, a))
  {
    hide SlotsOk, ChargesOk, StoreOk, RecordsOk, Active, LingeringIds, Total;
    if Enabled(pl, s, a) {
      StepPhases(pl, s, a);
      ActiveStep(pl, s, a);
      LingeringUpdate(pl.tasks, s.phases, a.i, Step(pl, s, a).phases[a.i]);
      PhaseMoves(pl, s, a);
      hide Step;
    }
  }

  lemma PhaseMoves(pl: Plan, s: State, a: Action)
    requires Shaped(pl, s) && Enabled(pl, s, a) && !a.Stop?
    ensures Running(Step(pl, s, a).phases[a.i]) <==> (a.Record? && Step(pl, s, a).phases[a.i].Recorded?) || a.Charge?
    ensures Running(s.phases[a.i]) <==> a.Charge? || a.Finish?
  {
    hide D.Inspection, D.NewWork, Active, Decided, Charged, Closed;
  }

  lemma {:induction false} QuietActive(pl: Plan, actions: seq<Action>)
    requires Quiet(actions)
    ensures ActiveOk(pl, Run(pl, actions))
  {
    if actions != [] {
      hide Step, ActiveOk, Inv;
      var before := actions[..|actions| - 1];
      QuietActive(pl, before);
      EveryInterleaving(pl, before);
      ActiveInv(pl, Run(pl, before), actions[|actions| - 1]);
    }
  }

  /** A worker that holds the semaphore and has not recorded its child finds room to run. */
  lemma RoomToRun(pl: Plan, s: State, i: nat)
    requires Inv(pl, s) && ActiveOk(pl, s) && i < |pl.tasks| && (s.phases[i].Holding? || s.phases[i].Inspected?)
    ensures |Active(s.store, pl.parentID)| + 1 <= |Active(pl.store, pl.parentID)| + MostActive(pl)
  {
    hide Total, SlotsOk, StoreOk, RecordsOk, ChargesOk, Active, Cap;
    LingeringFits(pl, s, i);
    FewLingering(pl.tasks, s.phases);
    var ids := LingeringIds(pl.tasks, s.phases);
    hide LingeringIds;
    SubsetSize(Active(s.store, pl.parentID), Active(pl.store, pl.parentID) + ids);
    UnionSize(Active(pl.store, pl.parentID), ids);
  }

  lemma LingeringFits(pl: Plan, s: State, i: nat)
    requires Inv(pl, s) && i < |pl.tasks| && (s.phases[i].Holding? || s.phases[i].Inspected?)
    ensures Total(pl.tasks, s.phases, LingersOne) + 1 <= MostActive(pl)
  {
    hide Total, SlotsOk, StoreOk, RecordsOk, ChargesOk, Cap;
    TotalsOfTasks(pl.tasks, s.phases);
    TotalsOfTasks(pl.tasks, s.phases[i := Executing]);
    TotalUpdate(pl.tasks, s.phases, i, Executing, LingersOne);
    TotalAtMost(pl.tasks, s.phases[i := Executing], LingersOne, One);
    TotalSum(pl.tasks, s.phases, LingersOne, SilentOne, RunsOne);
    TotalUpdate(pl.tasks, s.phases, i, Waiting, RunsOne);
    TotalUpdate(pl.tasks, s.phases, i, Waiting, HoldsOne);
    TotalAtMost(pl.tasks, s.phases[i := Waiting], RunsOne, HoldsOne);
  }

  lemma UnionSize(a: set<string>, b: set<string>)
    ensures |a + b| <= |a| + |b|
  {
    assert a + b == a + (b - a);
    SubsetSize(b - a, b);
  }

  // ---------- room for all means that nobody is refused ----------

  /** While the parent has not been charged for a task, it can still afford it. */
  lemma StillAffords(pl: Plan, s: State, i: nat, r: Resource)
    requires Inv(pl, s) && i < |pl.tasks| && Uncharged(s.phases[i]) && IsParent(pl, pl.parentID)
    requires pl.parentID in pl.store && CanAfford(pl.store[pl.parentID], r, Wanted(pl.tasks, r))
    ensures pl.parentID in s.store && CanAfford(s.store[pl.parentID], r, Ask(pl.tasks[i], r))
  {
    hide Total, SlotsOk, RecordsOk, D.SameParents;
    TotalUpdate(pl.tasks, s.phases, i, Finished, Owes(r));
    assert pl.parentID in s.store by { ParentStays(pl, s); }
    if Ask(pl.tasks[i], r) > 0 {
      WantedCovers(pl.tasks, i, r);
    }
  }

  lemma ParentStays(pl: Plan, s: State)
    requires Inv(pl, s) && pl.parentID in pl.store
    ensures pl.parentID in s.store
  {
    hide Total, SlotsOk, RecordsOk, ChargesOk;
  }

  lemma {:induction false} WantedCovers(tasks: seq<Task>, i: nat, r: Resource)
    requires i < |tasks|
    ensures Wants(tasks[i], r) <= Wanted(tasks, r)
  {
    if i < |tasks| - 1 { WantedCovers(tasks[..|tasks| - 1], i, r); }
  }

  lemma RoomPasses(pl: Plan, s: State, i: nat)
    requires Plausible(pl) && Room(pl) && Inv(pl, s) && ActiveOk(pl, s) && i < |pl.tasks| && s.phases[i].Holding?
    ensures D.Inspection(s.store, RequestFor(pl, s.store, i)).None?
  {
    hide ActiveOk, Wanted, D.TreeOk, Active;
    if pl.parentID != "" {
      ChildFits(pl, s, i);
      RoomToRun(pl, s, i);
      StillAffords(pl, s, i, Tokens);
      StillAffords(pl, s, i, Units);
      hide Inv;
    }
    InspectionPasses(pl, s, i);
  }

  lemma FreshAtRecord(pl: Plan, s: State, i: nat)
    requires FreshIds(pl) && Inv(pl, s) && i < |pl.tasks| && (s.phases[i].Inspected? || s.phases[i].Waiting? || s.phases[i].Holding?)
    ensures pl.tasks[i].id !in s.store
  {
    hide Total, SlotsOk, ChargesOk, StoreOk;
    NotRecorded(pl, s, i);
    hide RecordedBy;
  }

  lemma NotRecorded(pl: Plan, s: State, i: nat)
    requires FreshIds(pl) && Shaped(pl, s) && i < |pl.tasks| && !Running(s.phases[i]) && !s.phases[i].Finished?
    ensures !RecordedBy(pl, s, pl.tasks[i].id)
  {
  }

  lemma RoomStep(pl: Plan, s: State, a: Action)
    requires Plausible(pl) && Room(pl) && Inv(pl, s) && ActiveOk(pl, s) && Undisturbed(a) && !s.stopped
    requires forall i :: 0 <= i < |pl.tasks| ==> s.slots[i] != NOT_DELEGATED
    ensures forall i :: 0 <= i < |pl.tasks| ==> Step(pl, s, a).slots[i] != NOT_DELEGATED
  {
    hide ActiveOk, D.Inspection, D.NewWork, Active, Charged, Closed, Plausible, Room;
    if Enabled(pl, s, a) {
      match a {
        case Inspect(i) => RoomPasses(pl, s, i);
        case Record(i) => RoomIsFresh(pl); FreshAtRecord(pl, s, i);
        case _ =>
      }
    }
    hide Inv;
  }

  lemma RoomIsFresh(pl: Plan)
    requires Room(pl)
    ensures FreshIds(pl)
  {
  }

  lemma {:induction false} RoomMeansNobody(pl: Plan, actions: seq<Action>)
    requires Plausible(pl) && Room(pl) && Quiet(actions)
    ensures forall i :: 0 <= i < |pl.tasks| ==> Run(pl, actions).slots[i] != NOT_DELEGATED
  {
    if actions != [] {
      hide Step, ActiveOk, Inv, Plausible, Room;
      var before := actions[..|actions| - 1];
      RoomMeansNobody(pl, before);
      EveryInterleaving(pl, before);
      QuietActive(pl, before);
      QuietNotStopped(pl, before);
      RoomStep(pl, Run(pl, before), actions[|actions| - 1]);
    }
  }

  // ---------- being served alone ----------

  function Serve(i: nat): seq<Action> { [Acquire(i), Inspect(i), Record(i), Charge(i)] }
  function ServeOut(i: nat): seq<Action> { Serve(i) + [Finish(i, false, true)] }

  ghost predicate CanStart(pl: Plan, s: State, i: nat)
    requires Shaped(pl, s)
  {
    i < |pl.tasks| && s.phases[i].Waiting? && s.sem < Cap(pl) && !s.stopped
  }

  /** The record a delegation leaves. */
  ghost function Delegated(pl: Plan, s: D.Store, i: nat): D.Store
    requires i < |pl.tasks| && D.Outcome(s, RequestFor(pl, s, i)).Created?
  {
    D.Next(s, RequestFor(pl, s, i))
  }

  /** A worker that goes through its delegation while no other moves. */
  lemma Served(pl: Plan, actions: seq<Action>, i: nat)
    requires Quiet(actions) && CanStart(pl, Run(pl, actions), i)
    ensures Quiet(actions + Serve(i))
    ensures var s, s' := Run(pl, actions), Run(pl, actions + Serve(i));
            if D.Outcome(s.store, RequestFor(pl, s.store, i)).Created? then
              s' == State(Delegated(pl, s.store, i), s.phases[i := Executing], s.slots, s.sem + 1, false)
            else s'.slots[i] == NOT_DELEGATED
  {
    hide Run, Step, D.Outcome, D.Next;
    var s := Run(pl, actions);
    RunSnoc(pl, actions, Acquire(i));
    RunSnoc(pl, actions + [Acquire(i)], Inspect(i));
    RunSnoc(pl, actions + [Acquire(i)] + [Inspect(i)], Record(i));
    RunSnoc(pl, actions + [Acquire(i)] + [Inspect(i)] + [Record(i)], Charge(i));
    assert actions + Serve(i) == actions + [Acquire(i)] + [Inspect(i)] + [Record(i)] + [Charge(i)];
    Acquires(pl, s, i);
    var s1 := Step(pl, s, Acquire(i));
    AloneIsDelegateTask(pl, s1, i);
    assert s1.phases[i := Executing] == s.phases[i := Executing];
  }

  lemma Acquires(pl: Plan, s: State, i: nat)
    requires Shaped(pl, s) && CanStart(pl, s, i)
    ensures Step(pl, s, Acquire(i)) == s.(phases := s.phases[i := Holding], sem := s.sem + 1)
  {
  }

  lemma ServedOut(pl: Plan, actions: seq<Action>, i: nat)
    requires Quiet(actions) && CanStart(pl, Run(pl, actions), i)
    requires var s := Run(pl, actions); D.Outcome(s.store, RequestFor(pl, s.store, i)).Created?
    ensures Quiet(actions + ServeOut(i))
    ensures var s := Run(pl, actions);
            Run(pl, actions + ServeOut(i)) ==
            State(Closed(Delegated(pl, s.store, i), pl.tasks[i].id, Decided(pl.tasks[i]), !Silent(pl.tasks[i])),
                  s.phases[i := Finished], s.slots[i := Decided(pl.tasks[i])], s.sem, false)
  {
    hide Run, D.Outcome, D.Next, Closed, Active, D.Inspection;
    Served(pl, actions, i);
    assert actions + ServeOut(i) == actions + Serve(i) + [Finish(i, false, true)];
    RunSnoc(pl, actions + Serve(i), Finish(i, false, true));
    var s := Run(pl, actions);
    assert s.phases[i := Executing][i := Finished] == s.phases[i := Finished];
  }

  /** What a delegation does to its parent and to the children that run. */
  lemma DelegatedFacts(pl: Plan, s: D.Store, i: nat)
    requires i < |pl.tasks| && D.Outcome(s, RequestFor(pl, s, i)).Created?
    ensures pl.tasks[i].id !in s
    ensures pl.parentID != "" ==>
              var s1 := Delegated(pl, s, i);
              var s2 := Closed(s1, pl.tasks[i].id, Decided(pl.tasks[i]), !Silent(pl.tasks[i]));
              && pl.parentID in s && pl.parentID in s1 && pl.parentID in s2 && s1[pl.parentID] == s2[pl.parentID]
              && s1[pl.parentID].budget == s[pl.parentID].budget
              && (forall r :: Used(s1[pl.parentID], r) == Used(s[pl.parentID], r) + Ask(pl.tasks[i], r))
              && Active(s1, pl.parentID) == Active(s, pl.parentID) + {pl.tasks[i].id}
              && Active(s2, pl.parentID) == Active(s, pl.parentID) + (if Silent(pl.tasks[i]) then {pl.tasks[i].id} else {})
    ensures pl.tasks[i].id in Delegated(pl, s, i)
    ensures pl.tasks[i].id in Closed(Delegated(pl, s, i), pl.tasks[i].id, Decided(pl.tasks[i]), !Silent(pl.tasks[i]))
  {
    hide D.EdgeAccepted, D.Refusal, AllocateChildBudget, EffectiveBudget, Decided;
  }

  // ---------- and only then ----------

  /** Where nobody is refused, whoever can start is delegated. */
  lemma MustBeCreated(pl: Plan, actions: seq<Action>, i: nat)
    requires NeverRefused(pl) && Quiet(actions) && CanStart(pl, Run(pl, actions), i)
    ensures var s := Run(pl, actions);
            D.Outcome(s.store, RequestFor(pl, s.store, i)).Created? && D.Inspection(s.store, RequestFor(pl, s.store, i)).None?
  {
    Served(pl, actions, i);
    hide Run, D.Inspection;
  }

  lemma AtStart(pl: Plan)
    ensures Run(pl, []) == Start(pl) && Quiet([])
  {
  }

  lemma IdsAreFresh(pl: Plan)
    requires NeverRefused(pl) && pl.tasks != []
    ensures FreshIds(pl)
  {
    hide Run, NeverRefused, D.Outcome, D.Inspection, Delegated, Closed;
    AtStart(pl);
    forall i | 0 <= i < |pl.tasks| ensures pl.tasks[i].id !in pl.store {
      MustBeCreated(pl, [], i);
      DelegatedFacts(pl, pl.store, i);
    }
    forall i, j | 0 <= i < j < |pl.tasks| ensures pl.tasks[i].id != pl.tasks[j].id {
      MustBeCreated(pl, [], i);
      ServedOut(pl, [], i);
      DelegatedFacts(pl, pl.store, i);
      var s := Run(pl, [] + ServeOut(i));
      MustBeCreated(pl, [] + ServeOut(i), j);
      DelegatedFacts(pl, s.store, j);
    }
  }

  function BusyOne(t: Task, p: Phase): nat { if p.Waiting? then 0 else 1 }
  function LeftOne(t: Task, p: Phase): nat { if p.Finished? then 1 else 0 }

  /** A run in which m workers have left, all with silent tasks, and k others run, while nobody else has begun. */
  ghost predicate Crowded(pl: Plan, s: State, m: nat, k: nat)
    requires Shaped(pl, s) && pl.parentID in pl.store
  {
    && s.sem == k && !s.stopped && Total(pl.tasks, s.phases, BusyOne) == m + k
    && (k == 0 ==> Total(pl.tasks, s.phases, LeftOne) == m && forall i :: 0 <= i < |pl.tasks| ==> s.phases[i].Waiting? || s.phases[i].Finished?)
    && pl.parentID in s.store && s.store[pl.parentID].budget == pl.store[pl.parentID].budget
    && |Active(s.store, pl.parentID)| == |Active(pl.store, pl.parentID)| + m + k
    && (0 < k ==> RunsAtOnce(pl.store[pl.parentID], |Active(pl.store, pl.parentID)| + m + k))
  }

  /** Not all silent tasks have been served yet: there is one to serve. */
  lemma SilentWaits(pl: Plan, s: State) returns (i: nat)
    requires Shaped(pl, s) && Total(pl.tasks, s.phases, LeftOne) < Silents(pl.tasks)
    requires forall j :: 0 <= j < |pl.tasks| ==> s.phases[j].Waiting? || s.phases[j].Finished?
    ensures i < |pl.tasks| && s.phases[i].Waiting? && Silent(pl.tasks[i])
  {
    hide Total;
    TotalsOfTasks(pl.tasks, s.phases);
    if j :| 0 <= j < |pl.tasks| && s.phases[j].Waiting? && Silent(pl.tasks[j]) {
      i := j;
    } else {
      TotalAtMost(pl.tasks, s.phases, SilentOne, LeftOne);
    }
  }

  lemma SomeoneWaits(pl: Plan, s: State) returns (i: nat)
    requires Shaped(pl, s) && Total(pl.tasks, s.phases, BusyOne) < |pl.tasks|
    ensures i < |pl.tasks| && s.phases[i].Waiting?
  {
    hide Total;
    TotalsOfTasks(pl.tasks, s.phases);
    if j :| 0 <= j < |pl.tasks| && s.phases[j].Waiting? {
      i := j;
    } else {
      TotalAtMost(pl.tasks, s.phases, One, BusyOne);
    }
  }

  lemma NobodyBegan(pl: Plan)
    requires pl.parentID in pl.store
    ensures Crowded(pl, Start(pl), 0, 0)
  {
    hide Active, Total;
    TotalZero(pl.tasks, Start(pl).phases, BusyOne);
    TotalZero(pl.tasks, Start(pl).phases, LeftOne);
  }

  /** m silent tasks, one after the other. */
  lemma {:induction false} ServeSilent(pl: Plan, m: nat) returns (actions: seq<Action>)
    requires NeverRefused(pl) && pl.tasks != [] && m <= Silents(pl.tasks) && pl.parentID != "" && pl.parentID in pl.store
    ensures Quiet(actions) && Crowded(pl, Run(pl, actions), m, 0)
  {
    hide NeverRefused, D.Outcome, D.Inspection, Delegated, Closed, Run, Total, Active, Cap;
    if m == 0 {
      AtStart(pl);
      NobodyBegan(pl);
      actions := [];
    } else {
      var before := ServeSilent(pl, m - 1);
      var s := Run(pl, before);
      var i := SilentWaits(pl, s);
      MustBeCreated(pl, before, i);
      ServedOut(pl, before, i);
      DelegatedFacts(pl, s.store, i);
      NotActive(pl, s.store, i);
      TotalUpdate(pl.tasks, s.phases, i, Finished, BusyOne);
      TotalUpdate(pl.tasks, s.phases, i, Finished, LeftOne);
      actions := before + ServeOut(i);
    }
  }

  lemma NotActive(pl: Plan, s: D.Store, i: nat)
    requires i < |pl.tasks| && pl.tasks[i].id !in s
    ensures pl.tasks[i].id !in Active(s, pl.parentID)
  {
  }

  /** Then k others, all left running at once. */
  lemma {:induction false} LeaveRunning(pl: Plan, m: nat, k: nat) returns (actions: seq<Action>)
    requires NeverRefused(pl) && pl.tasks != [] && m <= Silents(pl.tasks) && pl.parentID != "" && pl.parentID in pl.store
    requires k <= Cap(pl) && m + k <= |pl.tasks|
    ensures Quiet(actions) && Crowded(pl, Run(pl, actions), m, k)
  {
    hide NeverRefused, D.Outcome, D.Inspection, Delegated, Closed, Run, Total, Active, Cap, RunsAtOnce;
    if k == 0 {
      actions := ServeSilent(pl, m);
    } else {
      var before := LeaveRunning(pl, m, k - 1);
      var s := Run(pl, before);
      var i := SomeoneWaits(pl, s);
      MustBeCreated(pl, before, i);
      Served(pl, before, i);
      DelegatedFacts(pl, s.store, i);
      NotActive(pl, s.store, i);
      InspectionPassed(pl, s, i);
      SameConcurrency(s.store[pl.parentID], pl.store[pl.parentID]);
      TotalUpdate(pl.tasks, s.phases, i, Executing, BusyOne);
      actions := before + Serve(i);
    }
  }

  lemma SameConcurrency(w: Work, v: Work)
    requires w.budget == v.budget
    ensures forall n :: RunsAtOnce(w, n) <==> RunsAtOnce(v, n)
  {
  }

  /** Those of the first k workers that ask for a resource, one after the other. */
  lemma {:induction false} ServeWanting(pl: Plan, k: nat, r: Resource) returns (actions: seq<Action>)
    requires NeverRefused(pl) && pl.tasks != [] && k <= |pl.tasks| && pl.parentID != "" && pl.parentID in pl.store
    ensures Quiet(actions)
    ensures var s := Run(pl, actions);
            && s.sem == 0 && !s.stopped && (forall j :: k <= j < |pl.tasks| ==> s.phases[j].Waiting?)
            && pl.parentID in s.store && s.store[pl.parentID].budget == pl.store[pl.parentID].budget
            && Used(s.store[pl.parentID], r) == Used(pl.store[pl.parentID], r) + Wanted(pl.tasks[..k], r)
            && CanAfford(pl.store[pl.parentID], r, Wanted(pl.tasks[..k], r))
  {
    hide NeverRefused, D.Outcome, D.Inspection, Delegated, Closed, Run;
    if k == 0 {
      AtStart(pl);
      actions := [];
    } else {
      var before := ServeWanting(pl, k - 1, r);
      assert pl.tasks[..k][..k - 1] == pl.tasks[..k - 1];
      if Ask(pl.tasks[k - 1], r) > 0 {
        var s := Run(pl, before);
        MustBeCreated(pl, before, k - 1);
        ServedOut(pl, before, k - 1);
        DelegatedFacts(pl, s.store, k - 1);
        InspectionPassed(pl, s, k - 1);
        actions := before + ServeOut(k - 1);
      } else {
        actions := before;
      }
    }
  }

  lemma NobodyMeansRoom(pl: Plan)
    requires NeverRefused(pl) && Plausible(pl)
    ensures Room(pl)
  {
    hide NeverRefused, D.Outcome, D.Inspection, D.TreeOk, Run, RunsAtOnce, CanAfford, Wanted;
    IdsAreFresh(pl);
    if pl.parentID != "" {
      AtStart(pl);
      MustBeCreated(pl, [], 0);
      InspectionPassed(pl, Start(pl), 0);
      var m := Min(Silents(pl.tasks), |pl.tasks| - Cap(pl));
      var full := LeaveRunning(pl, m, Cap(pl));
      hide Cap;
      assert pl.tasks[..|pl.tasks|] == pl.tasks;
      forall r: Resource ensures CanAfford(pl.store[pl.parentID], r, Wanted(pl.tasks, r)) {
        var all := ServeWanting(pl, |pl.tasks|, r);
      }
    }
  }

  /** For every fan-out that starts from a tree of works: no undisturbed interleaving refuses a task exactly when the
      parent has room for all of them together. */
  lemma NeverRefusedIff(pl: Plan)
    requires Plausible(pl)
    ensures NeverRefused(pl) <==> Room(pl)
  {
    if NeverRefused(pl) { NobodyMeansRoom(pl); }
    if Room(pl) {
      forall actions, i | Quiet(actions) && 0 <= i < |pl.tasks| ensures Run(pl, actions).slots[i] != NOT_DELEGATED {
        RoomMeansNobody(pl, actions);
      }
    }
  }

  // ---------- when the order does not matter ----------

  function Outcomes(tasks: seq<Task>): seq<Slot> {
    seq(|tasks|, i requires 0 <= i < |tasks| => Decided(tasks[i]))
  }

  ghost predicate Ended(pl: Plan, actions: seq<Action>) { Quiet(actions) && AllFinished(pl, Run(pl, actions)) }

  /** All undisturbed runs end with the same slots. */
  ghost predicate SameResults(pl: Plan) {
    forall a, b :: Ended(pl, a) && Ended(pl, b) ==> Run(pl, a).slots == Run(pl, b).slots
  }

  lemma {:induction false} QuietSlots(pl: Plan, actions: seq<Action>)
    requires Quiet(actions)
    ensures forall i :: 0 <= i < |pl.tasks| ==> Run(pl, actions).slots[i] in {BLANK, NOT_DELEGATED, Decided(pl.tasks[i])}
  {
    if actions != [] {
      var before, a := actions[..|actions| - 1], actions[|actions| - 1];
      QuietSlots(pl, before);
      QuietNotStopped(pl, before);
      hide Run, D.Inspection, D.NewWork, Active, Decided, Charged, Closed;
    }
  }

  lemma EndedSlots(pl: Plan, actions: seq<Action>)
    requires Ended(pl, actions) && forall i :: 0 <= i < |pl.tasks| ==> Run(pl, actions).slots[i] != NOT_DELEGATED
    ensures Run(pl, actions).slots == Outcomes(pl.tasks)
  {
    hide Run;
    QuietSlots(pl, actions);
    FinishedRun(pl, actions);
  }

  /** With room for all, every undisturbed run ends with the tasks' own outcomes, in input order. */
  lemma RoomMeansOutcomes(pl: Plan, actions: seq<Action>)
    requires Plausible(pl) && Room(pl) && Ended(pl, actions)
    ensures Run(pl, actions).slots == Outcomes(pl.tasks)
  {
    hide Plausible, Room, Run, Outcomes;
    RoomMeansNobody(pl, actions);
    EndedSlots(pl, actions);
  }

  /** A task that would be delegated if it were alone. */
  ghost predicate Alone(pl: Plan, i: nat)
    requires i < |pl.tasks|
  {
    D.Outcome(pl.store, RequestFor(pl, pl.store, i)).Created?
  }

  /** When each task by itself would be delegated, the results are the same in every undisturbed interleaving exactly when
      the parent has room for all of them together. */
  lemma OrderIndependentIff(pl: Plan)
    requires Plausible(pl) && forall i :: 0 <= i < |pl.tasks| ==> Alone(pl, i)
    ensures SameResults(pl) <==> Room(pl)
  {
    hide Plausible, Room, Run, Outcomes;
    if Room(pl) {
      forall a, b | Ended(pl, a) && Ended(pl, b) ensures Run(pl, a).slots == Run(pl, b).slots {
        RoomMeansOutcomes(pl, a);
        RoomMeansOutcomes(pl, b);
      }
    } else {
      NeverRefusedIff(pl);
      var refused, i: nat :| Quiet(refused) && 0 <= i < |pl.tasks| && Run(pl, refused).slots[i] == NOT_DELEGATED;
      Differ(pl, refused, i);
    }
  }

  lemma Differ(pl: Plan, refused: seq<Action>, i: nat)
    requires Plausible(pl) && i < |pl.tasks| && Alone(pl, i) && Quiet(refused) && Run(pl, refused).slots[i] == NOT_DELEGATED
    ensures !SameResults(pl)
  {
    hide Run, D.Outcome, Delegated, Closed, D.TreeOk;
    EveryInterleaving(pl, refused);
    assert SlotOk(pl.tasks[i], Run(pl, refused).phases[i], Run(pl, refused).slots[i]);
    var a := CanFinish(pl, refused);
    AtStart(pl);
    ServedOut(pl, [], i);
    var b := CanFinish(pl, [] + ServeOut(i));
    assert Run(pl, a).slots[i] != Run(pl, b).slots[i];
    assert Ended(pl, a) && Ended(pl, b);
  }
}
