/** fanout.go: between the moment a worker finds that the parent can afford its task and the moment it charges the parent,
    other workers do the same. When the limits of delegation survive that. */
module FanOutOverrun {
  import opened Options
  import opened Budget
  import D = Delegation
  import opened FanOut
  import opened FanOutOrder
  import opened FanOutRecords
  import opened Sets

  predicate Fits(w: Work, r: Resource, amount: int) { Limit(w, r) > 0 ==> Used(w, r) + amount <= Limit(w, r) }

  /** A fan-out under a parent that is within its limits, of tasks with new and different ids that ask for nothing below
      zero and would each be delegated if alone. */
  ghost predicate Sensible(pl: Plan) {
    && Plausible(pl) && pl.parentID != "" && pl.parentID in pl.store && FreshIds(pl)
    && (forall i :: 0 <= i < |pl.tasks| ==> Alone(pl, i))
    && (forall i, r :: 0 <= i < |pl.tasks| ==> Ask(pl.tasks[i], r) >= 0)
    && forall r :: Fits(pl.store[pl.parentID], r, 0)
  }

  function MaxConcurrency(pl: Plan): int
    requires pl.parentID in pl.store
  {
    OrDefault(pl.store[pl.parentID].budget.maxConcurrency, DEFAULT_MAX_CONCURRENCY)
  }

  /** Tasks that can all be delegated in one run as far as concurrency goes. Only silent ones matter, whose records stay
      active: they can fill the parent's limit but for one, and then as many more can inspect it at once as the semaphore
      lets through. */
  ghost predicate Choice(pl: Plan, chosen: set<nat>)
    requires pl.parentID in pl.store
  {
    && (forall i :: i in chosen ==> i < |pl.tasks|)
    && |Active(pl.store, pl.parentID)| + Gather(pl.tasks, chosen, SilentUnit()) < MaxConcurrency(pl) + Cap(pl)
  }

  /** What the chosen tasks ask for fits into the parent's limits. */
  ghost predicate Affordable(pl: Plan, chosen: set<nat>)
    requires pl.parentID in pl.store
  {
    forall r :: Fits(pl.store[pl.parentID], r, Gather(pl.tasks, chosen, Wanting(r)))
  }

  ghost predicate WithinLimits(pl: Plan, s: State)
    requires pl.parentID in pl.store
  {
    pl.parentID in s.store && s.store[pl.parentID].budget == pl.store[pl.parentID].budget &&
    forall r :: Fits(s.store[pl.parentID], r, 0)
  }

  /** No undisturbed interleaving charges the parent beyond a limit. */
  ghost predicate StaysWithin(pl: Plan)
    requires pl.parentID in pl.store
  {
    forall actions :: Quiet(actions) ==> WithinLimits(pl, Run(pl, actions))
  }

  // ---------- enough for every choice ----------

  /** The workers that have charged the parent, and those that have found it able to pay. */
  ghost function Payers(pl: Plan, s: State): set<nat>
    requires Shaped(pl, s)
  {
    set i | 0 <= i < |pl.tasks| && Taken(pl, s, i) && !s.phases[i].Recorded?
  }

  ghost function Takers(pl: Plan, s: State): set<nat>
    requires Shaped(pl, s)
  {
    set i | 0 <= i < |pl.tasks| && Taken(pl, s, i)
  }

  ghost function Inspectors(pl: Plan, s: State): set<nat>
    requires Shaped(pl, s)
  {
    set i | 0 <= i < |pl.tasks| && s.phases[i].Inspected?
  }

  ghost predicate Accounted(pl: Plan, s: State)
    requires Shaped(pl, s) && pl.parentID in pl.store
  {
    && pl.parentID in s.store
    && (forall r :: Used(s.store[pl.parentID], r) == Used(pl.store[pl.parentID], r) + Gather(pl.tasks, Payers(pl, s), Wanting(r)))
    && Choice(pl, Takers(pl, s) + Inspectors(pl, s))
  }

  /** What a quiet step makes of one worker's place in these sets. */
  lemma PlaceStep(pl: Plan, s: State, a: Action, j: nat)
    requires Inv(pl, s) && Undisturbed(a) && !s.stopped && j < |pl.tasks|
    ensures var s' := Step(pl, s, a);
            var mine := a.i == j && Enabled(pl, s, a);
            && (j in Payers(pl, s') <==> j in Payers(pl, s) || (mine && a.Charge?))
            && (mine && a.Charge? ==> j !in Payers(pl, s))
            && (j in Inspectors(pl, s') ==> j in Inspectors(pl, s) || (mine && a.Inspect?))
            && (j in Takers(pl, s') ==> j in Takers(pl, s) || j in Inspectors(pl, s))
            && (mine && a.Inspect? ==> (j in Takers(pl, s') <==> j in Takers(pl, s)) && j !in Inspectors(pl, s))
            && (!mine ==> (j in Takers(pl, s') <==> j in Takers(pl, s)) && (j in Inspectors(pl, s') <==> j in Inspectors(pl, s)))
  {
    hide D.Inspection, D.NewWork, Active, Charged, Closed, Total, StoreOk, RecordsOk, ChargesOk;
    assert SlotOk(pl.tasks[j], s.phases[j], s.slots[j]);
    if a.i != j || !Enabled(pl, s, a) {
      OwnSlot(pl, s, a, j);
      hide Step, Decided;
    }
  }

  predicate Passes(pl: Plan, s: State, a: Action, next: State)
    requires Shaped(pl, s) && Shaped(pl, next)
  {
    a.Inspect? && Enabled(pl, s, a) && next.phases[a.i].Inspected?
  }

  lemma PayersStep(pl: Plan, s: State, a: Action)
    requires Inv(pl, s) && Undisturbed(a) && !s.stopped
    ensures Payers(pl, Step(pl, s, a)) == Payers(pl, s) + (if a.Charge? && Enabled(pl, s, a) then {a.i} else {})
    ensures a.Charge? && Enabled(pl, s, a) ==> a.i !in Payers(pl, s)
  {
    var s' := Step(pl, s, a);
    InRange(pl, s);
    InRange(pl, s');
    hide Step, SlotsOk, Total, StoreOk, RecordsOk, ChargesOk, Payers, Takers, Inspectors;
    forall j: nat ensures j in Payers(pl, s') <==> j in Payers(pl, s) || (a.Charge? && Enabled(pl, s, a) && a.i == j) {
      if j < |pl.tasks| { PlaceStep(pl, s, a, j); }
    }
    if a.Charge? && Enabled(pl, s, a) { PlaceStep(pl, s, a, a.i); }
  }

  lemma NoMoreStep(pl: Plan, s: State, a: Action)
    requires Inv(pl, s) && Undisturbed(a) && !s.stopped && !Passes(pl, s, a, Step(pl, s, a))
    ensures Takers(pl, Step(pl, s, a)) + Inspectors(pl, Step(pl, s, a)) <= Takers(pl, s) + Inspectors(pl, s)
  {
    var s' := Step(pl, s, a);
    InRange(pl, s');
    forall j: nat | j in Takers(pl, s') + Inspectors(pl, s') ensures j in Takers(pl, s) + Inspectors(pl, s) {
      PlaceStep(pl, s, a, j);
      assert j in Inspectors(pl, s') ==> s'.phases[j].Inspected?;
      hide Step, SlotsOk, Total, StoreOk, RecordsOk, ChargesOk, Payers, Takers, Inspectors;
    }
  }

  lemma PassStep(pl: Plan, s: State, a: Action)
    requires Inv(pl, s) && Undisturbed(a) && !s.stopped && Passes(pl, s, a, Step(pl, s, a))
    ensures Takers(pl, Step(pl, s, a)) == Takers(pl, s)
  {
    var s' := Step(pl, s, a);
    InRange(pl, s);
    InRange(pl, s');
    hide Step, SlotsOk, Total, StoreOk, RecordsOk, ChargesOk, Payers, Takers, Inspectors;
    forall j: nat ensures j in Takers(pl, s') <==> j in Takers(pl, s) {
      if j < |pl.tasks| { PlaceStep(pl, s, a, j); }
    }
  }

  lemma InspectorsHold(pl: Plan, s: State)
    requires Inv(pl, s)
    ensures Gather(pl.tasks, Inspectors(pl, s), SilentUnit()) <= Cap(pl)
  {
    hide SlotsOk, StoreOk, RecordsOk, ChargesOk, Total, Cap;
    GatherHolding(pl.tasks, s.phases, Inspectors(pl, s));
  }

  /** A worker passes its inspection only while the silent tasks that were taken leave a place. */
  lemma InspectedChoice(pl: Plan, s: State, i: nat)
    requires Sensible(pl) && Inv(pl, s) && i < |pl.tasks| && D.Inspection(s.store, RequestFor(pl, s.store, i)).None?
    requires forall j :: 0 <= j < |pl.tasks| ==> RecordOk(pl, s, j)
    ensures |Active(pl.store, pl.parentID)| + Gather(pl.tasks, Takers(pl, s), SilentUnit()) < MaxConcurrency(pl)
  {
    hide Total, Active, SlotsOk, ChargesOk, RecordsOk, D.Inspection, RequestFor, Plausible, Alone, FreshIds, RecordOk, Taken;
    InspectionPassed(pl, s, i);
    TakenAreActive(pl, s, Takers(pl, s));
  }

  lemma PaidStep(pl: Plan, s: State, a: Action)
    requires Sensible(pl) && Inv(pl, s) && Accounted(pl, s) && Undisturbed(a) && !s.stopped
    ensures var s' := Step(pl, s, a);
            pl.parentID in s'.store && forall r ::
              Used(s'.store[pl.parentID], r) == Used(pl.store[pl.parentID], r) + Gather(pl.tasks, Payers(pl, s'), Wanting(r))
  {
    hide Step, FreshIds, Plausible, Alone, Payers, Takers, Inspectors, Active, Choice, Gather;
    hide SlotsOk, StoreOk, RecordsOk, ChargesOk, Total;
    var s' := Step(pl, s, a);
    PayersStep(pl, s, a);
    ParentStep(pl, s, a);
    if a.Charge? && Enabled(pl, s, a) {
      forall r: Resource
        ensures Gather(pl.tasks, Payers(pl, s'), Wanting(r)) == Gather(pl.tasks, Payers(pl, s), Wanting(r)) + Ask(pl.tasks[a.i], r)
      {
        GatherAdd(pl.tasks, Payers(pl, s), a.i, Wanting(r));
      }
    } else {
      assert Payers(pl, s') == Payers(pl, s);
    }
  }

  lemma ChoiceStep(pl: Plan, s: State, a: Action)
    requires Sensible(pl) && Inv(pl, s) && Accounted(pl, s) && Undisturbed(a) && !s.stopped && Inv(pl, Step(pl, s, a))
    requires forall j :: 0 <= j < |pl.tasks| ==> RecordOk(pl, s, j)
    ensures var s' := Step(pl, s, a); Choice(pl, Takers(pl, s') + Inspectors(pl, s'))
  {
    hide Step, RecordOk, Payers, Takers, Inspectors, Active, Cap, MaxConcurrency, Gather;
    hide SlotsOk, StoreOk, RecordsOk, ChargesOk, Total, FreshIds, Plausible, Alone;
    var s' := Step(pl, s, a);
    InRange(pl, s');
    if Passes(pl, s, a, s') {
      PassStep(pl, s, a);
      InspectPasses(pl, s, a.i);
      InspectedChoice(pl, s, a.i);
      InspectorsHold(pl, s');
      GatherJoined(pl.tasks, Takers(pl, s'), Inspectors(pl, s'), SilentUnit());
    } else {
      NoMoreStep(pl, s, a);
      GatherMore(pl.tasks, Takers(pl, s') + Inspectors(pl, s'), Takers(pl, s) + Inspectors(pl, s), SilentUnit());
    }
  }

  lemma AccountedStep(pl: Plan, s: State, a: Action)
    requires Sensible(pl) && Inv(pl, s) && Accounted(pl, s) && Undisturbed(a) && !s.stopped && Inv(pl, Step(pl, s, a))
    requires forall j :: 0 <= j < |pl.tasks| ==> RecordOk(pl, s, j)
    ensures Accounted(pl, Step(pl, s, a))
  {
    hide Step, RecordOk, Payers, Takers, Inspectors, Inv, Choice, Sensible;
    PaidStep(pl, s, a);
    ChoiceStep(pl, s, a);
  }

  lemma InRange(pl: Plan, s: State)
    requires Shaped(pl, s)
    ensures forall i :: i in Takers(pl, s) + Inspectors(pl, s) ==> i < |pl.tasks|
    ensures Payers(pl, s) <= Takers(pl, s) && forall i :: i in Payers(pl, s) ==> i < |pl.tasks|
  {
  }

  lemma InspectPasses(pl: Plan, s: State, i: nat)
    requires Shaped(pl, s) && Enabled(pl, s, Inspect(i)) && Step(pl, s, Inspect(i)).phases[i].Inspected?
    ensures D.Inspection(s.store, RequestFor(pl, s.store, i)).None?
  {
    hide D.Inspection, D.NewWork, RequestFor;
  }

  lemma ParentStep(pl: Plan, s: State, a: Action)
    requires Inv(pl, s) && pl.parentID != "" && pl.parentID in pl.store && !s.stopped && pl.parentID in s.store
    ensures pl.parentID in Step(pl, s, a).store
    ensures forall r :: Used(Step(pl, s, a).store[pl.parentID], r) ==
                        Used(s.store[pl.parentID], r) + (if a.Charge? && Enabled(pl, s, a) then Ask(pl.tasks[a.i], r) else 0)
  {
    hide Total, SlotsOk, ChargesOk, StoreOk;
    StepParent(pl, s, a);
    hide Step, RecordsOk;
  }

  lemma AccountedStart(pl: Plan)
    requires Sensible(pl)
    ensures Accounted(pl, Start(pl))
  {
    hide Active, Cap;
    assert Payers(pl, Start(pl)) == {} && Takers(pl, Start(pl)) + Inspectors(pl, Start(pl)) == {};
    forall r: Resource ensures Gather(pl.tasks, {}, Wanting(r)) == 0 { GatherNone(pl.tasks, Wanting(r)); }
    GatherNone(pl.tasks, SilentUnit());
    assert Alone(pl, 0);
    D.CreatedIff(pl.store, RequestFor(pl, pl.store, 0));
    InspectionPassed(pl, Start(pl), 0);
  }

  lemma {:induction false} QuietAccounted(pl: Plan, actions: seq<Action>)
    requires Sensible(pl) && Quiet(actions)
    ensures Accounted(pl, Run(pl, actions))
  {
    if actions == [] {
      hide Sensible, Accounted;
      AccountedStart(pl);
    } else {
      hide Step, Inv, Accounted, RecordOk, Sensible;
      var before := actions[..|actions| - 1];
      QuietAccounted(pl, before);
      EveryInterleaving(pl, before);
      EveryInterleaving(pl, actions);
      QuietNotStopped(pl, before);
      SensibleParent(pl);
      forall j | 0 <= j < |pl.tasks| ensures RecordOk(pl, Run(pl, before), j) { QuietRecords(pl, before, j); }
      AccountedStep(pl, Run(pl, before), actions[|actions| - 1]);
    }
  }

  lemma AccountedWithin(pl: Plan, s: State)
    requires Sensible(pl) && Inv(pl, s) && Accounted(pl, s) && forall chosen :: Choice(pl, chosen) ==> Affordable(pl, chosen)
    ensures WithinLimits(pl, s)
  {
    hide Total, SlotsOk, RecordsOk, ChargesOk, Active, Cap, Plausible, Alone, FreshIds;
    var all := Takers(pl, s) + Inspectors(pl, s);
    assert Affordable(pl, all);
    assert Payers(pl, s) <= all;
    forall r: Resource ensures Fits(s.store[pl.parentID], r, 0) {
      GatherMore(pl.tasks, Payers(pl, s), all, Wanting(r));
      assert Fits(pl.store[pl.parentID], r, Gather(pl.tasks, all, Wanting(r)));
    }
  }

  // ---------- one at a time ----------

  predicate Committed(p: Phase) { p.Inspected? || p.Recorded? }

  /** Whoever has found that the parent can afford its task still does. */
  ghost predicate OneByOne(pl: Plan, s: State)
    requires Shaped(pl, s) && pl.parentID in pl.store
  {
    WithinLimits(pl, s) &&
    forall i, r :: 0 <= i < |pl.tasks| && Committed(s.phases[i]) ==> Fits(s.store[pl.parentID], r, Ask(pl.tasks[i], r))
  }

  lemma OnlyHolder(pl: Plan, s: State, i: nat, j: nat)
    requires Inv(pl, s) && Cap(pl) == 1 && i < |pl.tasks| && j < |pl.tasks| && Holds(s.phases[i]) && Holds(s.phases[j])
    ensures i == j
  {
    hide Total, SlotsOk, StoreOk, RecordsOk, ChargesOk;
    TotalUpdate(pl.tasks, s.phases, i, Finished, HoldsOne);
    TotalUpdate(pl.tasks, s.phases[i := Finished], j, Finished, HoldsOne);
  }

  lemma FoundAffordable(pl: Plan, s: State, i: nat, r: Resource)
    requires Shaped(pl, s) && pl.parentID != "" && pl.parentID in pl.store && WithinLimits(pl, s)
    requires i < |pl.tasks| && Ask(pl.tasks[i], r) >= 0 && D.Inspection(s.store, RequestFor(pl, s.store, i)).None?
    ensures Fits(s.store[pl.parentID], r, Ask(pl.tasks[i], r))
  {
    hide D.Inspection, RequestFor;
    InspectionPassed(pl, s, i);
  }

  lemma OneByOneParent(pl: Plan, s: State, a: Action)
    requires pl.parentID != "" && pl.parentID in pl.store && Inv(pl, s) && OneByOne(pl, s)
    ensures WithinLimits(pl, Step(pl, s, a))
  {
    hide Total, SlotsOk, ChargesOk;
    StepParent(pl, s, a);
    hide Step, RecordsOk, StoreOk;
    var s' := Step(pl, s, a);
    if a.Charge? && Enabled(pl, s, a) {
      assert Committed(s.phases[a.i]);
      forall r: Resource ensures Fits(s'.store[pl.parentID], r, 0) {
        assert Fits(s.store[pl.parentID], r, 0) && Fits(s.store[pl.parentID], r, Ask(pl.tasks[a.i], r));
      }
    }
  }

  lemma OneByOneStep(pl: Plan, s: State, a: Action)
    requires pl.parentID != "" && pl.parentID in pl.store && Inv(pl, s) && OneByOne(pl, s) && Cap(pl) == 1
    requires forall i, r :: 0 <= i < |pl.tasks| ==> Ask(pl.tasks[i], r) >= 0
    ensures OneByOne(pl, Step(pl, s, a))
  {
    hide Total, SlotsOk, ChargesOk;
    var s' := Step(pl, s, a);
    OneByOneParent(pl, s, a);
    StepParent(pl, s, a);
    hide RecordsOk, StoreOk;
    forall i, r | 0 <= i < |pl.tasks| && Committed(s'.phases[i]) ensures Fits(s'.store[pl.parentID], r, Ask(pl.tasks[i], r)) {
      CommittedStep(pl, s, a, i);
      if a.Charge? && Enabled(pl, s, a) {
        OnlyHolder(pl, s, i, a.i);
      } else if !Committed(s.phases[i]) {
        FoundAffordable(pl, s, i, r);
      }
    }
  }

  lemma CommittedStep(pl: Plan, s: State, a: Action, i: nat)
    requires Shaped(pl, s) && i < |pl.tasks| && Committed(Step(pl, s, a).phases[i]) && pl.parentID != ""
    ensures Committed(s.phases[i]) ||
            (a == Inspect(i) && s.phases[i].Holding? && D.Inspection(s.store, RequestFor(pl, s.store, i)).None?)
    ensures a.Charge? && Enabled(pl, s, a) ==> a.i != i
  {
    hide D.Inspection, D.NewWork, Active, Decided, Charged, Closed;
  }

  lemma {:induction false} OneWorkerStaysWithin(pl: Plan, actions: seq<Action>)
    requires Sensible(pl) && Cap(pl) == 1
    ensures OneByOne(pl, Run(pl, actions))
  {
    if actions != [] {
      hide Step, Inv, Plausible, OneByOne;
      var before := actions[..|actions| - 1];
      OneWorkerStaysWithin(pl, before);
      EveryInterleaving(pl, before);
      OneByOneStep(pl, Run(pl, before), actions[|actions| - 1]);
    }
  }

  // ---------- two at a time ----------

  /** A choice the parent cannot pay for, though it could without any one of its tasks. */
  lemma {:induction false} SmallestOverrun(pl: Plan, chosen: set<nat>) returns (least: set<nat>)
    requires Sensible(pl) && Choice(pl, chosen) && !Affordable(pl, chosen)
    ensures Choice(pl, least) && !Affordable(pl, least) && least != {}
    ensures forall k :: k in least ==> Affordable(pl, least - {k})
    decreases chosen
  {
    hide Active, Cap, MaxConcurrency, Plausible, FreshIds, Alone;
    if k :| k in chosen && !Affordable(pl, chosen - {k}) {
      GatherMore(pl.tasks, chosen - {k}, chosen, SilentUnit());
      least := SmallestOverrun(pl, chosen - {k});
    } else {
      least := chosen;
      forall r: Resource ensures Gather(pl.tasks, {}, Wanting(r)) == 0 { GatherNone(pl.tasks, Wanting(r)); }
    }
  }

  /** The others can be delegated one after the other while those in `held` wait with their inspection passed. */
  ghost predicate Sequential(pl: Plan, chosen: set<nat>, held: set<nat>)
    requires pl.parentID in pl.store
  {
    |Active(pl.store, pl.parentID)| + Gather(pl.tasks, chosen - held, SilentUnit()) <= MaxConcurrency(pl)
  }

  lemma HoldOneMore(pl: Plan, chosen: set<nat>, held: set<nat>) returns (k: nat)
    requires pl.parentID in pl.store && held <= chosen && Gather(pl.tasks, chosen - held, SilentUnit()) > 0
    requires forall i :: i in chosen ==> i < |pl.tasks|
    ensures k in chosen && k !in held
    ensures Gather(pl.tasks, chosen - (held + {k}), SilentUnit()) == Gather(pl.tasks, chosen - held, SilentUnit()) - 1
  {
    if i :| i in chosen - held && Silent(pl.tasks[i]) {
      k := i;
      assert chosen - held == (chosen - (held + {k})) + {k};
      GatherAdd(pl.tasks, chosen - (held + {k}), k, SilentUnit());
    } else {
      NoSilent(pl.tasks, chosen - held);
    }
  }

  lemma {:induction false} NoSilent(tasks: seq<Task>, chosen: set<nat>)
    requires forall i :: i in chosen && i < |tasks| ==> !Silent(tasks[i])
    ensures Gather(tasks, chosen, SilentUnit()) == 0
  {
    if tasks != [] { NoSilent(tasks[..|tasks| - 1], chosen); }
  }

  /** Fewer than the semaphore admits have to be held for the rest to go one after the other. */
  lemma {:induction false} ChooseHeld(pl: Plan, chosen: set<nat>, held0: set<nat>) returns (held: set<nat>)
    requires pl.parentID in pl.store && held0 <= chosen && 1 <= |held0| < Cap(pl)
    requires forall i :: i in chosen ==> i < |pl.tasks|
    requires |Active(pl.store, pl.parentID)| <= MaxConcurrency(pl)
    requires |Active(pl.store, pl.parentID)| + Gather(pl.tasks, chosen - held0, SilentUnit()) < MaxConcurrency(pl) + Cap(pl) - |held0|
    ensures held <= chosen && 1 <= |held| < Cap(pl) && Sequential(pl, chosen, held)
    decreases chosen - held0
  {
    hide Active, Cap, MaxConcurrency;
    if Sequential(pl, chosen, held0) {
      held := held0;
    } else {
      var k := HoldOneMore(pl, chosen, held0);
      assert |held0 + {k}| == |held0| + 1;
      held := ChooseHeld(pl, chosen, held0 + {k});
    }
  }

  lemma FirstHeld(pl: Plan, chosen: set<nat>) returns (held: set<nat>)
    requires Sensible(pl) && Choice(pl, chosen) && chosen != {} && 2 <= Cap(pl)
    ensures held <= chosen && 1 <= |held| < Cap(pl) && Sequential(pl, chosen, held)
  {
    hide Active, Cap, MaxConcurrency, Plausible, FreshIds, Alone;
    RoomForOne(pl);
    if i :| i in chosen && Silent(pl.tasks[i]) {
      assert chosen == (chosen - {i}) + {i};
      GatherAdd(pl.tasks, chosen - {i}, i, SilentUnit());
      held := ChooseHeld(pl, chosen, {i});
    } else {
      NoSilent(pl.tasks, chosen);
      var k :| k in chosen;
      GatherMore(pl.tasks, chosen - {k}, chosen, SilentUnit());
      held := {k};
    }
  }

  lemma RoomForOne(pl: Plan)
    requires Sensible(pl)
    ensures |Active(pl.store, pl.parentID)| + 1 <= MaxConcurrency(pl) && DeepEnough(pl.store[pl.parentID])
  {
    hide Active, FreshIds;
    assert Alone(pl, 0);
    D.CreatedIff(pl.store, RequestFor(pl, pl.store, 0));
    InspectionPassed(pl, Start(pl), 0);
  }

  /** Where the run stands: those in `held` have passed their inspection, those in `done` have come and gone, nobody else
      has begun. */
  ghost predicate Stage(pl: Plan, s: State, done: set<nat>, held: set<nat>)
    requires Shaped(pl, s) && pl.parentID in pl.store
  {
    && s.sem == |held| && !s.stopped && done !! held && (done == {} ==> s.store == pl.store)
    && (forall i :: i in done || i in held ==> i < |pl.tasks|)
    && (forall i: nat :: i < |pl.tasks| ==>
          if i in held then s.phases[i].Inspected? else if i in done then s.phases[i].Finished? else s.phases[i].Waiting?)
    && pl.parentID in s.store && s.store[pl.parentID].budget == pl.store[pl.parentID].budget
    && (forall r :: Used(s.store[pl.parentID], r) == Used(pl.store[pl.parentID], r) + Gather(pl.tasks, done, Wanting(r)))
    && |Active(s.store, pl.parentID)| == |Active(pl.store, pl.parentID)| + Gather(pl.tasks, done, SilentUnit())
  }

  lemma StartStage(pl: Plan)
    requires Sensible(pl)
    ensures Stage(pl, Start(pl), {}, {})
  {
    hide Active;
    GatherNone(pl.tasks, SilentUnit());
    forall r: Resource ensures Gather(pl.tasks, {}, Wanting(r)) == 0 { GatherNone(pl.tasks, Wanting(r)); }
  }

  lemma HoldOne(pl: Plan, actions: seq<Action>, held: set<nat>, i: nat)
    requires Sensible(pl) && Quiet(actions) && Stage(pl, Run(pl, actions), {}, held)
    requires i < |pl.tasks| && i !in held && |held| < Cap(pl)
    ensures Quiet(actions + [Acquire(i)] + [Inspect(i)])
    ensures Stage(pl, Run(pl, actions + [Acquire(i)] + [Inspect(i)]), {}, held + {i})
  {
    hide Run, Active, D.NewWork, Plausible, FreshIds, Cap, D.Inspection, Gather;
    var s := Run(pl, actions);
    RunSnoc(pl, actions, Acquire(i));
    RunSnoc(pl, actions + [Acquire(i)], Inspect(i));
    assert Alone(pl, i);
    D.CreatedIff(pl.store, RequestFor(pl, pl.store, i));
    var s1 := s.(phases := s.phases[i := Holding], sem := s.sem + 1);
    assert Step(pl, s, Acquire(i)) == s1;
    assert Step(pl, s1, Inspect(i)) ==
           s1.(phases := s1.phases[i := Inspected(D.NewWork(pl.store, RequestFor(pl, pl.store, i)))]);
  }

  lemma {:induction false} HoldAll(pl: Plan, held: set<nat>) returns (actions: seq<Action>)
    requires Sensible(pl) && |held| <= Cap(pl) && forall i :: i in held ==> i < |pl.tasks|
    ensures Quiet(actions) && Stage(pl, Run(pl, actions), {}, held)
    decreases held
  {
    hide Run, Sensible, Stage, Cap;
    if held == {} {
      AtStart(pl);
      StartStage(pl);
      actions := [];
    } else {
      var i :| i in held;
      var before := HoldAll(pl, held - {i});
      HoldOne(pl, before, held - {i}, i);
      assert held - {i} + {i} == held;
      actions := before + [Acquire(i)] + [Inspect(i)];
    }
  }

  /** A worker that has not begun is delegated as long as its task is affordable and a place is left. */
  lemma StageDelegates(pl: Plan, s: State, done: set<nat>, held: set<nat>, i: nat)
    requires Sensible(pl) && Inv(pl, s) && Stage(pl, s, done, held) && i < |pl.tasks| && i !in done && i !in held
    requires Affordable(pl, done + {i})
    requires |Active(pl.store, pl.parentID)| + Gather(pl.tasks, done, SilentUnit()) < MaxConcurrency(pl)
    ensures D.Outcome(s.store, RequestFor(pl, s.store, i)).Created?
  {
    hide Active, D.Inspection, D.TreeOk, Total, SlotsOk, RecordsOk, ChargesOk, Gather, Cap, Alone;
    FreshAtRecord(pl, s, i);
    D.CreatedIff(s.store, RequestFor(pl, s.store, i));
    RoomForOne(pl);
    ChildFits(pl, s, i);
    forall r: Resource ensures CanAfford(s.store[pl.parentID], r, Ask(pl.tasks[i], r)) {
      GatherAdd(pl.tasks, done, i, Wanting(r));
      assert Fits(pl.store[pl.parentID], r, Gather(pl.tasks, done + {i}, Wanting(r)));
    }
    assert CanAfford(s.store[pl.parentID], Tokens, Ask(pl.tasks[i], Tokens));
    assert CanAfford(s.store[pl.parentID], Units, Ask(pl.tasks[i], Units));
    InspectionPasses(pl, s, i);
  }

  lemma ServeOne(pl: Plan, actions: seq<Action>, done: set<nat>, held: set<nat>, i: nat)
    requires Sensible(pl) && Quiet(actions) && Stage(pl, Run(pl, actions), done, held)
    requires i < |pl.tasks| && i !in done && i !in held && |held| < Cap(pl) && Affordable(pl, done + {i})
    requires |Active(pl.store, pl.parentID)| + Gather(pl.tasks, done, SilentUnit()) < MaxConcurrency(pl)
    ensures Quiet(actions + ServeOut(i)) && Stage(pl, Run(pl, actions + ServeOut(i)), done + {i}, held)
  {
    hide Run, Active, D.Outcome, Delegated, Closed, Plausible, Alone, FreshIds, Inv, Gather, Cap, MaxConcurrency, Affordable;
    var s := Run(pl, actions);
    EveryInterleaving(pl, actions);
    StageDelegates(pl, s, done, held, i);
    ServedOut(pl, actions, i);
    DelegatedFacts(pl, s.store, i);
    NotActive(pl, s.store, i);
    GatherAdd(pl.tasks, done, i, SilentUnit());
    forall r: Resource ensures Gather(pl.tasks, done + {i}, Wanting(r)) == Gather(pl.tasks, done, Wanting(r)) + Ask(pl.tasks[i], r) {
      GatherAdd(pl.tasks, done, i, Wanting(r));
    }
  }

  /** All of `todo`, those that leave nothing active first. */
  lemma {:induction false} ServeAll(pl: Plan, before: seq<Action>, done: set<nat>, held: set<nat>, todo: set<nat>)
    returns (actions: seq<Action>)
    requires Sensible(pl) && Quiet(before) && Stage(pl, Run(pl, before), done, held) && |held| < Cap(pl)
    requires todo !! done && todo !! held && Affordable(pl, done + todo) && forall i :: i in todo ==> i < |pl.tasks|
    requires |Active(pl.store, pl.parentID)| + Gather(pl.tasks, done + todo, SilentUnit()) <= MaxConcurrency(pl)
    requires (exists i :: i in todo && !Silent(pl.tasks[i])) ==> Gather(pl.tasks, done, SilentUnit()) == 0
    ensures Quiet(actions) && Stage(pl, Run(pl, actions), done + todo, held)
    decreases todo
  {
    hide Run, Sensible, Stage, Cap, Active, MaxConcurrency, Gather;
    if todo == {} {
      assert done + todo == done;
      actions := before;
    } else {
      SensibleParent(pl);
      RoomForOne(pl);
      var i: nat;
      if k :| k in todo && !Silent(pl.tasks[k]) { i := k; } else { i :| i in todo; }
      GatherAdd(pl.tasks, done, i, SilentUnit());
      GatherMore(pl.tasks, done + {i}, done + todo, SilentUnit());
      FewerAffordable(pl, done + {i}, done + todo);
      ServeOne(pl, before, done, held, i);
      assert (done + {i}) + (todo - {i}) == done + todo;
      actions := ServeAll(pl, before + ServeOut(i), done + {i}, held, todo - {i});
    }
  }

  lemma FewerAffordable(pl: Plan, a: set<nat>, b: set<nat>)
    requires pl.parentID in pl.store && a <= b && Affordable(pl, b)
    ensures Affordable(pl, a)
  {
    forall r: Resource ensures Fits(pl.store[pl.parentID], r, Gather(pl.tasks, a, Wanting(r))) {
      GatherMore(pl.tasks, a, b, Wanting(r));
      assert Fits(pl.store[pl.parentID], r, Gather(pl.tasks, b, Wanting(r)));
    }
  }

  function Release(k: nat): seq<Action> { [Record(k), Charge(k), Finish(k, false, true)] }

  /** A worker that has passed its inspection records its child and charges the parent, whatever is left by then. */
  lemma ReleaseOne(pl: Plan, actions: seq<Action>, done: set<nat>, held: set<nat>, k: nat)
    requires Sensible(pl) && Quiet(actions) && Stage(pl, Run(pl, actions), done, held) && k in held
    ensures Quiet(actions + Release(k)) && Stage(pl, Run(pl, actions + Release(k)), done + {k}, held - {k})
  {
    hide Run, Plausible, Alone, Inv, Gather, Cap, Active, Step;
    var s := Run(pl, actions);
    EveryInterleaving(pl, actions);
    InspectedFacts(pl, s, k);
    assert actions + Release(k) == actions + [Record(k)] + [Charge(k)] + [Finish(k, false, true)];
    RunSnoc(pl, actions, Record(k));
    RunSnoc(pl, actions + [Record(k)], Charge(k));
    RunSnoc(pl, actions + [Record(k)] + [Charge(k)], Finish(k, false, true));
    hide FreshIds;
    StageReleased(pl, s, done, held, k);
  }

  lemma StageReleased(pl: Plan, s: State, done: set<nat>, held: set<nat>, k: nat)
    requires Sensible(pl) && Shaped(pl, s) && Stage(pl, s, done, held) && k in held && pl.tasks[k].id !in s.store
    requires s.phases[k].work.parent == Some(pl.parentID) && !s.phases[k].work.terminal
    ensures Stage(pl, Step(pl, Step(pl, Step(pl, s, Record(k)), Charge(k)), Finish(k, false, true)), done + {k}, held - {k})
  {
    hide Plausible, Alone, FreshIds, Gather, Active, Step;
    ReleaseSteps(pl, s, k);
    GatherAdd(pl.tasks, done, k, SilentUnit());
    forall r: Resource ensures Gather(pl.tasks, done + {k}, Wanting(r)) == Gather(pl.tasks, done, Wanting(r)) + Ask(pl.tasks[k], r) {
      GatherAdd(pl.tasks, done, k, Wanting(r));
    }
    NotActive(pl, s.store, k);
    assert |held| == |held - {k}| + 1;
  }

  lemma InspectedFacts(pl: Plan, s: State, k: nat)
    requires Inv(pl, s) && FreshIds(pl) && k < |pl.tasks| && s.phases[k].Inspected?
    ensures pl.tasks[k].id !in s.store && pl.tasks[k].id !in pl.store
    ensures s.phases[k].work.parent == ParentLink(pl) && FanOut.Blank(s.phases[k].work)
  {
    FreshAtRecord(pl, s, k);
    hide Total, SlotsOk, ChargesOk, StoreOk, RecordedBy;
  }

  lemma ReleaseSteps(pl: Plan, s: State, k: nat)
    requires Shaped(pl, s) && k < |pl.tasks| && s.phases[k].Inspected? && !s.stopped && pl.tasks[k].id !in s.store
    requires pl.parentID != "" && pl.parentID in s.store
    requires s.phases[k].work.parent == Some(pl.parentID) && !s.phases[k].work.terminal
    ensures var s' := Step(pl, Step(pl, Step(pl, s, Record(k)), Charge(k)), Finish(k, false, true));
            && s'.phases == s.phases[k := Finished] && s'.sem == s.sem - 1 && !s'.stopped
            && pl.parentID in s'.store && s'.store[pl.parentID].budget == s.store[pl.parentID].budget
            && (forall r :: Used(s'.store[pl.parentID], r) == Used(s.store[pl.parentID], r) + Ask(pl.tasks[k], r))
            && Active(s'.store, pl.parentID) ==
               Active(s.store, pl.parentID) + (if Silent(pl.tasks[k]) then {pl.tasks[k].id} else {})
  {
    var t := pl.tasks[k];
    var store1 := s.store[t.id := s.phases[k].work];
    var store2 := FanOut.Charged(pl, store1, t);
    var store3 := Closed(store2, t.id, Decided(t), !Silent(t));
    var s1 := s.(phases := s.phases[k := Recorded], store := store1);
    assert Step(pl, s, Record(k)) == s1;
    var s2 := s1.(phases := s1.phases[k := Executing], store := store2);
    assert Step(pl, s1, Charge(k)) == s2;
    var s3 := Step(pl, s2, Finish(k, false, true));
    assert s3.store == store3 && s3.phases == s2.phases[k := Finished];
    assert s2.phases[k := Finished] == s.phases[k := Finished];
    ActiveAfter(pl, s.store, t, s.phases[k].work);
  }

  lemma ActiveAfter(pl: Plan, s: D.Store, t: Task, w: Work)
    requires t.id !in s && pl.parentID != "" && pl.parentID in s && w.parent == Some(pl.parentID) && !w.terminal
    ensures var s' := Closed(FanOut.Charged(pl, s[t.id := w], t), t.id, Decided(t), !Silent(t));
            Active(s', pl.parentID) == Active(s, pl.parentID) + (if Silent(t) then {t.id} else {})
  {
    hide Decided, Silent;
  }

  lemma {:induction false} ReleaseAll(pl: Plan, before: seq<Action>, done: set<nat>, held: set<nat>) returns (actions: seq<Action>)
    requires Sensible(pl) && Quiet(before) && Stage(pl, Run(pl, before), done, held)
    ensures Quiet(actions) && Stage(pl, Run(pl, actions), done + held, {})
    decreases held
  {
    hide Run, Sensible, Stage;
    if held == {} {
      assert done + held == done;
      actions := before;
    } else {
      var k :| k in held;
      ReleaseOne(pl, before, done, held, k);
      assert (done + {k}) + (held - {k}) == done + held;
      actions := ReleaseAll(pl, before + Release(k), done + {k}, held - {k});
    }
  }

  /** So with a semaphore for two, every choice the parent cannot pay for is charged in full by some run. */
  lemma Overrun(pl: Plan, chosen: set<nat>) returns (actions: seq<Action>)
    requires Sensible(pl) && 2 <= Cap(pl) && Choice(pl, chosen) && !Affordable(pl, chosen)
    ensures Quiet(actions) && !WithinLimits(pl, Run(pl, actions))
  {
    hide Run, Sensible, Stage, Cap, Active, MaxConcurrency, Gather;
    SensibleParent(pl);
    var least := SmallestOverrun(pl, chosen);
    var held := FirstHeld(pl, least);
    var k :| k in held;
    var rest := least - held;
    FewerAffordable(pl, rest, least - {k});
    var start := HoldAll(pl, held);
    assert {} + rest == rest && rest + held == least;
    GatherNone(pl.tasks, SilentUnit());
    var middle := ServeAll(pl, start, {}, held, rest);
    actions := ReleaseAll(pl, middle, rest, held);
    StageBeyond(pl, Run(pl, actions), least);
  }

  lemma StageBeyond(pl: Plan, s: State, done: set<nat>)
    requires pl.parentID in pl.store && Shaped(pl, s) && Stage(pl, s, done, {}) && !Affordable(pl, done)
    ensures !WithinLimits(pl, s)
  {
    hide Active, Gather;
    var r :| !Fits(pl.store[pl.parentID], r, Gather(pl.tasks, done, Wanting(r)));
    assert !Fits(s.store[pl.parentID], r, 0);
  }

  /** The limits hold in every undisturbed interleaving exactly when the semaphore lets one worker through at a time or the
      parent can pay for every choice of tasks that its concurrency limit lets happen. */
  lemma StaysWithinIff(pl: Plan)
    requires Sensible(pl)
    ensures StaysWithin(pl) <==> Cap(pl) == 1 || forall chosen :: Choice(pl, chosen) ==> Affordable(pl, chosen)
  {
    hide Run, Sensible, WithinLimits, OneByOne, Inv, Choice, Affordable, Accounted, Cap;
    SensibleParent(pl);
    if Cap(pl) == 1 {
      forall actions | Quiet(actions) ensures WithinLimits(pl, Run(pl, actions)) {
        OneWorkerStaysWithin(pl, actions);
        OneByOneWithin(pl, Run(pl, actions));
      }
    } else if forall chosen :: Choice(pl, chosen) ==> Affordable(pl, chosen) {
      forall actions | Quiet(actions) ensures WithinLimits(pl, Run(pl, actions)) {
        EveryInterleaving(pl, actions);
        QuietAccounted(pl, actions);
        AccountedWithin(pl, Run(pl, actions));
      }
    } else {
      var chosen :| Choice(pl, chosen) && !Affordable(pl, chosen);
      var actions := Overrun(pl, chosen);
    }
  }

  predicate PaysForAll(pl: Plan, r: Resource)
    requires pl.parentID in pl.store
  {
    Fits(pl.store[pl.parentID], r, Wanted(pl.tasks, r))
  }

  /** When concurrency is no obstacle to delegating all tasks in one run, only what they want in all counts. */
  lemma StaysWithinAll(pl: Plan)
    requires Sensible(pl) && |Active(pl.store, pl.parentID)| + Silents(pl.tasks) < MaxConcurrency(pl) + Cap(pl)
    ensures StaysWithin(pl) <==>
            Cap(pl) == 1 || forall r :: PaysForAll(pl, r)
  {
    hide Sensible, Cap, MaxConcurrency, StaysWithin, Active, PaysForAll, Affordable;
    SensibleParent(pl);
    StaysWithinIff(pl);
    var all := Indices(|pl.tasks|);
    AllTasks(pl, all);
    if Affordable(pl, all) {
      forall chosen | Choice(pl, chosen) ensures Affordable(pl, chosen) { FewerAffordable(pl, chosen, all); }
    }
  }

  lemma AllTasks(pl: Plan, all: set<nat>)
    requires pl.parentID in pl.store && all == Indices(|pl.tasks|)
    ensures Affordable(pl, all) <==> forall r :: PaysForAll(pl, r)
    ensures |Active(pl.store, pl.parentID)| + Silents(pl.tasks) < MaxConcurrency(pl) + Cap(pl) ==> Choice(pl, all)
  {
    hide Fits, Cap, MaxConcurrency, Active, Gather, Wanted, Silents;
    GatherAll(pl.tasks, all, Tokens);
    forall r: Resource
      ensures Fits(pl.store[pl.parentID], r, Gather(pl.tasks, all, Wanting(r))) <==> PaysForAll(pl, r)
    {
      GatherAll(pl.tasks, all, r);
    }
  }

  lemma OneByOneWithin(pl: Plan, s: State)
    requires Shaped(pl, s) && pl.parentID in pl.store && OneByOne(pl, s)
    ensures WithinLimits(pl, s)
  {
  }

  lemma SensibleParent(pl: Plan)
    requires Sensible(pl)
    ensures pl.parentID != "" && pl.parentID in pl.store && 1 <= Cap(pl) && Admitted(pl) && FreshIds(pl)
  {
  }

  // ---------- two tasks ----------

  const TEN_TOKENS := WorkBudget(0, 0, 0, 0, 0, 0, 10, 0)

  /** A root that may spend ten tokens, and two tasks that want eight each. */
  ghost function TwoTasks(): Plan {
    Plan("root", [Task("a", None, 8, 0, Succeeds(Some((0, 0)))), Task("b", None, 8, 0, Succeeds(Some((0, 0))))], 2,
         RootStore(TEN_TOKENS))
  }

  lemma TwoTasksSensible()
    ensures Sensible(TwoTasks()) && !Room(TwoTasks()) && TwoTasks().parentID in TwoTasks().store && !PaysForAll(TwoTasks(), Tokens)
  {
    hide RootStore, D.TreeOk, D.EdgeAccepted;
    RootOnly(TEN_TOKENS);
    var pl := TwoTasks();
    var p := pl.store["root"];
    assert Active(pl.store, "root") == {};
    forall i: nat | i < 2 ensures Alone(pl, i) {
      D.FreshEdgeAccepted(pl.store, pl.store, RequestFor(pl, pl.store, i));
    }
    TwoWanted(pl.tasks);
    assert !CanAfford(p, Tokens, Wanted(pl.tasks, Tokens));
  }

  lemma TwoWanted(tasks: seq<Task>)
    requires |tasks| == 2 && tasks[0].tokens == tasks[1].tokens == 8
    ensures Wanted(tasks, Tokens) == 16
  {
    assert tasks[..1][..0] == [];
    assert Wanted(tasks[..1], Tokens) == 8;
  }

  lemma SecondRefused(i: nat, j: nat)
    requires i < 2 && j == 1 - i
    ensures Quiet(ServeOut(i) + Serve(j))
    ensures var s := Run(TwoTasks(), ServeOut(i) + Serve(j));
            s.slots[i] == Decided(TwoTasks().tasks[i]) && s.slots[j] == NOT_DELEGATED
  {
    hide Run, D.Outcome, D.Inspection, RootStore, D.TreeOk, Delegated, Closed, Active, Room;
    var pl := TwoTasks();
    TwoTasksSensible();
    RootOnly(TEN_TOKENS);
    AtStart(pl);
    assert Alone(pl, i);
    assert [] + ServeOut(i) == ServeOut(i);
    ServedOut(pl, [], i);
    DelegatedFacts(pl, pl.store, i);
    var s := Run(pl, ServeOut(i));
    assert Used(s.store["root"], Tokens) == 8;
    Served(pl, ServeOut(i), j);
    D.CreatedIff(s.store, RequestFor(pl, s.store, j));
    if D.Inspection(s.store, RequestFor(pl, s.store, j)).None? { InspectionPassed(pl, s, j); }
    assert (ServeOut(i) + Serve(j))[..|ServeOut(i)|] == ServeOut(i);
    KeepsFinished(pl, ServeOut(i), Serve(j), i);
  }

  /** Whichever delegates first succeeds and the other is refused, so the results depend on the order; and when both find
      the parent able to pay before either has charged it, both are delegated and the limit is exceeded. */
  lemma TwoTasksRace()
    ensures Run(TwoTasks(), ServeOut(0) + Serve(1)).slots == [Decided(TwoTasks().tasks[0]), NOT_DELEGATED]
    ensures Run(TwoTasks(), ServeOut(1) + Serve(0)).slots == [NOT_DELEGATED, Decided(TwoTasks().tasks[1])]
    ensures !SameResults(TwoTasks())
    ensures TwoTasks().parentID in TwoTasks().store && !StaysWithin(TwoTasks())
  {
    hide Run, Sensible, Room, SameResults, StaysWithin, Decided;
    TwoTasksSensible();
    SecondRefused(0, 1);
    SecondRefused(1, 0);
    SensibleParent(TwoTasks());
    SensibleAlone(TwoTasks());
    OrderIndependentIff(TwoTasks());
    TwoTasksFree();
    StaysWithinAll(TwoTasks());
  }

  lemma TwoTasksFree()
    ensures var pl := TwoTasks();
            pl.parentID in pl.store && Cap(pl) == 2 &&
            |Active(pl.store, pl.parentID)| + Silents(pl.tasks) < MaxConcurrency(pl) + Cap(pl)
  {
    hide RootStore;
    RootOnly(TEN_TOKENS);
    var pl := TwoTasks();
    assert Active(pl.store, "root") == {};
    assert pl.tasks[..1][..0] == [] && Silents(pl.tasks[..1]) == 0;
  }

  lemma SensibleAlone(pl: Plan)
    requires Sensible(pl)
    ensures Plausible(pl) && forall i :: 0 <= i < |pl.tasks| ==> Alone(pl, i)
  {
    hide Plausible, Alone;
  }
}
