/** fanout.go: what becomes of the records of the tasks a fan-out has delegated. A worker whose executor succeeds without
    output reports its task as completed but never completes its record. */
module FanOutRecords {
  import opened Options
  import opened Budget
  import opened Sets
  import opened FanOut
  import opened FanOutOrder
  import D = Delegation

  /** Worker i has recorded its child: it still runs, or has left with its own outcome. */
  predicate Taken(pl: Plan, s: State, i: nat)
    requires Shaped(pl, s) && i < |pl.tasks|
  {
    Running(s.phases[i]) || (s.phases[i].Finished? && s.slots[i] == Decided(pl.tasks[i]))
  }

  /** The usage a task reports. */
  function Reported(t: Task, r: Resource): int {
    if t.script.Succeeds? && t.script.usage.Some? then
      (match r case Tokens => t.script.usage.value.0 case Units => t.script.usage.value.1)
    else 0
  }

  /** The record of a task that was taken is open exactly while its worker runs, or for good if there was no output; what the
      task reports is charged to it when the worker leaves. */
  ghost predicate RecordOk(pl: Plan, s: State, i: nat)
    requires Shaped(pl, s) && i < |pl.tasks|
  {
    Taken(pl, s, i) ==>
      && pl.tasks[i].id in s.store && (s.store[pl.tasks[i].id].terminal <==> s.phases[i].Finished? && !Silent(pl.tasks[i]))
      && forall r :: Used(s.store[pl.tasks[i].id], r) == if s.phases[i].Finished? then Reported(pl.tasks[i], r) else 0
  }

  /** Only worker i touches its record. */
  lemma OwnRecord(pl: Plan, s: State, a: Action, i: nat)
    requires Shaped(pl, s) && FreshIds(pl) && Admitted(pl) && i < |pl.tasks| && pl.tasks[i].id in s.store
    ensures pl.tasks[i].id in Step(pl, s, a).store
    ensures a.Stop? || a.i != i || !Enabled(pl, s, a) ==>
              Step(pl, s, a).store[pl.tasks[i].id] == s.store[pl.tasks[i].id]
  {
    hide D.Inspection, D.NewWork, Active, Decided;
  }

  lemma OwnSlot(pl: Plan, s: State, a: Action, i: nat)
    requires Shaped(pl, s) && i < |pl.tasks| && (a.Stop? || a.i != i || !Enabled(pl, s, a))
    ensures Step(pl, s, a).phases[i] == s.phases[i] && Step(pl, s, a).slots[i] == s.slots[i]
  {
    hide D.Inspection, D.NewWork, Active, Decided, Charged, Closed;
  }

  /** Worker i's own move. */
  lemma OwnMove(pl: Plan, s: State, a: Action)
    requires Inv(pl, s) && Admitted(pl) && FreshIds(pl) && Undisturbed(a) && Enabled(pl, s, a) && RecordOk(pl, s, a.i)
    ensures RecordOk(pl, Step(pl, s, a), a.i)
  {
    hide D.Inspection, D.NewWork, Active, ChargesOk, StoreOk, Total, RecordedBy;
    assert SlotOk(pl.tasks[a.i], s.phases[a.i], s.slots[a.i]);
  }

  lemma RecordStep(pl: Plan, s: State, a: Action, i: nat)
    requires Inv(pl, s) && Admitted(pl) && FreshIds(pl) && Undisturbed(a) && i < |pl.tasks| && RecordOk(pl, s, i)
    ensures RecordOk(pl, Step(pl, s, a), i)
  {
    if a.i == i && Enabled(pl, s, a) {
      OwnMove(pl, s, a);
    } else {
      OwnSlot(pl, s, a, i);
      if Taken(pl, s, i) { OwnRecord(pl, s, a, i); }
      hide Step;
    }
  }

  lemma {:induction false} QuietRecords(pl: Plan, actions: seq<Action>, i: nat)
    requires Admitted(pl) && FreshIds(pl) && Quiet(actions) && i < |pl.tasks|
    ensures RecordOk(pl, Run(pl, actions), i)
  {
    if actions != [] {
      hide Step, Inv, RecordOk, FreshIds;
      var before := actions[..|actions| - 1];
      QuietRecords(pl, before, i);
      EveryInterleaving(pl, before);
      RecordStep(pl, Run(pl, before), actions[|actions| - 1], i);
    } else {
      hide FreshIds;
    }
  }

  /** In every undisturbed run of tasks with new ids: once a delegated task has left, its record is completed if and only if
      its executor failed or returned output. A task without output is completed in its slot and open in the store. */
  lemma RecordClosedIff(pl: Plan, actions: seq<Action>, i: nat)
    requires Admitted(pl) && FreshIds(pl) && Quiet(actions) && i < |pl.tasks|
    requires var s := Run(pl, actions); s.phases[i].Finished? && s.slots[i] != NOT_DELEGATED
    ensures var s := Run(pl, actions);
            && s.slots[i] == Decided(pl.tasks[i]) && pl.tasks[i].id in s.store
            && (s.store[pl.tasks[i].id].terminal <==> pl.tasks[i].script != Succeeds(None))
            && s.store[pl.tasks[i].id].usedTokens == s.slots[i].tokens && s.store[pl.tasks[i].id].usedWorkUnits == s.slots[i].units
            && (match pl.tasks[i].script
                case Fails => s.slots[i].state == Failed && s.slots[i].tokens == 0 && s.slots[i].units == 0
                case Succeeds(None) => s.slots[i].state == Completed && s.slots[i].tokens == 0 && s.slots[i].units == 0
                case Succeeds(Some(u)) => s.slots[i].state == Completed && s.slots[i].tokens == u.0 && s.slots[i].units == u.1)
  {
    hide Run, FreshIds, Decided;
    QuietRecords(pl, actions, i);
    QuietSlots(pl, actions);
    EveryInterleaving(pl, actions);
    FinishedNotBlank(pl, Run(pl, actions), i);
    hide Inv;
    DecidedSlot(pl.tasks[i]);
    assert Used(Run(pl, actions).store[pl.tasks[i].id], Tokens) == Reported(pl.tasks[i], Tokens);
    assert Used(Run(pl, actions).store[pl.tasks[i].id], Units) == Reported(pl.tasks[i], Units);
  }

  lemma DecidedSlot(t: Task)
    ensures Decided(t).tokens == Reported(t, Tokens) && Decided(t).units == Reported(t, Units)
    ensures Decided(t).state == if t.script.Fails? then Failed else Completed
  {
  }

  lemma FinishedNotBlank(pl: Plan, s: State, i: nat)
    requires Inv(pl, s) && i < |pl.tasks| && s.phases[i].Finished?
    ensures s.slots[i] != BLANK
  {
    hide Total, StoreOk, RecordsOk, ChargesOk;
    assert SlotOk(pl.tasks[i], s.phases[i], s.slots[i]);
  }

  // ---------- sums over chosen tasks ----------

  function Gather(tasks: seq<Task>, chosen: set<nat>, g: Task -> nat): nat {
    if tasks == [] then 0
    else
      Gather(tasks[..|tasks| - 1], chosen, g) + (if |tasks| - 1 in chosen then g(tasks[|tasks| - 1]) else 0)
  }

  function SilentUnit(): Task -> nat { (t: Task) => if Silent(t) then 1 else 0 }
  function Wanting(r: Resource): Task -> nat { (t: Task) => Wants(t, r) }

  lemma {:induction false} GatherAdd(tasks: seq<Task>, chosen: set<nat>, i: nat, g: Task -> nat)
    requires i < |tasks| && i !in chosen
    ensures Gather(tasks, chosen + {i}, g) == Gather(tasks, chosen, g) + g(tasks[i])
  {
    var n := |tasks| - 1;
    if i < n {
      GatherAdd(tasks[..n], chosen, i, g);
    } else {
      GatherIgnores(tasks[..n], chosen, i, g);
    }
  }

  lemma {:induction false} GatherIgnores(tasks: seq<Task>, chosen: set<nat>, i: nat, g: Task -> nat)
    requires |tasks| <= i
    ensures Gather(tasks, chosen + {i}, g) == Gather(tasks, chosen, g)
  {
    if tasks != [] { GatherIgnores(tasks[..|tasks| - 1], chosen, i, g); }
  }

  lemma {:induction false} GatherMore(tasks: seq<Task>, a: set<nat>, b: set<nat>, g: Task -> nat)
    requires a <= b
    ensures Gather(tasks, a, g) <= Gather(tasks, b, g)
  {
    if tasks != [] { GatherMore(tasks[..|tasks| - 1], a, b, g); }
  }

  lemma {:induction false} GatherJoined(tasks: seq<Task>, a: set<nat>, b: set<nat>, g: Task -> nat)
    ensures Gather(tasks, a + b, g) <= Gather(tasks, a, g) + Gather(tasks, b, g)
  {
    if tasks != [] { GatherJoined(tasks[..|tasks| - 1], a, b, g); }
  }

  lemma {:induction false} GatherNone(tasks: seq<Task>, g: Task -> nat)
    ensures Gather(tasks, {}, g) == 0
  {
    if tasks != [] { GatherNone(tasks[..|tasks| - 1], g); }
  }

  lemma {:induction false} GatherAll(tasks: seq<Task>, chosen: set<nat>, r: Resource)
    requires forall i: nat :: i < |tasks| ==> i in chosen
    ensures Gather(tasks, chosen, Wanting(r)) == Wanted(tasks, r) && Gather(tasks, chosen, SilentUnit()) == Silents(tasks)
  {
    if tasks != [] { GatherAll(tasks[..|tasks| - 1], chosen, r); }
  }

  /** Chosen workers that all hold the semaphore are no more than those that hold it. */
  lemma {:induction false} GatherHolding(tasks: seq<Task>, phases: seq<Phase>, chosen: set<nat>)
    requires |tasks| == |phases| && forall i :: i in chosen && i < |tasks| ==> Holds(phases[i])
    ensures Gather(tasks, chosen, SilentUnit()) <= Total(tasks, phases, HoldsOne)
  {
    if tasks != [] { GatherHolding(tasks[..|tasks| - 1], phases[..|tasks| - 1], chosen); }
  }

  ghost function SilentIds(tasks: seq<Task>, chosen: set<nat>): set<string> {
    set i | i in chosen && i < |tasks| && Silent(tasks[i]) :: tasks[i].id
  }

  lemma LastSilentId(tasks: seq<Task>, chosen: set<nat>)
    requires tasks != [] && forall i, j :: 0 <= i < j < |tasks| ==> tasks[i].id != tasks[j].id
    ensures var n, init := |tasks| - 1, tasks[..|tasks| - 1];
            && SilentIds(tasks, chosen) == SilentIds(init, chosen) + (if n in chosen && Silent(tasks[n]) then {tasks[n].id} else {})
            && tasks[n].id !in SilentIds(init, chosen)
  {
    hide Silent;
    var n, init := |tasks| - 1, tasks[..|tasks| - 1];
    forall x ensures x in SilentIds(tasks, chosen) <==>
                     x in SilentIds(init, chosen) || (n in chosen && Silent(tasks[n]) && x == tasks[n].id) {
      if x in SilentIds(tasks, chosen) {
        var i :| i in chosen && i < |tasks| && Silent(tasks[i]) && tasks[i].id == x;
        if i < n { assert init[i] == tasks[i]; }
      }
      if x in SilentIds(init, chosen) {
        var i :| i in chosen && i < |init| && Silent(init[i]) && init[i].id == x;
        assert tasks[i] == init[i];
      }
    }
  }

  lemma {:induction false} CountSilentIds(tasks: seq<Task>, chosen: set<nat>)
    requires forall i, j :: 0 <= i < j < |tasks| ==> tasks[i].id != tasks[j].id
    ensures |SilentIds(tasks, chosen)| == Gather(tasks, chosen, SilentUnit())
  {
    if tasks == [] {
      assert SilentIds(tasks, chosen) == {};
    } else {
      LastSilentId(tasks, chosen);
      hide SilentIds;
      CountSilentIds(tasks[..|tasks| - 1], chosen);
    }
  }

  // ---------- what stays active ----------

  /** The silent tasks that were taken are all active, beside those that were active before. */
  lemma TakenAreActive(pl: Plan, s: State, chosen: set<nat>)
    requires Inv(pl, s) && FreshIds(pl) && pl.parentID != "" && pl.parentID in pl.store
    requires forall i :: i in chosen ==> i < |pl.tasks| && Taken(pl, s, i) && RecordOk(pl, s, i)
    ensures |Active(pl.store, pl.parentID)| + Gather(pl.tasks, chosen, SilentUnit()) <= |Active(s.store, pl.parentID)|
  {
    hide Total, SlotsOk, ChargesOk, RecordsOk;
    CountSilentIds(pl.tasks, chosen);
    var before, ids, now := Active(pl.store, pl.parentID), SilentIds(pl.tasks, chosen), Active(s.store, pl.parentID);
    forall w | w in ids ensures w in now && w !in before {
      var i :| i in chosen && i < |pl.tasks| && Silent(pl.tasks[i]) && pl.tasks[i].id == w;
    }
    assert before <= now;
    assert |before + ids| == |before| + |ids|;
    SubsetSize(before + ids, now);
  }

  // ---------- a run in which that matters ----------

  /** The store after one call that creates a root. */
  ghost function RootStore(b: WorkBudget): D.Store { D.RunStore([D.Plain("", "root", Some(b), 0)]) }

  lemma RootOnly(b: WorkBudget)
    ensures D.TreeOk(RootStore(b))
    ensures RootStore(b) == map["root" := Work(None, false, 0, EffectiveBudget(Some(b)), 0, 0, 0)]
  {
    hide D.RunStore, D.RunLog, D.TreeOk, D.Charged, D.EdgeAccepted;
    var root := D.Plain("", "root", Some(b), 0);
    assert [] + [root] == [root];
    D.StartsEmpty();
    D.RunSnoc([], root);
    D.RunKeepsLimits([root]);
  }

  const ONE_AT_A_TIME := WorkBudget(0, 0, 0, 1, 0, 0, 0, 0)

  /** A root with room for one active child, and two tasks without output, one worker at a time. */
  ghost function SilentPair(): Plan {
    Plan("root", [Task("a", None, 0, 0, Succeeds(None)), Task("b", None, 0, 0, Succeeds(None))], 1, RootStore(ONE_AT_A_TIME))
  }

  lemma {:induction false} KeepsFinished(pl: Plan, before: seq<Action>, after: seq<Action>, i: nat)
    requires i < |pl.tasks| && Run(pl, before).phases[i].Finished?
    ensures Run(pl, before + after).phases[i].Finished? && Run(pl, before + after).slots[i] == Run(pl, before).slots[i]
  {
    hide Run, Step;
    if after == [] {
      assert before + after == before;
    } else {
      var init, a := after[..|after| - 1], after[|after| - 1];
      KeepsFinished(pl, before, init, i);
      assert before + after == before + init + [a];
      RunSnoc(pl, before + init, a);
      StaysRecorded(pl, Run(pl, before + init), a, i);
    }
  }

  lemma SilentPairAlone()
    ensures var pl := SilentPair();
            pl.parentID in pl.store && Active(pl.store, pl.parentID) == {} && Cap(pl) == 1 && Alone(pl, 0) && Alone(pl, 1)
  {
    hide RootStore, D.TreeOk, D.EdgeAccepted;
    RootOnly(ONE_AT_A_TIME);
    var pl := SilentPair();
    assert Active(pl.store, "root") == {};
    forall i: nat | i < 2 ensures Alone(pl, i) {
      D.FreshEdgeAccepted(pl.store, pl.store, RequestFor(pl, pl.store, i));
    }
  }

  /** Each of the two would be delegated alone, but the first, long completed, keeps the second out. */
  lemma SilentBlocks()
    ensures Alone(SilentPair(), 0) && Alone(SilentPair(), 1) && Quiet(ServeOut(0) + Serve(1))
    ensures Run(SilentPair(), ServeOut(0) + Serve(1)).slots == [Decided(SilentPair().tasks[0]), NOT_DELEGATED]
  {
    hide Run, RootStore, Delegated, Closed, Cap, Active, D.Outcome, D.Inspection;
    var pl := SilentPair();
    SilentPairAlone();
    RootOnly(ONE_AT_A_TIME);
    AtStart(pl);
    assert [] + ServeOut(0) == ServeOut(0);
    ServedOut(pl, [], 0);
    DelegatedFacts(pl, pl.store, 0);
    var s := Run(pl, ServeOut(0));
    assert s.phases[1].Waiting? && s.sem == 0 && !s.stopped;
    Served(pl, ServeOut(0), 1);
    D.CreatedIff(s.store, RequestFor(pl, s.store, 1));
    if D.Inspection(s.store, RequestFor(pl, s.store, 1)).None? { InspectionPassed(pl, s, 1); }
    KeepsFinished(pl, ServeOut(0), Serve(1), 0);
  }
}
