/** assignment_controller.go and the runner map of runner.go: the machine hosts one runner per agent and keeps the set of
    runners in step with the reduced assignments. A runner is represented by the configuration it was last given. */
module AssignmentController {
  import opened Options
  import opened AssignmentReducer
  import opened Text

  /** The part of a name after its last slash. */
  function Bare(name: string): string {
    if '/' in name then Bare(name[1..]) else name
  }

  lemma {:induction false} BareHasNoSlash(name: string)
    ensures '/' !in Bare(name)
  {
    if '/' in name { BareHasNoSlash(name[1..]); }
  }

  lemma {:induction false} BareOfPath(prefix: string, id: string)
    requires prefix != [] && prefix[|prefix| - 1] == '/'
    ensures Bare(prefix + id) == Bare(id)
  {
    assert (prefix + id)[|prefix| - 1] == '/';
    assert (prefix + id)[1..] == prefix[1..] + id;
    if |prefix| == 1 {
      assert prefix[1..] + id == id;
    } else {
      BareOfPath(prefix[1..], id);
    }
  }

  type Runners = map<string, Config>

  predicate IsBare(id: string) { '/' !in id }

  ghost predicate BareKeys(m: Runners) { forall k :: k in m ==> IsBare(k) }

  datatype Client = Client(reduced: State, runners: Runners)

  /** The runner set after the side effect of one event. */
  function Hosted(runners: Runners, e: Event): Runners {
    if e.kind.Remove? then runners - {Bare(Bare(e.agent))}
    else if e.config.Some? then runners[Bare("agents/" + Bare(e.agent)) := e.config.value]
    else runners
  }

  function AckFor(machine: string, e: Event): Ack {
    Ack(machine, Some(Cursor(e.sequence, e.eventID, e.key)))
  }

  /** ApplyAssignmentEvent: reduce, then act on the runner, then acknowledge. */
  function Applied(c: Client, machine: string, event: Option<Event>): (Client, Option<Error>) {
    var refusal := Refusal(c.reduced, machine, event);
    if refusal.Some? then (c, refusal)
    else
      var e := event.value;
      var reduced := Deliver(c.reduced, machine, event);
      var ack := Some(AckFor(machine, e));
      (Client(Acknowledged(reduced, machine, ack), Hosted(c.runners, e)), AckRefusal(reduced, machine, ack))
  }

  /** Runner set and assignments agree, configuration included. */
  predicate InSync(c: Client) { c.runners == c.reduced.assignments }

  lemma HostedBare(runners: Runners, e: Event)
    requires IsBare(e.agent)
    ensures Hosted(runners, e) == ApplyToRoster(runners, e)
  {
    BareOfPath("agents/", Bare(e.agent));
  }

  /** A newly sequenced event for a bare agent id keeps the runners in step and moves the acknowledged cursor to it. */
  lemma NewEventKeepsSync(c: Client, machine: string, e: Event)
    requires Consistent(c.reduced) && InSync(c) && IsBare(e.agent)
    requires Refusal(c.reduced, machine, Some(e)).None? && e.sequence > c.reduced.lastSequence
    ensures var (c', err) := Applied(c, machine, Some(e));
            err == None && InSync(c') && Consistent(c'.reduced) &&
            c'.reduced.lastAck == Some(Cursor(e.sequence, e.eventID, e.key))
  {
    hide Bare, Consistent;
    HostedBare(c.runners, e);
    DeliverCases(c.reduced, machine, Some(e));
    DeliverConsistent(c.reduced, machine, Some(e));
    AckAccepted(c.reduced, machine, e);
    AckConsistent(Deliver(c.reduced, machine, Some(e)), machine, Some(AckFor(machine, e)));
  }

  lemma AckAccepted(s: State, machine: string, e: Event)
    requires Consistent(s) && Refusal(s, machine, Some(e)).None? && e.sequence > s.lastSequence
    ensures AckRefusal(Deliver(s, machine, Some(e)), machine, Some(AckFor(machine, e))).None?
  {
    hide Fold, Retained, Blank;
    DeliverCases(s, machine, Some(e));
  }

  /** A machine that has been given these events, whatever each call answered. */
  function Machine(machine: string, events: seq<Event>): Client {
    if events == [] then Client(EMPTY, map[])
    else Applied(Machine(machine, events[..|events| - 1]), machine, Some(events[|events| - 1])).0
  }

  /** Each event is new to the machine or refused by it: none repeats one already applied. */
  ghost predicate NoRepeats(machine: string, events: seq<Event>) {
    forall k :: 0 <= k < |events| ==>
      var s := Machine(machine, events[..k]).reduced;
      Refusal(s, machine, Some(events[k])).Some? || events[k].sequence > s.lastSequence
  }

  /** So over any run of bare-id events in which none is applied twice, runners and assignments never differ. */
  lemma {:induction false} RunnersFollowAssignments(machine: string, events: seq<Event>)
    requires NoRepeats(machine, events) && forall k :: 0 <= k < |events| ==> IsBare(events[k].agent)
    ensures InSync(Machine(machine, events)) && Consistent(Machine(machine, events).reduced)
  {
    if events == [] {
      assert Retained(EMPTY) == [];
    } else {
      hide Consistent, InSync, Refusal, Applied, IsBare;
      var before, e := events[..|events| - 1], events[|events| - 1];
      assert forall k :: 0 <= k < |before| ==> before[..k] == events[..k] && before[k] == events[k];
      RunnersFollowAssignments(machine, before);
      StepKeepsSync(Machine(machine, before), machine, e);
    }
  }

  lemma StepKeepsSync(c: Client, machine: string, e: Event)
    requires Consistent(c.reduced) && InSync(c) && IsBare(e.agent)
    requires Refusal(c.reduced, machine, Some(e)).Some? || e.sequence > c.reduced.lastSequence
    ensures InSync(Applied(c, machine, Some(e)).0) && Consistent(Applied(c, machine, Some(e)).0.reduced)
  {
    hide Consistent, InSync, Refusal, Applied, IsBare;
    if Refusal(c.reduced, machine, Some(e)).None? {
      NewEventKeepsSync(c, machine, e);
    } else {
      RefusedUnchanged(c, machine, e);
    }
  }

  lemma RefusedUnchanged(c: Client, machine: string, e: Event)
    requires Refusal(c.reduced, machine, Some(e)).Some?
    ensures Applied(c, machine, Some(e)).0 == c
  {
  }

  /** Delivering an already applied event again is not always harmless: the runners stay in step exactly when the event
      still describes the agent's current assignment. */
  lemma RepeatKeepsSyncIff(c: Client, machine: string, e: Event)
    requires InSync(c) && IsBare(e.agent)
    requires Refusal(c.reduced, machine, Some(e)).None? && e.sequence <= c.reduced.lastSequence
    ensures InSync(Applied(c, machine, Some(e)).0) <==>
            if e.kind.Remove? then e.agent !in c.reduced.assignments
            else e.agent in c.reduced.assignments && Some(c.reduced.assignments[e.agent]) == e.config
  {
    hide Bare, Blank;
    HostedBare(c.runners, e);
    var a := c.reduced.assignments;
    assert Applied(c, machine, Some(e)).0.reduced.assignments == a;
    if e.kind.Remove? {
      if e.agent in a { assert e.agent !in ApplyToRoster(a, e); } else { assert ApplyToRoster(a, e) == a; }
    } else {
      assert e.config.Some?;
      assert ApplyToRoster(a, e)[e.agent] == e.config.value;
      if e.agent in a && a[e.agent] == e.config.value { assert ApplyToRoster(a, e) == a; }
    }
  }

  // ---------- what a repeat answers ----------

  function CursorOf(e: Event): Cursor { Cursor(e.sequence, e.eventID, e.key) }

  /** The acknowledged cursor names the last applied event. */
  ghost predicate CaughtUp(s: State) {
    if s.lastSequence == 0 then s.lastAck == None
    else s.lastSequence in s.events && s.lastAck == Some(CursorOf(s.events[s.lastSequence]))
  }

  ghost predicate Settled(s: State) { Consistent(s) && Indexed(s) && CaughtUp(s) }

  lemma RepeatIsRetained(s: State, machine: string, e: Event)
    requires Refusal(s, machine, Some(e)).None? && e.sequence <= s.lastSequence
    ensures e.sequence in s.events && s.events[e.sequence] == e && e.sequence != 0 && e.machine == machine && !Blank(machine)
    ensures Deliver(s, machine, Some(e)) == s
  {
    hide Blank, Fits;
  }

  /** An accepted repeat changes nothing in the reducer, acts on the runner again, and is answered without error only when it
      repeats the last applied event: any other falls behind the acknowledged cursor. */
  lemma RepeatAnswer(c: Client, machine: string, e: Event)
    requires Settled(c.reduced)
    requires Refusal(c.reduced, machine, Some(e)).None? && e.sequence <= c.reduced.lastSequence
    ensures Applied(c, machine, Some(e)) ==
            (Client(c.reduced, Hosted(c.runners, e)), if e.sequence == c.reduced.lastSequence then None else Some(AckRegression))
  {
    hide Refusal, Deliver, Hosted, Consistent, Indexed, Blank;
    RepeatIsRetained(c.reduced, machine, e);
    assert c.reduced.lastSequence in c.reduced.events && CaughtUp(c.reduced);
    SequenceIsKey(c.reduced);
  }

  lemma SequenceIsKey(s: State)
    requires Consistent(s)
    ensures forall k :: k in s.events ==> s.events[k].sequence == k
  {
    hide Fold;
  }

  lemma AppliedSettled(c: Client, machine: string, e: Event)
    requires Settled(c.reduced)
    ensures Settled(Applied(c, machine, Some(e)).0.reduced)
  {
    hide Hosted, Consistent, Indexed, Refusal, Deliver, Acknowledged, AckRefusal;
    var s := c.reduced;
    if Refusal(s, machine, Some(e)).None? {
      if e.sequence <= s.lastSequence {
        RepeatAnswer(c, machine, e);
      } else {
        NewEventSettled(s, machine, e);
      }
    }
  }

  lemma NewEventAccepted(s: State, machine: string, e: Event)
    requires Refusal(s, machine, Some(e)).None? && e.sequence > s.lastSequence
    ensures e.sequence == s.lastSequence + 1 && Deliver(s, machine, Some(e)) == Accept(s, e)
  {
    hide ValidateEvent, Fits;
  }

  lemma NewEventSettled(s: State, machine: string, e: Event)
    requires Settled(s) && Refusal(s, machine, Some(e)).None? && e.sequence > s.lastSequence
    ensures Settled(Acknowledged(Deliver(s, machine, Some(e)), machine, Some(AckFor(machine, e))))
  {
    hide Consistent, Indexed, Refusal, Fits, AckRefusal, Deliver;
    NewEventAccepted(s, machine, e);
    DeliverConsistent(s, machine, Some(e));
    DeliverIndexed(s, machine, Some(e));
    AckAccepted(s, machine, e);
    var s' := Deliver(s, machine, Some(e));
    AckConsistent(s', machine, Some(AckFor(machine, e)));
    IndexedIgnoresAck(s', Acknowledged(s', machine, Some(AckFor(machine, e))));
  }

  lemma IndexedIgnoresAck(s: State, t: State)
    requires Indexed(s) && t == s.(lastAck := t.lastAck)
    ensures Indexed(t)
  {
  }

  lemma {:induction false} MachineSettled(machine: string, events: seq<Event>)
    ensures Settled(Machine(machine, events).reduced)
  {
    if events == [] {
      assert Retained(EMPTY) == [];
    } else {
      hide Settled, Applied;
      MachineSettled(machine, events[..|events| - 1]);
      AppliedSettled(Machine(machine, events[..|events| - 1]), machine, events[|events| - 1]);
    }
  }

  lemma LastEventStands(s: State)
    requires Consistent(s) && s.lastSequence != 0
    ensures ApplyToRoster(s.assignments, s.events[s.lastSequence]) == s.assignments
  {
    var log := Retained(s);
    assert log[|log| - 1] == s.events[s.lastSequence];
    assert s.assignments == ApplyToRoster(Fold(log[..|log| - 1]), s.events[s.lastSequence]);
  }

  /** In any run whose runners are in step, applying an event again is idempotent, answer included, exactly when it is the
      last applied event. */
  lemma RepeatIdempotentIff(machine: string, events: seq<Event>, e: Event)
    requires InSync(Machine(machine, events)) && IsBare(e.agent)
    requires var s := Machine(machine, events).reduced;
             Refusal(s, machine, Some(e)).None? && e.sequence <= s.lastSequence
    ensures var c := Machine(machine, events);
            Applied(c, machine, Some(e)) == (c, None) <==> e.sequence == c.reduced.lastSequence
  {
    hide Machine, Applied, Refusal, IsBare, Consistent, Indexed, CaughtUp;
    var c := Machine(machine, events);
    MachineSettled(machine, events);
    RepeatAnswer(c, machine, e);
    RepeatIsRetained(c.reduced, machine, e);
    if e.sequence == c.reduced.lastSequence {
      LastEventStands(c.reduced);
      HostedBare(c.runners, e);
    }
  }

  // ---------- how far a replay gets ----------

  lemma {:induction false} MachineAtPrefix(machine: string, log: seq<Event>, events: seq<Event>)
    requires Numbered(log) && forall k :: 0 <= k < |events| ==> events[k] in log
    ensures AtPrefix(log, Machine(machine, events).reduced)
  {
    if events == [] {
      assert Retained(EMPTY) == [];
    } else {
      hide Applied, AtPrefix, Numbered;
      var before := events[..|events| - 1];
      assert forall k :: 0 <= k < |before| ==> before[k] == events[k];
      MachineAtPrefix(machine, log, before);
      AppliedAtPrefix(machine, log, Machine(machine, before), events[|events| - 1]);
    }
  }

  lemma AppliedAtPrefix(machine: string, log: seq<Event>, c: Client, e: Event)
    requires Numbered(log) && AtPrefix(log, c.reduced) && e in log
    ensures AtPrefix(log, Applied(c, machine, Some(e)).0.reduced)
  {
    hide Refusal, Deliver, Acknowledged, AckRefusal, Hosted, Consistent, Retained, Numbered;
    PrefixGrows(machine, log, c.reduced, Some(e));
    var s := Deliver(c.reduced, machine, Some(e));
    AckConsistent(s, machine, Some(AckFor(machine, e)));
    AckKeepsSequence(s, machine, Some(AckFor(machine, e)));
  }

  lemma AckKeepsSequence(s: State, machine: string, ack: Option<Ack>)
    ensures Acknowledged(s, machine, ack).lastSequence == s.lastSequence
  {
  }

  /** One event of the log at the place a machine stands: the last one it applied, or the next. */
  lemma NextOfLog(machine: string, log: seq<Event>, c: Client, start: nat)
    requires Numbered(log) && Acceptable(machine, log) && AtPrefix(log, c.reduced) && Settled(c.reduced)
    requires c.reduced.lastSequence - 1 <= start <= c.reduced.lastSequence && start < |log|
    ensures var (c', err) := Applied(c, machine, Some(log[start]));
            err == None && AtPrefix(log, c'.reduced) && Settled(c'.reduced) && c'.reduced.lastSequence == start + 1
  {
    hide Refusal, Deliver, Acknowledged, AckRefusal, Hosted, AtPrefix, Acceptable, Numbered, Consistent, Indexed, CaughtUp, Applied;
    var s, e := c.reduced, log[start];
    AcceptableEvent(machine, log, start);
    PrefixConsistent(log, s);
    AppliedAtPrefix(machine, log, c, e);
    AppliedSettled(c, machine, e);
    if start < s.lastSequence {
      OldAccepted(machine, log, s, start);
      RepeatAnswer(c, machine, e);
    } else {
      NewAccepted(machine, log, s);
      NewEventAnswer(c, machine, e);
    }
  }

  lemma NewEventAnswer(c: Client, machine: string, e: Event)
    requires Consistent(c.reduced) && Refusal(c.reduced, machine, Some(e)).None? && e.sequence > c.reduced.lastSequence
    ensures var (c', err) := Applied(c, machine, Some(e));
            err == None && c'.reduced.lastSequence == e.sequence
  {
    hide Refusal, Deliver, AckRefusal, Hosted, Consistent, Fits;
    NewEventAccepted(c.reduced, machine, e);
    AckAccepted(c.reduced, machine, e);
  }

  lemma {:induction false} ReplayFrom(machine: string, log: seq<Event>, c: Client, start: nat)
    requires Numbered(log) && Acceptable(machine, log) && AtPrefix(log, c.reduced) && Settled(c.reduced)
    requires c.reduced.lastSequence - 1 <= start <= c.reduced.lastSequence && start <= |log|
    ensures var (c', err) := AppliedAll(c, machine, log[start..]);
            err == None && (start < |log| ==> c'.reduced.lastSequence == |log|)
    decreases |log| - start
  {
    hide Applied, AtPrefix, Acceptable, Numbered, Settled;
    if start < |log| {
      NextOfLog(machine, log, c, start);
      assert log[start..][0] == log[start] && log[start..][1..] == log[start + 1..];
      ReplayFrom(machine, log, Applied(c, machine, Some(log[start])).0, start + 1);
    }
  }

  /** An event further back than the last one, or further on than the next, stops a replay at once. */
  lemma OutOfPlace(machine: string, log: seq<Event>, c: Client, start: nat)
    requires Numbered(log) && Acceptable(machine, log) && AtPrefix(log, c.reduced) && Settled(c.reduced) && start < |log|
    ensures start + 1 < c.reduced.lastSequence ==> Applied(c, machine, Some(log[start])).1 == Some(AckRegression)
    ensures c.reduced.lastSequence < start ==> Applied(c, machine, Some(log[start])).1 == Some(SequenceGap)
  {
    hide Deliver, Acknowledged, AckRefusal, Hosted, AtPrefix, Acceptable, Numbered, Consistent, Indexed, CaughtUp, Fits, ValidateEvent;
    AcceptableEvent(machine, log, start);
    if start + 1 < c.reduced.lastSequence {
      hide Refusal;
      OldAccepted(machine, log, c.reduced, start);
      RepeatAnswer(c, machine, log[start]);
    }
  }

  /** A machine that has been given events of an acceptable log, in any order and with any repeats, and stands at event n:
      a replay of the log from `start` gets through to reconciliation exactly when it holds no event or starts with event n
      or with the one after it. One that starts earlier is stopped by its first event's acknowledgement, one that starts
      later by the gap. */
  lemma ReplayReachesIff(machine: string, log: seq<Event>, events: seq<Event>, start: nat)
    requires Numbered(log) && Acceptable(machine, log) && start <= |log|
    requires forall k :: 0 <= k < |events| ==> events[k] in log
    ensures var c := Machine(machine, events);
            var n := c.reduced.lastSequence;
            var (c', err) := AppliedAll(c, machine, log[start..]);
            && (err == None <==> start == |log| || n - 1 <= start <= n)
            && (err == None && start < |log| ==> c'.reduced.lastSequence == |log|)
            && (start < |log| && start < n - 1 ==> err == Some(AckRegression))
            && (n < start < |log| ==> err == Some(SequenceGap))
  {
    hide Machine, Applied, AtPrefix, Acceptable, Numbered, Settled;
    var c := Machine(machine, events);
    MachineSettled(machine, events);
    MachineAtPrefix(machine, log, events);
    var n := c.reduced.lastSequence;
    if start < |log| {
      assert log[start..][0] == log[start];
      if n - 1 <= start <= n { ReplayFrom(machine, log, c, start); } else { OutOfPlace(machine, log, c, start); }
    }
  }

  /** In particular a repeated creation of an agent that has since been removed starts a runner nobody is assigned. */
  lemma RepeatedCreateRevives(c: Client, machine: string, e: Event)
    requires InSync(c) && IsBare(e.agent) && e.kind.Create? && e.agent !in c.reduced.assignments
    requires Refusal(c.reduced, machine, Some(e)).None? && e.sequence <= c.reduced.lastSequence
    ensures var c' := Applied(c, machine, Some(e)).0;
            e.agent in c'.runners && e.agent !in c'.reduced.assignments
  {
    hide Bare, Blank;
    HostedBare(c.runners, e);
  }

  lemma MachineSnoc(machine: string, events: seq<Event>, e: Event)
    ensures Machine(machine, events + [e]) == Applied(Machine(machine, events), machine, Some(e)).0
  {
    assert (events + [e])[..|events|] == events;
  }

  /** Such a run: create, remove and the same creation again. */
  lemma RevivedRun(machine: string, create: Event, remove: Event)
    requires ValidateEvent(Some(create), machine).None? && ValidateEvent(Some(remove), machine).None?
    requires create.kind.Create? && remove.kind.Remove? && create.agent == remove.agent && IsBare(create.agent)
    requires create.sequence == 1 && remove.sequence == 2 && create.eventID != remove.eventID && create.key != remove.key
    ensures var c := Machine(machine, [create, remove, create]);
            create.agent in c.runners && create.agent !in c.reduced.assignments
    ensures Applied(Machine(machine, [create, remove]), machine, Some(create)).1 == Some(AckRegression)
  {
    hide ValidateEvent, Machine, Bare, Consistent, Indexed, Applied, IsBare;
    StartEmpty(machine);
    var c0 := Client(EMPTY, map[]);
    NewEventKeepsSync(c0, machine, create);
    MachineSnoc(machine, [], create);
    assert [] + [create] == [create];
    var c1 := Machine(machine, [create]);
    CreateThenRemove(machine, create, remove, c1);
    MachineSnoc(machine, [create], remove);
    assert [create] + [remove] == [create, remove];
    var c2 := Machine(machine, [create, remove]);
    NewEventKeepsSync(c1, machine, remove);
    RemovedThenRepeated(machine, create, remove, c1);
    MachineSettled(machine, [create, remove]);
    RepeatAnswer(c2, machine, create);
    RepeatedCreateRevives(c2, machine, create);
    MachineSnoc(machine, [create, remove], create);
    assert [create, remove] + [create] == [create, remove, create];
  }

  lemma StartEmpty(machine: string)
    ensures Machine(machine, []) == Client(EMPTY, map[]) && Consistent(EMPTY)
  {
    assert Retained(EMPTY) == [];
  }

  lemma CreateThenRemove(machine: string, create: Event, remove: Event, c: Client)
    requires ValidateEvent(Some(create), machine).None? && ValidateEvent(Some(remove), machine).None?
    requires create.kind.Create? && remove.kind.Remove? && create.agent == remove.agent
    requires create.sequence == 1 && remove.sequence == 2 && create.eventID != remove.eventID && create.key != remove.key
    requires c == Applied(Client(EMPTY, map[]), machine, Some(create)).0
    ensures Refusal(c.reduced, machine, Some(remove)).None? && c.reduced.lastSequence == 1
    ensures c.reduced.events == map[1 := create]
  {
    hide Blank, AckRefusal, Hosted;
  }

  lemma RemovedThenRepeated(machine: string, create: Event, remove: Event, c: Client)
    requires ValidateEvent(Some(create), machine).None? && remove.kind.Remove? && create.agent == remove.agent
    requires create.sequence == 1 && remove.sequence == 2
    requires c.reduced.events == map[1 := create] && c.reduced.lastSequence == 1
    requires Refusal(c.reduced, machine, Some(remove)).None?
    ensures var s := Applied(c, machine, Some(remove)).0.reduced;
            s.lastSequence == 2 && create.agent !in s.assignments && Refusal(s, machine, Some(create)).None?
  {
    hide Blank, AckRefusal, Hosted, Fits;
    DeliverCases(c.reduced, machine, Some(remove));
  }

  /** Applying a list of events, stopping at the first error. */
  function AppliedAll(c: Client, machine: string, events: seq<Event>): (Client, Option<Error>)
    decreases |events|
  {
    if events == [] then (c, None)
    else
      var (c', err) := Applied(c, machine, Some(events[0]));
      if err.Some? then (c', err) else AppliedAll(c', machine, events[1..])
  }

  /** Every step of the machine keeps the reducer consistent and its runner keys bare. */
  lemma AppliedConsistent(c: Client, machine: string, event: Option<Event>)
    requires Consistent(c.reduced) && BareKeys(c.runners)
    ensures Consistent(Applied(c, machine, event).0.reduced) && BareKeys(Applied(c, machine, event).0.runners)
  {
    hide Consistent, Deliver, Acknowledged, AckRefusal;
    if Refusal(c.reduced, machine, event).None? {
      var e := event.value;
      DeliverConsistent(c.reduced, machine, event);
      AckConsistent(Deliver(c.reduced, machine, event), machine, Some(AckFor(machine, e)));
      BareHasNoSlash("agents/" + Bare(e.agent));
    }
  }

  ghost predicate AllBare(r: Roster) { forall k :: k in r ==> IsBare(k) }

  class MachineClient {
    const machineID: string
    const reducer: Reducer
    var runners: Runners

    ghost function View(): Client
      reads this, reducer
    {
      Client(reducer.View(), runners)
    }

    ghost predicate Valid()
      reads this, reducer
    {
      reducer.machine == machineID && BareKeys(runners) && Consistent(reducer.View())
    }

    constructor (machineID: string)
      ensures Valid() && fresh(reducer) && View() == Client(EMPTY, map[])
    {
      this.machineID := machineID;
      reducer := new Reducer(machineID);
      runners := map[];
      new;
      assert Retained(EMPTY) == [];
    }

    method SpawnOrUpdate(agentName: string, config: Config)
      modifies `runners
      ensures runners == if agentName == "" then old(runners) else old(runners)[Bare(agentName) := config]
    {
      if agentName == "" { return; }
      runners := runners[Bare(agentName) := config];
    }

    method StopRunner(agentName: string)
      modifies `runners
      ensures runners == old(runners) - {Bare(agentName)}
    {
      var agentID := Bare(agentName);
      if agentID in runners {
        runners := runners - {agentID};
      } else {
        assert runners == runners - {agentID};
      }
    }

    method ApplyAssignmentEvent(event: Option<Event>) returns (ack: Option<Ack>, err: Option<Error>)
      requires Valid()
      modifies this, reducer
      ensures Valid() && (View(), err) == Applied(old(View()), machineID, event)
      ensures err.None? <==> ack.Some?
      ensures ack.Some? ==> event.Some? && ack.value == AckFor(machineID, event.value)
    {
      hide Consistent, Refusal, Deliver, AckRefusal, Acknowledged, Bare, BareKeys;
      AppliedConsistent(View(), machineID, event);
      RefusalOfNothing(reducer.View(), machineID);
      RejectedChangesNothing(reducer.View(), machineID, event);
      if event.None? { return None, Some(InvalidEvent); }
      err := reducer.ApplyEvent(event);
      if err.Some? { return None, err; }
      var e := event.value;
      AcceptedKind(old(reducer.View()), machineID, e);
      var agentID := Bare(e.agent);
      if e.kind.Remove? {
        StopRunner(agentID);
      } else {
        SpawnOrUpdate("agents/" + agentID, e.config.value);
      }
      var a := AckFor(machineID, e);
      err := reducer.Acknowledge(Some(a));
      if err.Some? { return None, err; }
      return Some(a), None;
    }

    /** From any runner set, reconciliation ends with exactly the assigned agents hosted, and with bare ids each in its
        assigned configuration. */
    method ReconcileRoster()
      requires Valid()
      modifies `runners
      ensures Valid() && reducer.View() == old(reducer.View())
      ensures runners.Keys == set k | k in reducer.assignments :: Bare(k)
      ensures AllBare(reducer.assignments) ==> InSync(View())
    {
      hide Consistent;
      var active := reducer.assignments;
      var ids := runners.Keys;
      while ids != {}
        invariant ids <= runners.Keys && BareKeys(runners)
        invariant forall k :: k in runners.Keys && k !in ids ==> k in active
      {
        var id :| id in ids;
        if id !in active {
          StopRunner(id);
        }
        ids := ids - {id};
      }
      var pending := active.Keys;
      ghost var done: set<string> := {};
      while pending != {}
        invariant pending + done == active.Keys && pending !! done
        invariant BareKeys(runners)
        invariant forall k :: k in runners ==> k in active || exists a :: a in done && Bare(a) == k
        invariant forall a :: a in done ==> Bare(a) in runners
        invariant AllBare(active) ==> forall a :: a in done ==> a in runners && runners[a] == active[a]
      {
        var id :| id in pending;
        BareOfPath("agents/", id);
        BareHasNoSlash(id);
        SpawnOrUpdate("agents/" + id, active[id]);
        pending := pending - {id};
        done := done + {id};
      }
      assert done == active.Keys;
      forall k | k in runners ensures exists a :: a in active && Bare(a) == k {
        if k in active { assert Bare(k) == k; }
      }
      assert runners.Keys == set k | k in active :: Bare(k);
      if AllBare(active) {
        assert forall k :: k in active ==> Bare(k) == k;
        assert runners == active;
      }
    }

    /** A replay that reaches reconciliation ends in step, whatever runners were there before; one that stops early has
        applied the events before the refused one. */
    method ApplyAssignmentReplay(events: seq<Event>) returns (ack: Option<Ack>, err: Option<Error>)
      requires Valid()
      modifies this, reducer
      ensures Valid()
      ensures reducer.View() == AppliedAll(old(View()), machineID, events).0.reduced
      ensures ack == if err.None? && events != [] then Some(AckFor(machineID, events[|events| - 1])) else None
      ensures err == AppliedAll(old(View()), machineID, events).1
      ensures err.None? && (events != [] || old(reducer.lastSequence) > 0) && AllBare(reducer.assignments) ==> InSync(View())
      ensures events == [] && old(reducer.lastSequence) == 0 ==> View() == old(View())
    {
      hide Consistent, Applied, Bare;
      if events == [] && reducer.lastSequence == 0 {
        return None, None;
      }
      var lastAck: Option<Ack> := None;
      for i := 0 to |events|
        invariant Valid() && lastAck == if i == 0 then None else Some(AckFor(machineID, events[i - 1]))
        invariant AppliedAll(old(View()), machineID, events) == AppliedAll(View(), machineID, events[i..])
      {
        var a, e := ApplyAssignmentEvent(Some(events[i]));
        assert events[i..][1..] == events[i + 1..] && events[i..][0] == events[i];
        if e.Some? { return None, e; }
        lastAck := a;
      }
      ReconcileRoster();
      return lastAck, None;
    }
  }

  lemma RejectedChangesNothing(s: State, machine: string, event: Option<Event>)
    ensures Refusal(s, machine, event).Some? ==> Deliver(s, machine, event) == s
  {
  }

  lemma RefusalOfNothing(s: State, machine: string)
    ensures Refusal(s, machine, None) == Some(InvalidEvent)
  {
  }

  /** An accepted event has a supported kind and, unless it removes, a configuration. */
  lemma AcceptedKind(s: State, machine: string, e: Event)
    requires Refusal(s, machine, Some(e)).None?
    ensures !e.kind.Unsupported? && (!e.kind.Remove? ==> e.config.Some?)
  {
    hide Blank;
  }
}
