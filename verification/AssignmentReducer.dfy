/** reducer.go: an event-sourced reducer for one machine's assignment log. */
module AssignmentReducer {
  import opened Options
  import opened Sorting
  import opened Text

  datatype Config = Config(revision: string, payloadReference: string, payloadDigest: string)

  datatype Kind = Create | ConfigUpdate | Remove | Unsupported

  /** `createdAt` is None when the timestamp is missing or invalid. */
  datatype Event = Event(machine: string, agent: string, sequence: nat, eventID: string, key: string, kind: Kind,
                         config: Option<Config>, createdAt: Option<int>)

  datatype Cursor = Cursor(sequence: nat, eventID: string, key: string)
  datatype Ack = Ack(machine: string, through: Option<Cursor>)

  datatype Error = InvalidEvent | MachineMismatch | SequenceGap | SequenceRegression | AckRegression | AckMismatch

  type Roster = map<string, Config>

  datatype State = State(lastSequence: nat, lastAck: Option<Cursor>, events: map<nat, Event>, ids: map<string, nat>,
                         keys: map<string, nat>, assignments: Roster)

  const EMPTY := State(0, None, map[], map[], map[], map[])

  function ValidateEvent(event: Option<Event>, machine: string): Option<Error> {
    if event.None? then Some(InvalidEvent)
    else
      var e := event.value;
      if Blank(machine) || e.machine != machine then Some(MachineMismatch)
      else if Blank(e.agent) || Blank(e.eventID) || Blank(e.key) then Some(InvalidEvent)
      else if e.sequence == 0 then Some(InvalidEvent)
      else if e.createdAt.None? then Some(InvalidEvent)
      else match e.kind
        case Create | ConfigUpdate =>
          if e.config.None? || Blank(e.config.value.revision) || Blank(e.config.value.payloadReference) ||
             Blank(e.config.value.payloadDigest) then Some(InvalidEvent)
          else None
        case Remove => if e.config.Some? then Some(InvalidEvent) else None
        case Unsupported => Some(InvalidEvent)
  }

  /** Whether a valid, newly sequenced event fits the current assignments. */
  predicate Fits(s: State, e: Event) {
    && (e.eventID in s.ids ==> s.ids[e.eventID] == e.sequence)
    && (e.key in s.keys ==> s.keys[e.key] == e.sequence)
    && match e.kind
       case Create => e.agent !in s.assignments
       case ConfigUpdate | Remove => e.agent in s.assignments
       case Unsupported => false
  }

  function Refusal(s: State, machine: string, event: Option<Event>): Option<Error> {
    var invalid := ValidateEvent(event, machine);
    if invalid.Some? then invalid
    else
      var e := event.value;
      if e.sequence <= s.lastSequence then
        if e.sequence !in s.events then Some(SequenceRegression)
        else if s.events[e.sequence] != e then Some(InvalidEvent)
        else None
      else if e.sequence != s.lastSequence + 1 then Some(SequenceGap)
      else if !Fits(s, e) then Some(InvalidEvent)
      else None
  }

  function ApplyToRoster(r: Roster, e: Event): Roster {
    if e.kind.Remove? then r - {e.agent}
    else if e.config.Some? then r[e.agent := e.config.value]
    else r
  }

  /** The state after delivering an event: unchanged when it is refused or an exact repeat. */
  function Deliver(s: State, machine: string, event: Option<Event>): State {
    if Refusal(s, machine, event).Some? || event.value.sequence <= s.lastSequence then s
    else Accept(s, event.value)
  }

  function Accept(s: State, e: Event): State {
    State(e.sequence, s.lastAck, s.events[e.sequence := e], s.ids[e.eventID := e.sequence], s.keys[e.key := e.sequence],
          ApplyToRoster(s.assignments, e))
  }

  /** A delivery either leaves the state alone or accepts the next event in sequence. */
  lemma DeliverCases(s: State, machine: string, event: Option<Event>)
    ensures var s' := Deliver(s, machine, event);
            s' == s || (event.Some? && event.value.sequence == s.lastSequence + 1 && Fits(s, event.value) &&
                        s' == Accept(s, event.value))
    ensures Deliver(s, machine, event) != s <==>
            Refusal(s, machine, event).None? && event.value.sequence == s.lastSequence + 1
  {
    hide Blank, Fits;
  }

  function AckRefusal(s: State, machine: string, ack: Option<Ack>): Option<Error> {
    if ack.None? || Blank(ack.value.machine) then Some(InvalidEvent)
    else if ack.value.machine != machine then Some(MachineMismatch)
    else if ack.value.through.None? then Some(InvalidEvent)
    else
      var c := ack.value.through.value;
      if c.sequence == 0 && (s.lastSequence != 0 || c.eventID != "" || c.key != "") then Some(AckMismatch)
      else if c.sequence > s.lastSequence then Some(AckMismatch)
      else if c.sequence != 0 && !(c.sequence in s.events && s.events[c.sequence].eventID == c.eventID &&
                                   s.events[c.sequence].key == c.key) then Some(AckMismatch)
      else if s.lastAck.Some? && c.sequence < s.lastAck.value.sequence then Some(AckRegression)
      else if s.lastAck.Some? && c.sequence == s.lastAck.value.sequence && c != s.lastAck.value then Some(AckMismatch)
      else None
  }

  function Acknowledged(s: State, machine: string, ack: Option<Ack>): State {
    if AckRefusal(s, machine, ack).Some? then s else s.(lastAck := ack.value.through)
  }

  // ---------- the log a state stands for ----------

  /** The assignments a log prescribes. */
  function Fold(log: seq<Event>): Roster {
    if log == [] then map[] else ApplyToRoster(Fold(log[..|log| - 1]), log[|log| - 1])
  }

  /** The retained events in sequence order. */
  ghost function Retained(s: State): seq<Event>
    requires forall k :: 1 <= k <= s.lastSequence ==> k in s.events
  {
    seq(s.lastSequence, i requires 0 <= i < s.lastSequence => s.events[i + 1])
  }

  ghost predicate Consistent(s: State) {
    && (forall k :: k in s.events <==> 1 <= k <= s.lastSequence)
    && (forall k :: k in s.events ==> s.events[k].sequence == k)
    && s.assignments == Fold(Retained(s))
    && (s.lastAck.Some? ==>
          var c := s.lastAck.value;
          (c.sequence == 0 && c.eventID == "" && c.key == "") ||
          (c.sequence in s.events && s.events[c.sequence].eventID == c.eventID && s.events[c.sequence].key == c.key))
  }

  lemma FoldSnoc(log: seq<Event>, e: Event)
    ensures Fold(log + [e]) == ApplyToRoster(Fold(log), e)
  {
    assert (log + [e])[..|log|] == log;
  }

  lemma AcceptRetains(s: State, e: Event)
    requires Consistent(s) && e.sequence == s.lastSequence + 1
    ensures forall k :: k in Accept(s, e).events <==> 1 <= k <= s.lastSequence + 1
    ensures Retained(Accept(s, e)) == Retained(s) + [e]
  {
    hide Fold, ApplyToRoster;
  }

  lemma AcceptConsistent(s: State, e: Event)
    requires Consistent(s) && e.sequence == s.lastSequence + 1
    ensures Consistent(Accept(s, e)) && Retained(Accept(s, e)) == Retained(s) + [e]
  {
    AcceptRetains(s, e);
    FoldSnoc(Retained(s), e);
    hide ApplyToRoster, Fold, Retained;
  }

  lemma DeliverConsistent(s: State, machine: string, event: Option<Event>)
    requires Consistent(s)
    ensures Consistent(Deliver(s, machine, event))
    ensures Deliver(s, machine, event) != s ==> Retained(Deliver(s, machine, event)) == Retained(s) + [event.value]
  {
    hide Deliver, Consistent, Retained, Accept;
    DeliverCases(s, machine, event);
    if Deliver(s, machine, event) != s { AcceptConsistent(s, event.value); }
  }

  lemma AckConsistent(s: State, machine: string, ack: Option<Ack>)
    requires Consistent(s)
    ensures Consistent(Acknowledged(s, machine, ack)) && Retained(Acknowledged(s, machine, ack)) == Retained(s)
  {
    hide Fold;
    var s' := Acknowledged(s, machine, ack);
    assert s'.events == s.events && s'.lastSequence == s.lastSequence && s'.assignments == s.assignments;
    assert Retained(s') == Retained(s);
  }

  datatype Input = Event_(event: Option<Event>) | Ack_(ack: Option<Ack>)

  function Step(s: State, machine: string, i: Input): State {
    match i
    case Event_(e) => Deliver(s, machine, e)
    case Ack_(a) => Acknowledged(s, machine, a)
  }

  function Run(machine: string, inputs: seq<Input>): State {
    if inputs == [] then EMPTY else Step(Run(machine, inputs[..|inputs| - 1]), machine, inputs[|inputs| - 1])
  }

  /** Whatever is thrown at a reducer, its state is the fold of the events it retains, in order without gap, and its
      acknowledged cursor names one of them. */
  lemma {:induction false} EveryRunConsistent(machine: string, inputs: seq<Input>)
    ensures Consistent(Run(machine, inputs))
  {
    if inputs == [] {
      assert Retained(EMPTY) == [];
    } else {
      hide Consistent, Deliver, Acknowledged;
      EveryRunConsistent(machine, inputs[..|inputs| - 1]);
      var s, i := Run(machine, inputs[..|inputs| - 1]), inputs[|inputs| - 1];
      match i {
        case Event_(e) => DeliverConsistent(s, machine, e);
        case Ack_(a) => AckConsistent(s, machine, a);
      }
    }
  }

  /** An authoritative log numbers its events 1, 2, 3, ... */
  ghost predicate Numbered(log: seq<Event>) { forall i :: 0 <= i < |log| ==> log[i].sequence == i + 1 }

  /** Every delivered event comes from the log; order, repetition, omission and acknowledgements are arbitrary. */
  ghost predicate ScheduleOf(log: seq<Event>, inputs: seq<Input>) {
    forall k :: 0 <= k < |inputs| && inputs[k].Event_? && inputs[k].event.Some? ==> inputs[k].event.value in log
  }

  /** For every delivery schedule of one log, the state is the fold of the log's first `lastSequence` events. */
  lemma {:induction false} StateIsLogPrefix(machine: string, log: seq<Event>, inputs: seq<Input>)
    requires Numbered(log) && ScheduleOf(log, inputs)
    ensures var s := Run(machine, inputs);
            AtPrefix(log, s) && s.assignments == Fold(log[..s.lastSequence])
  {
    if inputs == [] {
      assert Retained(EMPTY) == [];
    } else {
      hide Deliver, Acknowledged;
      var before, i := inputs[..|inputs| - 1], inputs[|inputs| - 1];
      assert forall k :: 0 <= k < |before| ==> before[k] == inputs[k];
      StateIsLogPrefix(machine, log, before);
      var s := Run(machine, before);
      match i {
        case Event_(e) =>
          assert e.Some? ==> e.value in log;
          PrefixGrows(machine, log, s, e);
        case Ack_(a) => AckConsistent(s, machine, a);
      }
    }
  }

  /** Standing at a prefix of the log, a delivery from the log leads to a prefix of the log. */
  ghost predicate AtPrefix(log: seq<Event>, s: State) {
    Consistent(s) && s.lastSequence <= |log| && Retained(s) == log[..s.lastSequence]
  }

  lemma PrefixGrows(machine: string, log: seq<Event>, s: State, event: Option<Event>)
    requires Numbered(log) && AtPrefix(log, s) && (event.Some? ==> event.value in log)
    ensures AtPrefix(log, Deliver(s, machine, event))
  {
    hide Deliver, Consistent, Retained, Fits;
    DeliverConsistent(s, machine, event);
    DeliverCases(s, machine, event);
    if Deliver(s, machine, event) != s {
      var k :| 0 <= k < |log| && log[k] == event.value;
      assert k == s.lastSequence;
      assert log[..k + 1] == log[..k] + [log[k]];
    }
  }

  /** Two reducers fed from one log that stand at the same sequence hold the same assignments. */
  lemma SameSequenceSameRoster(m1: string, m2: string, log: seq<Event>, in1: seq<Input>, in2: seq<Input>)
    requires Numbered(log) && ScheduleOf(log, in1) && ScheduleOf(log, in2)
    requires Run(m1, in1).lastSequence == Run(m2, in2).lastSequence
    ensures Run(m1, in1).assignments == Run(m2, in2).assignments
  {
    StateIsLogPrefix(m1, log, in1);
    StateIsLogPrefix(m2, log, in2);
  }

  // ---------- replay ----------

  /** The log is acceptable in order: a fresh reducer takes all of it. */
  ghost predicate Acceptable(machine: string, log: seq<Event>) {
    forall k :: 0 <= k < |log| ==> Refusal(Played(machine, log[..k]), machine, Some(log[k])).None?
  }

  /** A fresh reducer after an in-order delivery. */
  function Played(machine: string, log: seq<Event>): State {
    if log == [] then EMPTY else Deliver(Played(machine, log[..|log| - 1]), machine, Some(log[|log| - 1]))
  }

  lemma NextPlayed(machine: string, log: seq<Event>, k: nat)
    requires |log| == k + 1 && log[k].sequence == k + 1
    requires Refusal(Played(machine, log[..k]), machine, Some(log[k])).None?
    requires var s := Played(machine, log[..k]); Consistent(s) && s.lastSequence == k && Retained(s) == log[..k]
    ensures var s := Played(machine, log);
            Consistent(s) && s.lastSequence == |log| && Retained(s) == log
  {
    hide Deliver, Consistent, Retained, Refusal, Fits;
    var s := Played(machine, log[..k]);
    DeliverCases(s, machine, Some(log[k]));
    DeliverConsistent(s, machine, Some(log[k]));
    assert log == log[..k] + [log[k]];
  }

  lemma {:induction false} PlayedIsWhole(machine: string, log: seq<Event>)
    requires Numbered(log) && Acceptable(machine, log)
    ensures var s := Played(machine, log);
            Consistent(s) && s.lastSequence == |log| && Retained(s) == log
  {
    if log == [] {
      assert Retained(EMPTY) == [];
    } else {
      hide Deliver, Consistent, Retained, Refusal, Fits;
      var k := |log| - 1;
      AcceptableEvent(machine, log, k);
      hide Acceptable, Numbered;
      PlayedIsWhole(machine, log[..k]);
      NextPlayed(machine, log, k);
    }
  }

  /** The indexes agree with the retained events, so equal retained events mean equal indexes. */
  ghost predicate Indexed(s: State) {
    && (forall k :: k in s.events ==> s.events[k].eventID in s.ids && s.ids[s.events[k].eventID] == k)
    && (forall k :: k in s.events ==> s.events[k].key in s.keys && s.keys[s.events[k].key] == k)
    && (forall x :: x in s.ids ==> s.ids[x] in s.events && s.events[s.ids[x]].eventID == x)
    && (forall x :: x in s.keys ==> s.keys[x] in s.events && s.events[s.keys[x]].key == x)
  }

  lemma DeliverIndexed(s: State, machine: string, event: Option<Event>)
    requires Consistent(s) && Indexed(s)
    ensures Indexed(Deliver(s, machine, event))
  {
    hide Deliver, Fold;
    DeliverCases(s, machine, event);
    if Deliver(s, machine, event) != s { AcceptIndexed(s, event.value); }
  }

  lemma AcceptIndexed(s: State, e: Event)
    requires Consistent(s) && Indexed(s) && e.sequence == s.lastSequence + 1 && Fits(s, e)
    ensures Indexed(Accept(s, e))
  {
    hide Fold, ApplyToRoster;
    assert e.eventID !in s.ids && e.key !in s.keys;
  }

  lemma SameIDs(s: State, t: State)
    requires Indexed(s) && Indexed(t) && s.events == t.events
    ensures s.ids == t.ids
  {
    forall x | x in s.ids ensures x in t.ids && t.ids[x] == s.ids[x] { assert s.ids[x] in t.events; }
    forall x | x in t.ids ensures x in s.ids { assert t.ids[x] in s.events; }
  }

  lemma SameKeys(s: State, t: State)
    requires Indexed(s) && Indexed(t) && s.events == t.events
    ensures s.keys == t.keys
  {
    forall x | x in s.keys ensures x in t.keys && t.keys[x] == s.keys[x] { assert s.keys[x] in t.events; }
    forall x | x in t.keys ensures x in s.keys { assert t.keys[x] in s.events; }
  }

  lemma SameEvents(s: State, t: State)
    requires Consistent(s) && Consistent(t) && Retained(s) == Retained(t)
    ensures s.events == t.events && s.lastSequence == t.lastSequence && s.assignments == t.assignments
  {
    hide Fold;
    assert |Retained(s)| == s.lastSequence && |Retained(t)| == t.lastSequence;
    assert s.events.Keys == t.events.Keys;
    forall k | k in s.events ensures s.events[k] == t.events[k] {
      assert s.events[k] == Retained(s)[k - 1];
      assert t.events[k] == Retained(t)[k - 1];
    }
  }

  lemma SameRetainedSameState(s: State, t: State)
    requires Consistent(s) && Consistent(t) && Indexed(s) && Indexed(t) && Retained(s) == Retained(t)
    ensures s == t.(lastAck := s.lastAck)
  {
    hide Indexed, Fold;
    SameEvents(s, t);
    SameIDs(s, t);
    SameKeys(s, t);
  }

  lemma {:induction false} RunIndexed(machine: string, inputs: seq<Input>)
    ensures Indexed(Run(machine, inputs))
  {
    if inputs != [] {
      RunIndexed(machine, inputs[..|inputs| - 1]);
      EveryRunConsistent(machine, inputs[..|inputs| - 1]);
      var s := Run(machine, inputs[..|inputs| - 1]);
      match inputs[|inputs| - 1] {
        case Event_(e) => DeliverIndexed(s, machine, e);
        case Ack_(_) =>
      }
    }
  }

  lemma {:induction false} PlayedIndexed(machine: string, log: seq<Event>)
    ensures Indexed(Played(machine, log)) && Consistent(Played(machine, log))
  {
    if log == [] {
      assert Retained(EMPTY) == [];
    } else {
      PlayedIndexed(machine, log[..|log| - 1]);
      DeliverConsistent(Played(machine, log[..|log| - 1]), machine, Some(log[|log| - 1]));
      DeliverIndexed(Played(machine, log[..|log| - 1]), machine, Some(log[|log| - 1]));
    }
  }

  /** Feeding events one by one until one is refused. */
  function Replayed(s: State, machine: string, events: seq<Event>): (State, Option<Error>)
    decreases |events|
  {
    if events == [] then (s, None)
    else if Refusal(s, machine, Some(events[0])).Some? then (s, Refusal(s, machine, Some(events[0])))
    else Replayed(Deliver(s, machine, Some(events[0])), machine, events[1..])
  }

  /** From wherever a schedule of the log left a reducer, replaying the log from any earlier point is accepted and brings it
      to the end of the log. */
  lemma {:induction false} ReplayCatchesUp(machine: string, log: seq<Event>, s: State, start: nat)
    requires Numbered(log) && Acceptable(machine, log) && start <= s.lastSequence && AtPrefix(log, s) && Indexed(s)
    ensures var (s', err) := Replayed(s, machine, log[start..]);
            err == None && AtPrefix(log, s') && s'.lastSequence == |log|
    decreases |log| - start
  {
    if start < |log| {
      hide Deliver, Refusal, Indexed, AtPrefix, Acceptable;
      assert log[start..][0] == log[start] && log[start..][1..] == log[start + 1..];
      ReplayStep(machine, log, s, start);
      ReplayCatchesUp(machine, log, Deliver(s, machine, Some(log[start])), start + 1);
    } else {
      assert log[start..] == [];
    }
  }

  lemma ReplayStep(machine: string, log: seq<Event>, s: State, start: nat)
    requires Numbered(log) && Acceptable(machine, log) && start <= s.lastSequence && AtPrefix(log, s) && Indexed(s)
    requires start < |log|
    ensures Refusal(s, machine, Some(log[start])).None?
    ensures var s' := Deliver(s, machine, Some(log[start]));
            AtPrefix(log, s') && Indexed(s') && start + 1 <= s'.lastSequence
  {
    hide Refusal, Deliver, Indexed, AtPrefix, Acceptable, Numbered, Accept;
    var e := log[start];
    AcceptableEvent(machine, log, start);
    if start < s.lastSequence {
      OldAccepted(machine, log, s, start);
    } else {
      NewAccepted(machine, log, s);
    }
    PrefixGrows(machine, log, s, Some(e));
    PrefixConsistent(log, s);
    DeliverIndexed(s, machine, Some(e));
    DeliverCases(s, machine, Some(e));
    if start == s.lastSequence { AcceptAdvances(s, e); }
  }

  lemma AcceptAdvances(s: State, e: Event)
    ensures Accept(s, e).lastSequence == e.sequence
  {
  }

  lemma PrefixConsistent(log: seq<Event>, s: State)
    requires AtPrefix(log, s)
    ensures Consistent(s) && s.lastSequence <= |log|
  {
  }

  /** An event of the log that was applied before is accepted again. */
  lemma OldAccepted(machine: string, log: seq<Event>, s: State, k: nat)
    requires AtPrefix(log, s) && k < s.lastSequence && log[k].sequence == k + 1
    requires ValidateEvent(Some(log[k]), machine).None?
    ensures Refusal(s, machine, Some(log[k])).None?
  {
    hide ValidateEvent, Fits, Fold;
    assert s.events[k + 1] == Retained(s)[k] == log[k];
  }

  /** The next event of an acceptable log is accepted. */
  lemma NewAccepted(machine: string, log: seq<Event>, s: State)
    requires Numbered(log) && Acceptable(machine, log) && AtPrefix(log, s) && Indexed(s) && s.lastSequence < |log|
    ensures Refusal(s, machine, Some(log[s.lastSequence])).None?
  {
    hide Refusal, Indexed, Consistent;
    var k := s.lastSequence;
    AcceptableEvent(machine, log, k);
    PlayedIsWhole(machine, log[..k]);
    PlayedIndexed(machine, log[..k]);
    SameRetainedSameState(s, Played(machine, log[..k]));
    SameRefusal(s, Played(machine, log[..k]), machine, Some(log[k]));
  }

  /** Whether an event is refused does not depend on the acknowledged cursor. */
  lemma SameRefusal(s: State, t: State, machine: string, event: Option<Event>)
    requires s == t.(lastAck := s.lastAck)
    ensures Refusal(s, machine, event) == Refusal(t, machine, event)
  {
    hide ValidateEvent;
  }

  lemma AcceptableEvent(machine: string, log: seq<Event>, k: nat)
    requires Numbered(log) && Acceptable(machine, log) && k < |log|
    ensures ValidateEvent(Some(log[k]), machine).None?
    ensures Numbered(log[..k]) && Acceptable(machine, log[..k]) && log[k].sequence == k + 1
    ensures Refusal(Played(machine, log[..k]), machine, Some(log[k])).None?
  {
    assert forall j :: 0 <= j < k ==> log[..k][..j] == log[..j] && log[..k][j] == log[j];
  }

  // ---------- the acknowledged cursor ----------

  lemma AckStep(s: State, machine: string, i: Input)
    ensures s.lastAck.Some? ==>
              Step(s, machine, i).lastAck.Some? && s.lastAck.value.sequence <= Step(s, machine, i).lastAck.value.sequence
  {
    hide Blank, ValidateEvent, Fits;
  }

  /** From any point of any run on, the cursor never moves back. */
  lemma {:induction false} AckNeverMovesBack(machine: string, inputs: seq<Input>, k: nat)
    requires k <= |inputs| && Run(machine, inputs[..k]).lastAck.Some?
    ensures var was, now := Run(machine, inputs[..k]), Run(machine, inputs);
            now.lastAck.Some? && was.lastAck.value.sequence <= now.lastAck.value.sequence
    decreases |inputs|
  {
    hide Step;
    if k == |inputs| {
      assert inputs[..k] == inputs;
    } else {
      var before := inputs[..|inputs| - 1];
      assert before[..k] == inputs[..k];
      AckNeverMovesBack(machine, before, k);
      AckStep(Run(machine, before), machine, inputs[|inputs| - 1]);
    }
  }

  // ---------- which events a run accepts, in terms of its log ----------

  /** The events a run has taken, in order. */
  ghost function Log(machine: string, inputs: seq<Input>): seq<Event> {
    EveryRunConsistent(machine, inputs);
    Retained(Run(machine, inputs))
  }

  /** log[i] is the last event about its agent and does not remove it. */
  ghost predicate Current(log: seq<Event>, i: nat) {
    i < |log| && !log[i].kind.Remove? && forall j :: i < j < |log| ==> log[j].agent != log[i].agent
  }

  ghost predicate Hosted(log: seq<Event>, agent: string) { exists i: nat :: Current(log, i) && log[i].agent == agent }

  /** The event names everything its kind needs, and the reducer's own machine. */
  ghost predicate WellFormed(machine: string, e: Event) {
    && !Blank(machine) && e.machine == machine
    && !Blank(e.agent) && !Blank(e.eventID) && !Blank(e.key) && e.sequence > 0 && e.createdAt.Some?
    && (e.kind.Create? || e.kind.ConfigUpdate? || e.kind.Remove?)
    && (e.kind.Remove? <==> e.config.None?)
    && (e.config.Some? ==>
          !Blank(e.config.value.revision) && !Blank(e.config.value.payloadReference) && !Blank(e.config.value.payloadDigest))
  }

  ghost predicate Unused(log: seq<Event>, e: Event) {
    forall i :: 0 <= i < |log| ==> log[i].eventID != e.eventID && log[i].key != e.key
  }

  lemma ValidIffWellFormed(machine: string, e: Event)
    ensures ValidateEvent(Some(e), machine).None? <==> WellFormed(machine, e)
    ensures ValidateEvent(Some(e), machine) == Some(MachineMismatch) <==> Blank(machine) || e.machine != machine
    ensures ValidateEvent(Some(e), machine) in [None, Some(MachineMismatch), Some(InvalidEvent)]
  {
    hide Blank;
  }

  lemma CurrentSnoc(log: seq<Event>, e: Event, i: nat)
    ensures i < |log| ==> (Current(log + [e], i) <==> Current(log, i) && log[i].agent != e.agent)
    ensures Current(log + [e], |log|) <==> !e.kind.Remove?
  {
    var t := log + [e];
    assert forall j :: 0 <= j < |log| ==> t[j] == log[j];
    if i < |log| { assert t[|log|] == e; }
  }

  lemma HostedSnoc(log: seq<Event>, e: Event, agent: string)
    ensures Hosted(log + [e], agent) <==> if e.agent == agent then !e.kind.Remove? else Hosted(log, agent)
  {
    CurrentSnoc(log, e, |log|);
    forall i: nat | i < |log| ensures Current(log + [e], i) <==> Current(log, i) && log[i].agent != e.agent {
      CurrentSnoc(log, e, i);
    }
    if e.agent == agent {
      if !e.kind.Remove? { assert Current(log + [e], |log|); }
    } else if Hosted(log, agent) {
      var i: nat :| Current(log, i) && log[i].agent == agent;
      assert Current(log + [e], i);
    }
  }

  /** The assignments are the agents whose last event does not remove them, each with the configuration of that event. */
  lemma {:induction false} RosterIsLatest(log: seq<Event>, agent: string)
    requires forall i :: 0 <= i < |log| ==> (log[i].kind.Remove? <==> log[i].config.None?)
    ensures agent in Fold(log) <==> Hosted(log, agent)
    ensures forall i: nat :: Current(log, i) && log[i].agent == agent ==>
              agent in Fold(log) && Some(Fold(log)[agent]) == log[i].config
  {
    if log != [] {
      var init, e := log[..|log| - 1], log[|log| - 1];
      assert log == init + [e];
      assert forall i :: 0 <= i < |init| ==> init[i] == log[i];
      RosterIsLatest(init, agent);
      hide Hosted, Current;
      HostedSnoc(init, e, agent);
      forall i: nat | Current(log, i) && log[i].agent == agent ensures agent in Fold(log) && Some(Fold(log)[agent]) == log[i].config {
        CurrentSnoc(init, e, i);
        CurrentInside(log, i);
      }
    }
  }

  lemma CurrentInside(log: seq<Event>, i: nat)
    requires Current(log, i)
    ensures i < |log|
  {
  }

  ghost predicate AllWellFormed(s: State, machine: string) { forall k :: k in s.events ==> WellFormed(machine, s.events[k]) }

  lemma {:induction false} RunWellFormed(machine: string, inputs: seq<Input>)
    ensures AllWellFormed(Run(machine, inputs), machine)
  {
    if inputs != [] {
      hide Blank, WellFormed, ValidateEvent, Fits;
      RunWellFormed(machine, inputs[..|inputs| - 1]);
      match inputs[|inputs| - 1] {
        case Event_(e) => if e.Some? { ValidIffWellFormed(machine, e.value); }
        case Ack_(_) =>
      }
    }
  }

  lemma LogFacts(machine: string, inputs: seq<Input>)
    ensures var s, log := Run(machine, inputs), Log(machine, inputs);
            && |log| == s.lastSequence && s.assignments == Fold(log)
            && (forall i :: 0 <= i < |log| ==>
                  i + 1 in s.events && log[i] == s.events[i + 1] && WellFormed(machine, log[i]) && log[i].sequence == i + 1)
            && (forall k :: k in s.events <==> 1 <= k <= |log|)
  {
    EveryRunConsistent(machine, inputs);
    RunWellFormed(machine, inputs);
    hide Fold, WellFormed;
  }

  lemma UnusedIff(s: State, log: seq<Event>, e: Event)
    requires Indexed(s) && |log| == s.lastSequence < e.sequence
    requires forall i :: 0 <= i < |log| ==> i + 1 in s.events && log[i] == s.events[i + 1]
    requires forall k :: k in s.events <==> 1 <= k <= |log|
    ensures Unused(log, e) <==>
              (e.eventID in s.ids ==> s.ids[e.eventID] == e.sequence) && (e.key in s.keys ==> s.keys[e.key] == e.sequence)
  {
    if e.eventID in s.ids { assert log[s.ids[e.eventID] - 1].eventID == e.eventID; }
    if e.key in s.keys { assert log[s.keys[e.key] - 1].key == e.key; }
  }

  /** The next event of a run: ids not used before; a creation for an agent that is not hosted, and any other kind for one
      that is. */
  ghost predicate Follows(log: seq<Event>, e: Event) {
    e.sequence == |log| + 1 && Unused(log, e) && (e.kind.Create? <==> !Hosted(log, e.agent))
  }

  /** In every run an event is accepted exactly when it repeats an event of the log, or is well formed and follows the log;
      for a refused one the answer names the machine, a gap, or else an invalid event, and never a regression. */
  lemma AcceptedIff(machine: string, inputs: seq<Input>, e: Event)
    ensures var log := Log(machine, inputs);
            var answer := Refusal(Run(machine, inputs), machine, Some(e));
            && (answer.None? <==> e in log || (WellFormed(machine, e) && Follows(log, e)))
            && (answer == Some(MachineMismatch) <==> Blank(machine) || e.machine != machine)
            && (answer == Some(SequenceGap) <==> WellFormed(machine, e) && e.sequence > |log| + 1)
            && answer in [None, Some(MachineMismatch), Some(SequenceGap), Some(InvalidEvent)]
  {
    var s, log := Run(machine, inputs), Log(machine, inputs);
    LogFacts(machine, inputs);
    ValidIffWellFormed(machine, e);
    RunIndexed(machine, inputs);
    if e in log {
      var i :| 0 <= i < |log| && log[i] == e;
      assert s.events[e.sequence] == e;
      assert e.machine == machine && !Blank(machine);
    }
    if WellFormed(machine, e) {
      WellFormedEvent(machine, inputs, e);
    }
  }

  lemma WellFormedEvent(machine: string, inputs: seq<Input>, e: Event)
    requires WellFormed(machine, e)
    ensures var log := Log(machine, inputs);
            var answer := Refusal(Run(machine, inputs), machine, Some(e));
            && (answer.None? <==> e in log || Follows(log, e))
            && (answer == Some(SequenceGap) <==> e.sequence > |log| + 1)
            && answer in [None, Some(SequenceGap), Some(InvalidEvent)]
  {
    var s, log := Run(machine, inputs), Log(machine, inputs);
    LogFacts(machine, inputs);
    ValidIffWellFormed(machine, e);
    RunIndexed(machine, inputs);
    RosterOfRun(machine, inputs, e.agent);
    hide ValidateEvent, Blank, Hosted, Log, Run, Fold, Indexed;
    if e.sequence <= |log| {
      assert log[e.sequence - 1] == s.events[e.sequence];
    } else {
      UnusedIff(s, log, e);
      hide Unused;
    }
  }

  /** What an agent is assigned in a run, read off the run's log. */
  lemma RosterOfRun(machine: string, inputs: seq<Input>, agent: string)
    ensures var log, r := Log(machine, inputs), Run(machine, inputs).assignments;
            && (agent in r <==> Hosted(log, agent))
            && forall i: nat :: Current(log, i) && log[i].agent == agent ==> agent in r && Some(r[agent]) == log[i].config
  {
    LogFacts(machine, inputs);
    RosterIsLatest(Log(machine, inputs), agent);
  }

  /** An acknowledgement is accepted exactly when it is for this machine, names an event of the log by number, id and key
      (or no event, before the first), and is not behind the last accepted one. */
  lemma AckAcceptedIff(machine: string, inputs: seq<Input>, ack: Ack)
    ensures var log, last := Log(machine, inputs), Run(machine, inputs).lastAck;
            AckRefusal(Run(machine, inputs), machine, Some(ack)).None? <==>
              !Blank(machine) && ack.machine == machine && ack.through.Some? &&
              var c := ack.through.value;
              (if log == [] then c == Cursor(0, "", "")
               else 1 <= c.sequence <= |log| && c.eventID == log[c.sequence - 1].eventID && c.key == log[c.sequence - 1].key) &&
              (last.Some? ==> last.value.sequence <= c.sequence)
  {
    LogFacts(machine, inputs);
    EveryRunConsistent(machine, inputs);
    hide Blank, WellFormed, Fold, Log, Run;
  }

  /** The log grows by exactly the accepted events that it does not hold yet. */
  lemma LogGrows(machine: string, inputs: seq<Input>, i: Input)
    ensures var log := Log(machine, inputs);
            Log(machine, inputs + [i]) ==
              if i.Event_? && i.event.Some? && WellFormed(machine, i.event.value) && Follows(log, i.event.value)
              then log + [i.event.value]
              else log
  {
    var s, log := Run(machine, inputs), Log(machine, inputs);
    assert (inputs + [i])[..|inputs|] == inputs;
    LogFacts(machine, inputs);
    EveryRunConsistent(machine, inputs);
    hide Consistent, WellFormed, Refusal, Deliver, Acknowledged, Fits, Unused, Hosted, Fold;
    match i {
      case Event_(event) =>
        DeliverConsistent(s, machine, event);
        DeliverCases(s, machine, event);
        if event.Some? {
          AcceptedIff(machine, inputs, event.value);
        }
      case Ack_(ack) => AckConsistent(s, machine, ack);
    }
  }

  // ---------- the roster revision ----------

  /** The text that FullRosterRevision hashes, for a given order of the agents. */
  function RosterText(r: Roster, ids: seq<string>): string
    requires forall id :: id in ids ==> id in r
  {
    if ids == [] then "" else RosterText(r, ids[..|ids| - 1]) + ids[|ids| - 1] + "=" + r[ids[|ids| - 1]].revision + ";"
  }

  ghost predicate SortedIDs(r: Roster, ids: seq<string>) {
    Ascending(ids, Less) && forall id :: id in ids <==> id in r
  }

  lemma LessIsStrictOrder()
    ensures StrictOrder(Less)
  {
    forall x ensures !Less(x, x) { LessIrreflexive(x); }
    forall x, y, z | Less(x, y) && Less(y, z) ensures Less(x, z) { LessTransitive(x, y, z); }
  }

  /** The order of the agents is determined, so the revision depends on the assignments alone. */
  lemma RevisionDetermined(r: Roster, a: seq<string>, b: seq<string>)
    requires SortedIDs(r, a) && SortedIDs(r, b)
    ensures a == b && RosterText(r, a) == RosterText(r, b)
  {
    LessIsStrictOrder();
    AscendingUnique(a, b, Less);
  }

  /** So two reducers of one log that stand at the same sequence also agree on the roster revision. */
  lemma SameSequenceSameRevision(m1: string, m2: string, log: seq<Event>, in1: seq<Input>, in2: seq<Input>,
                                 a: seq<string>, b: seq<string>)
    requires Numbered(log) && ScheduleOf(log, in1) && ScheduleOf(log, in2)
    requires Run(m1, in1).lastSequence == Run(m2, in2).lastSequence
    requires SortedIDs(Run(m1, in1).assignments, a) && SortedIDs(Run(m2, in2).assignments, b)
    ensures RosterText(Run(m1, in1).assignments, a) == RosterText(Run(m2, in2).assignments, b)
  {
    hide Run, RosterText, SortedIDs;
    SameSequenceSameRoster(m1, m2, log, in1, in2);
    RevisionDetermined(Run(m1, in1).assignments, a, b);
  }

  class Reducer {
    const machine: string
    var lastSequence: nat
    var lastAcknowledged: Option<Cursor>
    var eventsBySequence: map<nat, Event>
    var eventIDs: map<string, nat>
    var idempotencyKeys: map<string, nat>
    var assignments: Roster

    ghost function View(): State
      reads this
    {
      State(lastSequence, lastAcknowledged, eventsBySequence, eventIDs, idempotencyKeys, assignments)
    }

    constructor (machine: string)
      ensures this.machine == machine && View() == EMPTY
    {
      this.machine := machine;
      lastSequence, lastAcknowledged := 0, None;
      eventsBySequence, eventIDs, idempotencyKeys, assignments := map[], map[], map[], map[];
    }

    method ApplyEvent(event: Option<Event>) returns (err: Option<Error>)
      modifies this
      ensures err == Refusal(old(View()), machine, event)
      ensures View() == Deliver(old(View()), machine, event)
    {
      hide Blank;
      var invalid := ValidateEvent(event, machine);
      if invalid.Some? { return invalid; }
      var e := event.value;
      var sequence := e.sequence;
      if sequence <= lastSequence {
        if sequence !in eventsBySequence { return Some(SequenceRegression); }
        if eventsBySequence[sequence] != e { return Some(InvalidEvent); }
        return None;
      }
      if sequence != lastSequence + 1 { return Some(SequenceGap); }
      if e.eventID in eventIDs && eventIDs[e.eventID] != sequence { return Some(InvalidEvent); }
      if e.key in idempotencyKeys && idempotencyKeys[e.key] != sequence { return Some(InvalidEvent); }
      match e.kind {
        case Create =>
          if e.agent in assignments { return Some(InvalidEvent); }
          assignments := assignments[e.agent := e.config.value];
        case ConfigUpdate =>
          if e.agent !in assignments { return Some(InvalidEvent); }
          assignments := assignments[e.agent := e.config.value];
        case Remove =>
          if e.agent !in assignments { return Some(InvalidEvent); }
          assignments := assignments - {e.agent};
        case Unsupported =>
          return Some(InvalidEvent);
      }
      eventsBySequence := eventsBySequence[sequence := e];
      eventIDs := eventIDs[e.eventID := sequence];
      idempotencyKeys := idempotencyKeys[e.key := sequence];
      lastSequence := sequence;
      return None;
    }

    method ApplyReplay(events: seq<Event>) returns (err: Option<Error>)
      modifies this
      ensures (View(), err) == Replayed(old(View()), machine, events)
    {
      for i := 0 to |events|
        invariant Replayed(old(View()), machine, events) == Replayed(View(), machine, events[i..])
      {
        err := ApplyEvent(Some(events[i]));
        assert events[i..][1..] == events[i + 1..];
        if err.Some? { return err; }
      }
      err := None;
    }

    method Acknowledge(ack: Option<Ack>) returns (err: Option<Error>)
      modifies `lastAcknowledged
      ensures err == AckRefusal(old(View()), machine, ack)
      ensures View() == Acknowledged(old(View()), machine, ack)
    {
      if ack.None? || Blank(ack.value.machine) { return Some(InvalidEvent); }
      if ack.value.machine != machine { return Some(MachineMismatch); }
      if ack.value.through.None? { return Some(InvalidEvent); }
      var cursor := ack.value.through.value;
      if cursor.sequence == 0 {
        if lastSequence != 0 { return Some(AckMismatch); }
        if cursor.eventID != "" || cursor.key != "" { return Some(AckMismatch); }
      } else {
        if cursor.sequence > lastSequence { return Some(AckMismatch); }
        if cursor.sequence !in eventsBySequence || eventsBySequence[cursor.sequence].eventID != cursor.eventID ||
           eventsBySequence[cursor.sequence].key != cursor.key {
          return Some(AckMismatch);
        }
      }
      if lastAcknowledged.Some? {
        if cursor.sequence < lastAcknowledged.value.sequence { return Some(AckRegression); }
        if cursor.sequence == lastAcknowledged.value.sequence && lastAcknowledged.value != cursor { return Some(AckMismatch); }
      }
      lastAcknowledged := Some(cursor);
      return None;
    }

    /** The map is walked in an arbitrary order and the ids are then sorted. */
    method ActiveAgentIDs() returns (ids: seq<string>)
      ensures SortedIDs(assignments, ids)
    {
      var walked := [];
      var remaining := assignments.Keys;
      while remaining != {}
        invariant remaining <= assignments.Keys
        invariant Distinct(walked) && forall id :: id in walked <==> id in assignments && id !in remaining
      {
        var id :| id in remaining;
        walked := walked + [id];
        remaining := remaining - {id};
      }
      ids := Sort(walked, Less);
      LessIsStrictOrder();
      forall x, y | x in walked && y in walked && x != y ensures Less(x, y) || Less(y, x) { LessTotal(x, y); }
      SortAscending(walked, Less);
      SameMultisetSameElements(ids, walked);
    }

    method FullRosterText() returns (text: string, ids: seq<string>)
      ensures SortedIDs(assignments, ids) && text == RosterText(assignments, ids)
    {
      ids := ActiveAgentIDs();
      text := "";
      for i := 0 to |ids|
        invariant text == RosterText(assignments, ids[..i])
      {
        assert ids[..i + 1][..i] == ids[..i];
        text := text + ids[i];
        text := text + "=";
        text := text + assignments[ids[i]].revision;
        text := text + ";";
      }
      assert ids[..|ids|] == ids;
    }
  }
}
