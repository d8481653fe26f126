/** events.go: a subscriber registers a bounded live buffer, then replays a snapshot of the durable log, then drains the
    buffer, dropping whatever its sequence number shows it has already yielded. Appends, publishes and the subscriber's
    steps interleave freely. */
module EventStream {
  const HISTORY_LIMIT := 500
  const BUFFER_SLOTS := 64

  datatype Event = Event(sequence: nat, terminal: bool, payload: string)

  // ---------- what the pieces compute ----------

  ghost predicate Increasing(rows: seq<Event>) {
    forall i, j :: 0 <= i < j < |rows| ==> rows[i].sequence < rows[j].sequence
  }

  /** The rows after a sequence number, in log order. */
  function After(from: nat, rows: seq<Event>): seq<Event> {
    if rows == [] then []
    else After(from, rows[..|rows| - 1]) + (if rows[|rows| - 1].sequence > from then [rows[|rows| - 1]] else [])
  }

  /** ListWorkEvents: the first rows after `from`, up to the limit. */
  function Snapshot(from: nat, rows: seq<Event>): seq<Event> {
    var all := After(from, rows);
    if |all| <= HISTORY_LIMIT then all else all[..HISTORY_LIMIT]
  }

  /** The non-blocking send to one subscriber: a full buffer drops the item. */
  function Offered(buffer: seq<Event>, item: Event): seq<Event> {
    if |buffer| < BUFFER_SLOTS then buffer + [item] else buffer
  }

  /** What the sequence filter lets through of a stream of items, starting after `last`. */
  function Fresh(items: seq<Event>, last: nat): seq<Event>
    decreases |items|
  {
    if items == [] then []
    else if items[0].sequence > last then [items[0]] + Fresh(items[1..], items[0].sequence)
    else Fresh(items[1..], last)
  }

  function LastSequence(rows: seq<Event>, from: nat): nat {
    if rows == [] then from else rows[|rows| - 1].sequence
  }

  ghost predicate NoTerminal(rows: seq<Event>) { forall i :: 0 <= i < |rows| ==> !rows[i].terminal }

  // ---------- the imperative pieces ----------

  class Subscription {
    var buffer: seq<Event>
    constructor ()
      ensures buffer == []
    {
      buffer := [];
    }
  }

  class WorkChannel {
    var subscribers: set<Subscription>

    constructor ()
      ensures subscribers == {}
    {
      subscribers := {};
    }

    /** Every live subscriber is offered the item; none blocks the others. */
    method Publish(item: Event)
      modifies subscribers
      ensures forall sub :: sub in subscribers ==> sub.buffer == Offered(old(sub.buffer), item)
    {
      forall sub | sub in subscribers {
        sub.buffer := if |sub.buffer| < BUFFER_SLOTS then sub.buffer + [item] else sub.buffer;
      }
    }
  }

  /** The replay loop: rows are yielded up to and including the first terminal one. */
  method Replay(hist: seq<Event>, from: nat) returns (yielded: seq<Event>, last: nat, ended: bool)
    ensures yielded <= hist && last == LastSequence(yielded, from)
    ensures ended ==> yielded != [] && yielded[|yielded| - 1].terminal && NoTerminal(yielded[..|yielded| - 1])
    ensures !ended ==> yielded == hist && NoTerminal(yielded)
  {
    yielded, last := [], from;
    for i := 0 to |hist|
      invariant yielded == hist[..i] && last == LastSequence(yielded, from) && NoTerminal(yielded)
    {
      assert hist[..i + 1] == hist[..i] + [hist[i]];
      yielded := hist[..i + 1];
      last := hist[i].sequence;
      if hist[i].terminal {
        assert yielded[..i] == hist[..i];
        return yielded, last, true;
      }
    }
    assert hist[..|hist|] == hist;
    ended := false;
  }

  /** The drain loop over the items that are in the buffer. */
  method Drain(buffer: seq<Event>, last0: nat) returns (yielded: seq<Event>, last: nat, ended: bool, taken: nat)
    ensures taken <= |buffer| && yielded == Fresh(buffer[..taken], last0) && last == LastSequence(yielded, last0)
    ensures ended ==> yielded != [] && yielded[|yielded| - 1].terminal && NoTerminal(yielded[..|yielded| - 1])
    ensures !ended ==> taken == |buffer| && NoTerminal(yielded)
  {
    yielded, last := [], last0;
    for i := 0 to |buffer|
      invariant yielded == Fresh(buffer[..i], last0) && last == LastSequence(yielded, last0) && NoTerminal(yielded)
    {
      var item := buffer[i];
      assert buffer[..i + 1] == buffer[..i] + [item];
      FreshSnoc(buffer[..i], item, last0);
      if item.sequence > last {
        ghost var before := yielded;
        yielded := yielded + [item];
        last := item.sequence;
        if item.terminal {
          assert yielded[..|yielded| - 1] == before;
          return yielded, last, true, i + 1;
        }
      }
    }
    ended, taken := false, |buffer|;
  }

  lemma {:induction false} FreshSnoc(items: seq<Event>, x: Event, last: nat)
    ensures Fresh(items + [x], last) ==
            Fresh(items, last) + (if x.sequence > LastSequence(Fresh(items, last), last) then [x] else [])
    decreases |items|
  {
    if items == [] {
      assert [] + [x] == [x];
    } else {
      assert (items + [x])[1..] == items[1..] + [x];
      FreshSnoc(items[1..], x, if items[0].sequence > last then items[0].sequence else last);
    }
  }

  // ---------- interleavings ----------

  datatype Phase = Idle | Registered | Replaying | Draining | Done | Aborted

  /** `sent` holds the events published for log rows, in order; `hist[..shown]` has been yielded from the snapshot and
      `popped` has been taken from the buffer. `registeredAt` and `snapshotAt` remember how much had been published at
      registration and appended at the snapshot; `left` is set when the consumer goes away. */
  datatype State = State(log: seq<Event>, sent: seq<Event>, phase: Phase, left: bool, hist: seq<Event>, shown: nat,
                         popped: seq<Event>, buffer: seq<Event>, last: nat, yielded: seq<Event>,
                         registeredAt: nat, snapshotAt: nat)

  /** Publish sends an event under the number of a row that has been appended; the event need not be what the row would
      be replayed as, and rows can be passed over. Stray is a publish whose number is not a new one. */
  datatype Action = Append(row: Event) | Publish(item: Event) | Stray(item: Event) | Register | TakeSnapshot |
                    FailSnapshot | ShowRow | StartDrain | DrainOne | Leave

  predicate Listening(s: State) { !s.left && (s.phase.Registered? || s.phase.Replaying? || s.phase.Draining?) }

  function Receive(s: State, item: Event): State {
    if Listening(s) then s.(buffer := Offered(s.buffer, item)) else s
  }

  function Yield(s: State, e: Event): State {
    s.(yielded := s.yielded + [e], last := e.sequence, phase := if e.terminal then Done else s.phase)
  }

  function Start(from: nat): State { State([], [], Idle, false, [], 0, [], [], from, [], 0, 0) }

  function TakeItem(s: State): State
    requires s.buffer != []
  {
    var item := s.buffer[0];
    var s' := s.(buffer := s.buffer[1..], popped := s.popped + [item]);
    if item.sequence <= s.last then s' else Yield(s', item)
  }

  /** Producers append before they publish, and number what they publish in order. */
  predicate Due(s: State, item: Event) {
    LastSequence(s.sent, 0) < item.sequence && exists i :: 0 <= i < |s.log| && s.log[i].sequence == item.sequence
  }

  /** One step; an action that is not possible does nothing. Rows are appended with growing sequence numbers. */
  function Step(from: nat, s: State, a: Action): State {
    match a
    case Append(row) => if row.sequence > LastSequence(s.log, 0) then s.(log := s.log + [row]) else s
    case Publish(item) =>
      if Due(s, item) then Receive(s, item).(sent := s.sent + [item]) else s
    case Stray(item) => Receive(s, item)
    case Register => if s.phase.Idle? && !s.left then s.(phase := Registered, registeredAt := |s.sent|) else s
    case TakeSnapshot =>
      if s.phase.Registered? && !s.left then
        s.(phase := Replaying, hist := Snapshot(from, s.log), snapshotAt := |s.log|)
      else s
    case FailSnapshot => if s.phase.Registered? && !s.left then s.(phase := Aborted) else s
    case ShowRow =>
      if s.phase.Replaying? && !s.left && s.shown < |s.hist| then Yield(s, s.hist[s.shown]).(shown := s.shown + 1) else s
    case StartDrain => if s.phase.Replaying? && !s.left && s.shown == |s.hist| then s.(phase := Draining) else s
    case DrainOne => if s.phase.Draining? && !s.left && s.buffer != [] then TakeItem(s) else s
    case Leave => s.(left := true)
  }

  function Run(from: nat, actions: seq<Action>): State {
    if actions == [] then Start(from) else Step(from, Run(from, actions[..|actions| - 1]), actions[|actions| - 1])
  }

  // ---------- what every run keeps ----------

  ghost predicate LogOk(s: State) {
    && Increasing(s.log) && Increasing(s.sent) && s.registeredAt <= |s.sent|
    && LastSequence(s.sent, 0) <= LastSequence(s.log, 0)
  }

  ghost predicate SnapshotOk(from: nat, s: State)
    requires s.registeredAt <= |s.sent|
  {
    if s.phase.Idle? || s.phase.Registered? || s.phase.Aborted? then
      s.hist == [] && s.shown == 0 && s.popped == [] && (s.phase.Idle? ==> s.buffer == [])
    else
      && s.snapshotAt <= |s.log| && LastSequence(s.sent[..s.registeredAt], 0) <= LastSequence(s.log[..s.snapshotAt], 0)
      && s.hist == Snapshot(from, s.log[..s.snapshotAt])
      && s.shown <= |s.hist| && (s.phase.Replaying? ==> s.popped == [])
      && (s.phase.Draining? || s.popped != [] ==> s.shown == |s.hist|)
  }

  /** The stream is always the shown part of the snapshot followed by what the filter lets through of the popped items,
      and only its last event can be terminal. */
  ghost predicate StreamOk(from: nat, s: State) {
    && s.shown <= |s.hist|
    && s.yielded == s.hist[..s.shown] + Fresh(s.popped, LastSequence(s.hist, from))
    && s.last == LastSequence(s.yielded, from)
    && (s.phase.Done? ==>
          s.yielded != [] && s.yielded[|s.yielded| - 1].terminal && NoTerminal(s.yielded[..|s.yielded| - 1]))
    && (!s.phase.Done? ==> NoTerminal(s.yielded))
  }

  ghost predicate Inv(from: nat, s: State) { LogOk(s) && SnapshotOk(from, s) && StreamOk(from, s) }

  lemma LastOfJoined(a: seq<Event>, b: seq<Event>, from: nat)
    ensures LastSequence(a + b, from) == LastSequence(b, LastSequence(a, from))
  {
  }

  lemma IncreasingSnoc(rows: seq<Event>, row: Event)
    requires Increasing(rows) && row.sequence > LastSequence(rows, 0)
    ensures Increasing(rows + [row])
  {
  }

  lemma IncreasingPrefix(rows: seq<Event>, n: nat)
    requires Increasing(rows) && n <= |rows|
    ensures Increasing(rows[..n]) && LastSequence(rows[..n], 0) <= LastSequence(rows, 0)
  {
  }

  lemma AppendInv(from: nat, s: State, row: Event)
    requires Inv(from, s)
    ensures Inv(from, Step(from, s, Append(row)))
  {
    hide Snapshot, Fresh, Increasing;
    if row.sequence > LastSequence(s.log, 0) {
      IncreasingSnoc(s.log, row);
      if s.snapshotAt <= |s.log| { assert (s.log + [row])[..s.snapshotAt] == s.log[..s.snapshotAt]; }
    }
  }

  lemma ShowRowInv(from: nat, s: State)
    requires Inv(from, s)
    ensures Inv(from, Step(from, s, ShowRow))
  {
    hide Snapshot, Increasing, Fresh;
    NothingFresh(LastSequence(s.hist, from));
    var s' := Step(from, s, ShowRow);
    if s.phase.Replaying? && !s.left && s.shown < |s.hist| {
      var row := s.hist[s.shown];
      assert s.hist[..s.shown + 1] == s.hist[..s.shown] + [row];
      assert s'.yielded[..|s'.yielded| - 1] == s.yielded;
    }
  }

  lemma DrainOneInv(from: nat, s: State)
    requires Inv(from, s)
    ensures Inv(from, Step(from, s, DrainOne))
  {
    hide Snapshot, Fresh, Increasing;
    var s' := Step(from, s, DrainOne);
    if s.phase.Draining? && !s.left && s.buffer != [] {
      var item, bound := s.buffer[0], LastSequence(s.hist, from);
      assert s.hist[..s.shown] == s.hist;
      LastOfJoined(s.hist, Fresh(s.popped, bound), from);
      FreshSnoc(s.popped, item, bound);
      if item.sequence > s.last {
        assert s'.yielded == s.hist + (Fresh(s.popped, bound) + [item]);
        assert s'.yielded[..|s'.yielded| - 1] == s.yielded;
      }
    }
  }

  lemma TakeSnapshotInv(from: nat, s: State)
    requires Inv(from, s)
    ensures Inv(from, Step(from, s, TakeSnapshot))
  {
    hide Snapshot, Fresh, Increasing;
    assert s.log[..|s.log|] == s.log;
    IncreasingPrefix(s.sent, s.registeredAt);
    NothingFresh(LastSequence(s.hist, from));
    NothingFresh(LastSequence(Snapshot(from, s.log), from));
  }

  lemma DueInOrder(s: State, item: Event)
    requires Increasing(s.log) && Due(s, item)
    ensures item.sequence <= LastSequence(s.log, 0)
  {
  }

  lemma PublishInv(from: nat, s: State, item: Event)
    requires Inv(from, s)
    ensures Inv(from, Step(from, s, Publish(item)))
  {
    hide Snapshot, Fresh, Offered, Increasing, Due;
    if Due(s, item) {
      DueInOrder(s, item);
      DueIsNext(s, item);
      IncreasingSnoc(s.sent, item);
      assert (s.sent + [item])[..s.registeredAt] == s.sent[..s.registeredAt];
    }
  }

  lemma DueIsNext(s: State, item: Event)
    requires Due(s, item)
    ensures item.sequence > LastSequence(s.sent, 0)
  {
  }

  lemma StrayInv(from: nat, s: State, item: Event)
    requires Inv(from, s)
    ensures Inv(from, Step(from, s, Stray(item)))
  {
    hide Snapshot, Fresh, Offered, Increasing;
  }

  lemma OtherInv(from: nat, s: State, a: Action)
    requires Inv(from, s) && (a.Register? || a.FailSnapshot? || a.StartDrain? || a.Leave?)
    ensures Inv(from, Step(from, s, a))
  {
    hide Snapshot, Fresh, LastSequence, Increasing;
  }

  lemma {:induction false} EveryRun(from: nat, actions: seq<Action>)
    ensures Inv(from, Run(from, actions))
  {
    if actions == [] {
      NothingFresh(from);
    } else {
      hide Inv, Step;
      var s, a := Run(from, actions[..|actions| - 1]), actions[|actions| - 1];
      EveryRun(from, actions[..|actions| - 1]);
      match a {
        case Append(row) => AppendInv(from, s, row);
        case ShowRow => ShowRowInv(from, s);
        case DrainOne => DrainOneInv(from, s);
        case TakeSnapshot => TakeSnapshotInv(from, s);
        case Publish(item) => PublishInv(from, s, item);
        case Stray(item) => StrayInv(from, s, item);
        case Register | FailSnapshot | StartDrain | Leave => OtherInv(from, s, a);
      }
    }
  }

  lemma NothingFresh(last: nat)
    ensures Fresh([], last) == []
  {
  }

  // ---------- order, and nothing twice ----------

  lemma {:induction false} AfterMembers(from: nat, rows: seq<Event>)
    ensures forall e :: e in After(from, rows) <==> e in rows && e.sequence > from
  {
    if rows != [] {
      AfterMembers(from, rows[..|rows| - 1]);
      assert rows == rows[..|rows| - 1] + [rows[|rows| - 1]];
    }
  }

  lemma {:induction false} AfterFacts(from: nat, rows: seq<Event>)
    requires Increasing(rows)
    ensures Increasing(After(from, rows))
    ensures forall e :: e in After(from, rows) <==> e in rows && e.sequence > from
  {
    AfterMembers(from, rows);
    if rows != [] {
      var init, e := rows[..|rows| - 1], rows[|rows| - 1];
      AfterFacts(from, init);
      var kept := After(from, init);
      forall i | 0 <= i < |kept| ensures kept[i].sequence < e.sequence {
        assert kept[i] in init;
        var k :| 0 <= k < |init| && init[k] == kept[i];
        assert rows[k] == kept[i];
      }
    }
  }

  lemma {:induction false} FreshFacts(items: seq<Event>, last: nat)
    ensures Increasing(Fresh(items, last))
    ensures forall e :: e in Fresh(items, last) ==> e in items && e.sequence > last
    decreases |items|
  {
    if items != [] {
      FreshFacts(items[1..], if items[0].sequence > last then items[0].sequence else last);
    }
  }

  /** In every run whatsoever the stream is strictly increasing, starts after `from`, and ends at its first terminal
      event. */
  lemma InOrderOnce(from: nat, actions: seq<Action>)
    ensures var s := Run(from, actions);
            && Increasing(s.yielded)
            && (forall i :: 0 <= i < |s.yielded| ==> s.yielded[i].sequence > from)
            && (forall i :: 0 <= i < |s.yielded| - 1 ==> !s.yielded[i].terminal)
            && (s.phase.Done? <==> s.yielded != [] && s.yielded[|s.yielded| - 1].terminal)
  {
    hide Run, Inv;
    EveryRun(from, actions);
    StreamIncreasing(from, Run(from, actions));
    StreamEnds(from, Run(from, actions));
  }

  lemma StreamIncreasing(from: nat, s: State)
    requires Inv(from, s)
    ensures Increasing(s.yielded) && forall i :: 0 <= i < |s.yielded| ==> s.yielded[i].sequence > from
  {
    var bound := LastSequence(s.hist, from);
    FreshFacts(s.popped, bound);
    HistoryFacts(from, s);
    IncreasingPrefix(s.hist, s.shown);
    hide Fresh, LastSequence, SnapshotOk, LogOk, Increasing, NoTerminal;
    JoinIncreasing(s.hist[..s.shown], Fresh(s.popped, bound), from, bound);
  }

  lemma StreamEnds(from: nat, s: State)
    requires Inv(from, s)
    ensures forall i :: 0 <= i < |s.yielded| - 1 ==> !s.yielded[i].terminal
    ensures s.phase.Done? <==> s.yielded != [] && s.yielded[|s.yielded| - 1].terminal
  {
    hide Fresh, LastSequence, SnapshotOk, LogOk;
    if s.phase.Done? {
      var n := |s.yielded| - 1;
      assert forall i :: 0 <= i < n ==> s.yielded[..n][i] == s.yielded[i];
    }
  }

  lemma JoinIncreasing(a: seq<Event>, b: seq<Event>, from: nat, bound: nat)
    requires Increasing(a) && Increasing(b) && from <= bound
    requires forall i :: 0 <= i < |a| ==> from < a[i].sequence <= bound
    requires forall e :: e in b ==> e.sequence > bound
    ensures Increasing(a + b) && forall i :: 0 <= i < |a + b| ==> (a + b)[i].sequence > from
  {
    forall i, j | 0 <= i < j < |a + b| ensures (a + b)[i].sequence < (a + b)[j].sequence {
      if j >= |a| { assert b[j - |a|] in b; }
    }
  }

  lemma HistoryFacts(from: nat, s: State)
    requires Inv(from, s)
    ensures Increasing(s.hist) && from <= LastSequence(s.hist, from)
    ensures forall i :: 0 <= i < |s.hist| ==> from < s.hist[i].sequence <= LastSequence(s.hist, from)
  {
    hide StreamOk, Fresh, Snapshot, Increasing;
    if !(s.phase.Idle? || s.phase.Registered? || s.phase.Aborted?) {
      IncreasingPrefix(s.log, s.snapshotAt);
      SnapshotFacts(from, s.log[..s.snapshotAt]);
    } else {
      assert Increasing(s.hist) by { NothingIncreasing(); }
    }
  }

  lemma NothingIncreasing()
    ensures Increasing([])
  {
  }

  lemma SnapshotFacts(from: nat, rows: seq<Event>)
    requires Increasing(rows)
    ensures var hist := Snapshot(from, rows);
            && Increasing(hist) && from <= LastSequence(hist, from)
            && forall i :: 0 <= i < |hist| ==> from < hist[i].sequence <= LastSequence(hist, from)
  {
    AfterFacts(from, rows);
    hide After, Increasing, LastSequence;
    var all := After(from, rows);
    var hist := Snapshot(from, rows);
    forall i | 0 <= i < |all| ensures all[i].sequence > from { assert all[i] in all; }
    assert hist == all[..|hist|];
    IncreasingPrefix(all, |hist|);
    LastIsHighest(hist, from);
  }

  lemma LastIsHighest(rows: seq<Event>, from: nat)
    requires Increasing(rows) && forall i :: 0 <= i < |rows| ==> rows[i].sequence > from
    ensures from <= LastSequence(rows, from) && forall i :: 0 <= i < |rows| ==> rows[i].sequence <= LastSequence(rows, from)
  {
  }

  // ---------- nothing missing ----------

  /** A stray publish is stale when its number is not above those already published: a zero one, or a repeat. */
  predicate Stale(s: State, item: Event) { item.sequence <= LastSequence(s.sent, 0) }

  /** Every publish of a row the subscriber could hear found room, and every other publish was stale. */
  ghost predicate NoLoss(from: nat, actions: seq<Action>) {
    forall k :: 0 <= k < |actions| ==> Harmless(Run(from, actions[..k]), actions[k])
  }

  predicate Harmless(s: State, a: Action) {
    match a
    case Publish(_) => Listening(s) ==> |s.buffer| < BUFFER_SLOTS
    case Stray(item) => Stale(s, item)
    case _ => true
  }

  /** To a filter that starts no lower than what was published before the registration, the items that reached the buffer
      are as good as what was published from then on, up to number n. */
  ghost predicate HeardUpTo(s: State, n: nat) {
    && s.registeredAt <= n <= |s.sent|
    && forall b: nat :: LastSequence(s.sent[..s.registeredAt], 0) <= b ==>
         Fresh(s.popped + s.buffer, b) == Fresh(s.sent[s.registeredAt..n], b)
  }

  ghost predicate Heard(s: State) {
    exists n: nat :: HeardUpTo(s, n) && (Listening(s) ==> n == |s.sent|)
  }

  lemma {:induction false} HeardInEveryRun(from: nat, actions: seq<Action>)
    requires NoLoss(from, actions)
    ensures Heard(Run(from, actions))
  {
    if actions == [] {
      assert HeardUpTo(Run(from, actions), 0);
    } else {
      hide Heard, Harmless, Step;
      var before, a := actions[..|actions| - 1], actions[|actions| - 1];
      assert forall k :: 0 <= k < |before| ==> before[..k] == actions[..k] && before[k] == actions[k];
      HeardInEveryRun(from, before);
      EveryRun(from, before);
      HeardStep(from, Run(from, before), a);
    }
  }

  lemma HeardStep(from: nat, s: State, a: Action)
    requires Inv(from, s) && Heard(s) && Harmless(s, a)
    ensures Heard(Step(from, s, a))
  {
    hide Fresh, StreamOk, SnapshotOk, LogOk, LastSequence, HeardUpTo, Stale, Step, Inv, Due;
    var n: nat :| HeardUpTo(s, n) && (Listening(s) ==> n == |s.sent|);
    match a {
      case Publish(item) => HeardPublished(from, s, item, n);
      case Stray(item) => HeardStray(from, s, item, n);
      case DrainOne => HeardDrain(from, s, n);
      case Append(_) | Register | TakeSnapshot | FailSnapshot | ShowRow | StartDrain | Leave => HeardOther(from, s, a, n);
    }
  }

  lemma HeardPublished(from: nat, s: State, item: Event, n: nat)
    requires HeardUpTo(s, n) && (Listening(s) ==> n == |s.sent| && |s.buffer| < BUFFER_SLOTS)
    ensures Heard(Step(from, s, Publish(item)))
  {
    hide Fresh, LastSequence, Due;
    var s' := Step(from, s, Publish(item));
    if Due(s, item) && Listening(s) {
      HeardPublish(s, s', item);
    } else {
      if Due(s, item) {
        assert s'.sent[..s'.registeredAt] == s.sent[..s.registeredAt] && s'.sent[s.registeredAt..n] == s.sent[s.registeredAt..n];
      }
      assert HeardUpTo(s', n);
    }
  }

  lemma HeardStray(from: nat, s: State, item: Event, n: nat)
    requires HeardUpTo(s, n) && (Listening(s) ==> n == |s.sent|) && Stale(s, item)
    ensures Heard(Step(from, s, Stray(item)))
  {
    hide Fresh, LastSequence;
    if Listening(s) && |s.buffer| < BUFFER_SLOTS { HeardStale(s, item); }
    assert HeardUpTo(Step(from, s, Stray(item)), n);
  }

  lemma HeardDrain(from: nat, s: State, n: nat)
    requires HeardUpTo(s, n) && (Listening(s) ==> n == |s.sent|)
    ensures Heard(Step(from, s, DrainOne))
  {
    hide Fresh, LastSequence;
    var s' := Step(from, s, DrainOne);
    if s.phase.Draining? && !s.left && s.buffer != [] {
      assert s.buffer == [s.buffer[0]] + s.buffer[1..];
      assert s'.popped + s'.buffer == s.popped + s.buffer;
    }
    assert HeardUpTo(s', n);
  }

  lemma HeardOther(from: nat, s: State, a: Action, n: nat)
    requires HeardUpTo(s, n) && (Listening(s) ==> n == |s.sent|) && Inv(from, s)
    requires a.Append? || a.Register? || a.TakeSnapshot? || a.FailSnapshot? || a.ShowRow? || a.StartDrain? || a.Leave?
    ensures Heard(Step(from, s, a))
  {
    hide Fresh, LastSequence, StreamOk, Snapshot, Increasing;
    var s' := Step(from, s, a);
    if a.Register? && s.phase.Idle? && !s.left {
      assert s.sent[|s.sent|..|s.sent|] == [] && s'.popped + s'.buffer == [];
      assert HeardUpTo(s', |s.sent|);
    } else {
      assert HeardUpTo(s', n);
    }
  }

  lemma HeardPublish(s: State, s': State, item: Event)
    requires HeardUpTo(s, |s.sent|) && s' == s.(buffer := s.buffer + [item], sent := s.sent + [item])
    ensures HeardUpTo(s', |s'.sent|)
  {
    hide Fresh, LastSequence;
    var n := |s.sent|;
    assert s'.sent[s.registeredAt..n + 1] == s.sent[s.registeredAt..n] + [item];
    assert s'.sent[..s.registeredAt] == s.sent[..s.registeredAt];
    assert s'.popped + s'.buffer == (s.popped + s.buffer) + [item];
    forall b: nat | LastSequence(s.sent[..s.registeredAt], 0) <= b
      ensures Fresh(s'.popped + s'.buffer, b) == Fresh(s'.sent[s.registeredAt..n + 1], b)
    {
      FreshSnoc(s.popped + s.buffer, item, b);
      FreshSnoc(s.sent[s.registeredAt..n], item, b);
    }
  }

  /** A stale item cannot pass: the filter has seen an item at least as high, or started that high. */
  lemma HeardStale(s: State, item: Event)
    requires HeardUpTo(s, |s.sent|) && Stale(s, item)
    ensures HeardUpTo(s.(buffer := s.buffer + [item]), |s.sent|)
  {
    hide Fresh;
    var items := s.sent[s.registeredAt..];
    assert items == s.sent[s.registeredAt..|s.sent|];
    assert s.popped + (s.buffer + [item]) == (s.popped + s.buffer) + [item];
    forall b: nat | LastSequence(s.sent[..s.registeredAt], 0) <= b
      ensures Fresh(s.popped + (s.buffer + [item]), b) == Fresh(items, b)
    {
      FreshSnoc(s.popped + s.buffer, item, b);
      if items == [] {
        NothingFresh(b);
        assert s.sent[..s.registeredAt] == s.sent;
      } else {
        assert items[|items| - 1] == s.sent[|s.sent| - 1];
        FreshReaches(items, items[|items| - 1], b);
      }
    }
  }

  /** What passes a filter only ever grows at its end. */
  lemma {:induction false} FreshGrows(a: seq<Event>, b: seq<Event>, last: nat)
    ensures Fresh(a, last) <= Fresh(a + b, last)
  {
    if b == [] {
      assert a + b == a;
    } else {
      FreshGrows(a, b[..|b| - 1], last);
      assert a + b == (a + b[..|b| - 1]) + [b[|b| - 1]];
      FreshSnoc(a + b[..|b| - 1], b[|b| - 1], last);
    }
  }

  lemma {:induction false} AfterJoined(from: nat, a: seq<Event>, b: seq<Event>)
    ensures After(from, a + b) == After(from, a) + After(from, b)
  {
    if b == [] {
      assert a + b == a;
    } else {
      assert (a + b)[..|a + b| - 1] == a + b[..|b| - 1];
      AfterJoined(from, a, b[..|b| - 1]);
    }
  }

  /** On an increasing stretch the filter keeps exactly the rows after the bound. */
  lemma {:induction false} FreshOfIncreasing(rows: seq<Event>, last: nat)
    requires Increasing(rows)
    ensures Fresh(rows, last) == After(last, rows)
  {
    if rows != [] {
      var init, e := rows[..|rows| - 1], rows[|rows| - 1];
      assert rows == init + [e];
      FreshOfIncreasing(init, last);
      FreshSnoc(init, e, last);
      KeptBelow(init, e, last);
    }
  }

  lemma KeptBelow(init: seq<Event>, e: Event, last: nat)
    requires Increasing(init + [e])
    ensures e.sequence > LastSequence(After(last, init), last) <==> e.sequence > last
  {
    assert forall i :: 0 <= i < |init| ==> (init + [e])[i] == init[i];
    AfterFacts(last, init);
    var kept := After(last, init);
    if kept != [] {
      var x := kept[|kept| - 1];
      assert x in kept;
      var i :| 0 <= i < |init| && init[i] == x;
      assert (init + [e])[i].sequence < (init + [e])[|init|].sequence;
    }
  }

  lemma {:induction false} NoneAfter(last: nat, rows: seq<Event>)
    requires forall i :: 0 <= i < |rows| ==> rows[i].sequence <= last
    ensures After(last, rows) == []
  {
    if rows != [] { NoneAfter(last, rows[..|rows| - 1]); }
  }

  lemma {:induction false} SameAfter(a: nat, b: nat, rows: seq<Event>)
    requires forall i :: 0 <= i < |rows| ==> (rows[i].sequence > a <==> rows[i].sequence > b)
    ensures After(a, rows) == After(b, rows)
  {
    if rows != [] { SameAfter(a, b, rows[..|rows| - 1]); }
  }

  function Max(a: nat, b: nat): nat { if a < b then b else a }

  /** Rows heard since registration but already covered by the snapshot all fall to the filter. */
  lemma CoveredIsStale(from: nat, log: seq<Event>, lo: nat, hi: nat, snapshotAt: nat)
    requires Increasing(log) && lo <= hi <= snapshotAt <= |log|
    ensures After(LastSequence(After(from, log[..snapshotAt]), from), log[lo..hi]) == []
  {
    BoundCovers(from, log, snapshotAt);
    var bound := LastSequence(After(from, log[..snapshotAt]), from);
    forall i | 0 <= i < |log[lo..hi]| ensures log[lo..hi][i].sequence <= bound {
      assert log[lo..hi][i] == log[lo + i];
    }
    NoneAfter(bound, log[lo..hi]);
  }

  lemma UncoveredPasses(from: nat, log: seq<Event>, hi: nat, snapshotAt: nat)
    requires Increasing(log) && snapshotAt <= hi <= |log|
    ensures After(LastSequence(After(from, log[..snapshotAt]), from), log[snapshotAt..hi]) == After(from, log[snapshotAt..hi])
  {
    BoundCovers(from, log, snapshotAt);
    var bound := LastSequence(After(from, log[..snapshotAt]), from);
    var rows := log[snapshotAt..hi];
    forall i | 0 <= i < |rows| ensures rows[i].sequence > from <==> rows[i].sequence > bound {
      assert rows[i] == log[snapshotAt + i];
    }
    SameAfter(from, bound, rows);
  }

  /** What a subscriber is to see: the rows after `from` that its snapshot covers, then whatever is published under a
      higher number than theirs. */
  function Expected(from: nat, log: seq<Event>, snapshotAt: nat, sent: seq<Event>): seq<Event> {
    var hist := After(from, Prefix(log, snapshotAt));
    hist + After(LastSequence(hist, from), sent)
  }

  /** Joining a complete snapshot with what was heard since registration, filtered after the snapshot's last row, leaves
      no gap and no overlap. */
  lemma JoinComplete(sent: seq<Event>, registeredAt: nat, upTo: nat, bound: nat)
    requires Increasing(sent) && registeredAt <= upTo <= |sent| && LastSequence(sent[..registeredAt], 0) <= bound
    ensures Fresh(sent[registeredAt..upTo], bound) == After(bound, sent[..upTo])
  {
    var early, late := sent[..registeredAt], sent[registeredAt..upTo];
    assert sent[..upTo] == early + late;
    FreshOfIncreasing(late, bound);
    NoneAfter(bound, early);
    AfterJoined(bound, early, late);
  }

  /** When every row is published as it is and in turn, a subscriber is to see exactly the rows after `from` that are in
      its snapshot or published. */
  lemma FaithfulPublishing(from: nat, log: seq<Event>, snapshotAt: nat, published: nat)
    requires Increasing(log) && snapshotAt <= |log| && published <= |log|
    ensures Expected(from, log, snapshotAt, log[..published]) == After(from, log[..Max(snapshotAt, published)])
  {
    hide After, LastSequence;
    var bound := LastSequence(After(from, log[..snapshotAt]), from);
    if published <= snapshotAt {
      CoveredIsStale(from, log, 0, published, snapshotAt);
      assert log[0..published] == log[..published];
    } else {
      assert log[..published] == log[..snapshotAt] + log[snapshotAt..published];
      AfterJoined(bound, log[..snapshotAt], log[snapshotAt..published]);
      CoveredIsStale(from, log, 0, snapshotAt, snapshotAt);
      assert log[0..snapshotAt] == log[..snapshotAt];
      UncoveredPasses(from, log, published, snapshotAt);
      AfterJoined(from, log[..snapshotAt], log[snapshotAt..published]);
    }
  }

  /** Rows in the snapshot's range are at most its last sequence number; later rows pass the filter iff they are new. */
  lemma BoundCovers(from: nat, log: seq<Event>, snapshotAt: nat)
    requires Increasing(log) && snapshotAt <= |log|
    ensures var bound := LastSequence(After(from, log[..snapshotAt]), from);
            && (forall i :: 0 <= i < snapshotAt ==> log[i].sequence <= bound)
            && (forall i :: snapshotAt <= i < |log| ==> (log[i].sequence > from <==> log[i].sequence > bound))
  {
    var rows := log[..snapshotAt];
    var hist := After(from, rows);
    AfterFacts(from, rows);
    forall i | 0 <= i < snapshotAt ensures log[i].sequence <= LastSequence(hist, from) {
      assert rows[i] == log[i] && rows[i] in rows;
      if log[i].sequence > from {
        var k :| 0 <= k < |hist| && hist[k] == rows[i];
      }
    }
    if hist != [] {
      assert hist[|hist| - 1] in hist;
      var k :| 0 <= k < |rows| && rows[k] == hist[|hist| - 1];
      assert log[k] == hist[|hist| - 1];
    }
  }

  function Prefix(rows: seq<Event>, n: nat): seq<Event> { if n <= |rows| then rows[..n] else rows }

  /** Without loss and with a snapshot that fits the limit, the stream is a prefix of what the subscriber is to see, so one
      that ended has yielded exactly that up to the first terminal event; and whenever the subscriber has drained its
      buffer it has yielded all of it. Stale publishes make no difference. */
  lemma NothingMissing(from: nat, actions: seq<Action>)
    requires NoLoss(from, actions)
    requires |After(from, Prefix(Run(from, actions).log, Run(from, actions).snapshotAt))| <= HISTORY_LIMIT
    ensures var s := Run(from, actions);
            && s.yielded <= Expected(from, s.log, s.snapshotAt, s.sent)
            && (s.phase.Draining? && s.buffer == [] && !s.left ==> s.yielded == Expected(from, s.log, s.snapshotAt, s.sent))
  {
    hide Run, NoLoss, Heard, Inv, Expected;
    EveryRun(from, actions);
    HeardInEveryRun(from, actions);
    NothingMissingIn(from, Run(from, actions));
  }

  lemma NothingMissingIn(from: nat, s: State)
    requires Inv(from, s) && Heard(s) && |After(from, Prefix(s.log, s.snapshotAt))| <= HISTORY_LIMIT
    ensures s.yielded <= Expected(from, s.log, s.snapshotAt, s.sent)
    ensures s.phase.Draining? && s.buffer == [] && !s.left ==> s.yielded == Expected(from, s.log, s.snapshotAt, s.sent)
  {
    hide After, Fresh, LastSequence, NoTerminal, Increasing;
    NothingFresh(LastSequence(s.hist, from));
    if !(s.phase.Idle? || s.phase.Registered? || s.phase.Aborted?) {
      var n: nat :| HeardUpTo(s, n) && (Listening(s) ==> n == |s.sent|);
      var bound := LastSequence(s.hist, from);
      FilterStart(from, s.log, s.snapshotAt);
      assert Fresh(s.popped + s.buffer, bound) == Fresh(s.sent[s.registeredAt..n], bound);
      FreshGrows(s.popped, s.buffer, bound);
      JoinComplete(s.sent, s.registeredAt, n, bound);
      AfterPrefix(bound, s.sent, n);
      if s.shown == |s.hist| {
        assert s.hist[..s.shown] == s.hist;
        if s.buffer == [] { assert s.popped + s.buffer == s.popped; }
        assert s.sent[..|s.sent|] == s.sent;
      } else {
        assert s.yielded == s.hist[..s.shown];
      }
    }
  }

  /** The filter starts no lower than the snapshot's last row. */
  lemma FilterStart(from: nat, log: seq<Event>, snapshotAt: nat)
    requires Increasing(log) && snapshotAt <= |log|
    ensures LastSequence(log[..snapshotAt], 0) <= LastSequence(After(from, log[..snapshotAt]), from)
  {
    BoundCovers(from, log, snapshotAt);
  }

  lemma AfterPrefix(from: nat, log: seq<Event>, m: nat)
    requires m <= |log|
    ensures After(from, log[..m]) <= After(from, log)
  {
    assert log == log[..m] + log[m..];
    AfterJoined(from, log[..m], log[m..]);
  }

  // ---------- when every subscriber sees the log ----------

  lemma {:induction false} AfterAfter(from: nat, b: nat, rows: seq<Event>)
    requires from <= b
    ensures After(b, After(from, rows)) == After(b, rows)
  {
    if rows != [] {
      var init, e := rows[..|rows| - 1], rows[|rows| - 1];
      AfterAfter(from, b, init);
      if e.sequence > from {
        AfterSnoc(b, After(from, init), e);
      } else {
        assert After(from, rows) == After(from, init) && After(b, rows) == After(b, init);
      }
    }
  }

  lemma AfterSnoc(from: nat, rows: seq<Event>, e: Event)
    ensures After(from, rows + [e]) == After(from, rows) + (if e.sequence > from then [e] else [])
  {
    assert (rows + [e])[..|rows|] == rows;
  }

  /** The log after `from` is what a snapshot covers, then the rows above it. */
  lemma LogSplits(from: nat, log: seq<Event>, m: nat)
    requires Increasing(log) && m <= |log|
    ensures var hist := After(from, log[..m]);
            from <= LastSequence(hist, from) && After(from, log) == hist + After(LastSequence(hist, from), log)
  {
    FaithfulPublishing(from, log, m, |log|);
    BoundAtLeast(from, log[..m]);
    assert log[..|log|] == log;
  }

  lemma BoundAtLeast(from: nat, rows: seq<Event>)
    ensures from <= LastSequence(After(from, rows), from)
  {
    AfterMembers(from, rows);
    var kept := After(from, rows);
    if kept != [] { assert kept[|kept| - 1] in kept; }
  }

  /** Every subscriber is to see the log after `from`, whenever it takes its snapshot, exactly when what is published after
      `from` is the log: each row as it is, and none passed over. */
  lemma AgreementIff(from: nat, log: seq<Event>, sent: seq<Event>)
    requires Increasing(log)
    ensures (forall m: nat :: m <= |log| ==> Expected(from, log, m, sent) == After(from, log)) <==>
            After(from, sent) == After(from, log)
  {
    assert Expected(from, log, 0, sent) == After(from, sent) by { assert log[..0] == []; }
    if After(from, sent) == After(from, log) {
      forall m: nat | m <= |log| ensures Expected(from, log, m, sent) == After(from, log) {
        LogSplits(from, log, m);
        var bound := LastSequence(After(from, log[..m]), from);
        AfterAfter(from, bound, sent);
        AfterAfter(from, bound, log);
      }
    }
  }

  /** In a run without loss, a subscriber that has drained its buffer has seen the log after `from` exactly when what was
      published above its snapshot is what the log holds there. */
  lemma SeesLogIff(from: nat, actions: seq<Action>)
    requires NoLoss(from, actions)
    requires |After(from, Prefix(Run(from, actions).log, Run(from, actions).snapshotAt))| <= HISTORY_LIMIT
    requires var s := Run(from, actions); s.phase.Draining? && s.buffer == [] && !s.left
    ensures var s := Run(from, actions);
            var bound := LastSequence(After(from, Prefix(s.log, s.snapshotAt)), from);
            && (s.yielded == After(from, s.log) <==> After(bound, s.sent) == After(bound, s.log))
            && (After(from, s.sent) == After(from, s.log) ==> s.yielded == After(from, s.log))
  {
    hide Run, NoLoss, After;
    var s := Run(from, actions);
    EveryRun(from, actions);
    NothingMissing(from, actions);
    LogSplits(from, s.log, s.snapshotAt);
    var hist := After(from, Prefix(s.log, s.snapshotAt));
    var bound := LastSequence(hist, from);
    assert s.yielded == hist + After(bound, s.sent) && After(from, s.log) == hist + After(bound, s.log);
    SameTail(hist, After(bound, s.sent), After(bound, s.log));
    AfterAfter(from, bound, s.sent);
    AfterAfter(from, bound, s.log);
  }

  lemma SameTail(a: seq<Event>, b: seq<Event>, c: seq<Event>)
    ensures a + b == a + c <==> b == c
  {
    assert (a + b)[|a|..] == b && (a + c)[|a|..] == c;
  }

  // ---------- what gets lost ----------

  /** The items that reached the buffer: published while the subscriber listened and found room. */
  function Accepted(from: nat, actions: seq<Action>): seq<Event> {
    if actions == [] then []
    else
      var before, a := actions[..|actions| - 1], actions[|actions| - 1];
      var s := Run(from, before);
      if Listening(s) && |s.buffer| < BUFFER_SLOTS && ((a.Publish? && Due(s, a.item)) || a.Stray?) then
        Accepted(from, before) + [a.item]
      else Accepted(from, before)
  }

  lemma BufferStep(from: nat, s: State, a: Action)
    requires Inv(from, s)
    ensures var s' := Step(from, s, a);
            s'.popped + s'.buffer == s.popped + s.buffer +
              (if Listening(s) && |s.buffer| < BUFFER_SLOTS && ((a.Publish? && Due(s, a.item)) || a.Stray?) then [a.item] else [])
  {
    hide Snapshot, Fresh, Due, StreamOk, LogOk;
    if a.DrainOne? && s.buffer != [] { assert s.buffer == [s.buffer[0]] + s.buffer[1..]; }
  }

  lemma {:induction false} BufferIsAccepted(from: nat, actions: seq<Action>)
    ensures Run(from, actions).popped + Run(from, actions).buffer == Accepted(from, actions)
  {
    if actions != [] {
      hide Step, Inv, Due;
      var before := actions[..|actions| - 1];
      BufferIsAccepted(from, before);
      EveryRun(from, before);
      BufferStep(from, Run(from, before), actions[|actions| - 1]);
    }
  }

  /** In every run, with full buffers and long histories: a subscriber that has drained its buffer has seen the first rows
      of its snapshot, up to the limit, then what the filter lets through of the items that reached its buffer. */
  lemma DrainedStream(from: nat, actions: seq<Action>)
    requires var s := Run(from, actions); s.phase.Draining? && s.buffer == [] && !s.left
    ensures var s := Run(from, actions);
            var hist := Snapshot(from, Prefix(s.log, s.snapshotAt));
            s.yielded == hist + Fresh(Accepted(from, actions), LastSequence(hist, from))
  {
    hide Run, Snapshot, Fresh, Accepted;
    var s := Run(from, actions);
    EveryRun(from, actions);
    BufferIsAccepted(from, actions);
    assert s.popped + s.buffer == s.popped && s.hist[..s.shown] == s.hist;
  }

  lemma {:induction false} AcceptedInOrder(from: nat, actions: seq<Action>)
    requires forall k :: 0 <= k < |actions| ==> !actions[k].Stray?
    ensures Increasing(Accepted(from, actions))
    ensures LastSequence(Accepted(from, actions), 0) <= LastSequence(Run(from, actions).sent, 0)
  {
    if actions != [] {
      hide Increasing;
      var before, a := actions[..|actions| - 1], actions[|actions| - 1];
      assert forall k :: 0 <= k < |before| ==> before[k] == actions[k];
      AcceptedInOrder(from, before);
      SentStep(from, Run(from, before), a);
      if a.Publish? && Due(Run(from, before), a.item) { IncreasingSnoc(Accepted(from, before), a.item); }
    } else {
      NothingIncreasing();
    }
  }

  lemma SentStep(from: nat, s: State, a: Action)
    ensures Step(from, s, a).sent == if a.Publish? && Due(s, a.item) then s.sent + [a.item] else s.sent
    ensures a.Publish? && Due(s, a.item) ==> a.item.sequence > LastSequence(s.sent, 0)
  {
    hide Snapshot;
  }

  /** So without stray publishes a drained stream holds exactly the rows of the snapshot within the limit and, above the last
      of them, what was published while the subscriber listened and its buffer had room. All else is lost. */
  lemma LostExactly(from: nat, actions: seq<Action>, x: Event)
    requires forall k :: 0 <= k < |actions| ==> !actions[k].Stray?
    requires var s := Run(from, actions); s.phase.Draining? && s.buffer == [] && !s.left
    ensures var s := Run(from, actions);
            var all := After(from, Prefix(s.log, s.snapshotAt));
            var shown := Snapshot(from, Prefix(s.log, s.snapshotAt));
            && (x in s.yielded <==> x in shown || (x in Accepted(from, actions) && x.sequence > LastSequence(shown, from)))
            && shown == all[..if |all| <= HISTORY_LIMIT then |all| else HISTORY_LIMIT]
  {
    hide Run, Accepted, After, Fresh, Increasing;
    var s := Run(from, actions);
    DrainedStream(from, actions);
    AcceptedInOrder(from, actions);
    var bound := LastSequence(Snapshot(from, Prefix(s.log, s.snapshotAt)), from);
    FreshOfIncreasing(Accepted(from, actions), bound);
    AfterMembers(bound, Accepted(from, actions));
  }

  // ---------- repeated sequence numbers ----------

  /** An item whose sequence number is not above an earlier one in the buffer is never yielded, whatever it carries. */
  lemma {:induction false} RepeatDropped(a: seq<Event>, x: Event, b: seq<Event>, y: Event, last: nat)
    requires y.sequence <= x.sequence
    ensures Fresh(a + [x] + b + [y], last) == Fresh(a + [x] + b, last)
  {
    FreshSnoc(a + [x] + b, y, last);
    FreshReaches(a + [x] + b, x, last);
  }

  lemma {:induction false} FreshReaches(items: seq<Event>, x: Event, last: nat)
    requires x in items
    ensures LastSequence(Fresh(items, last), last) >= x.sequence
    decreases |items|
  {
    var init, e := items[..|items| - 1], items[|items| - 1];
    assert items == init + [e];
    FreshSnoc(init, e, last);
    if x in init { FreshReaches(init, x, last); }
  }

  lemma RunSnoc(from: nat, actions: seq<Action>, a: Action)
    ensures Run(from, actions + [a]) == Step(from, Run(from, actions), a)
  {
    assert (actions + [a])[..|actions|] == actions;
  }

  lemma LastAfter(from: nat, rows: seq<Event>)
    requires Increasing(rows)
    ensures LastSequence(After(from, rows), from) == Max(from, LastSequence(rows, 0))
  {
    AfterFacts(from, rows);
    assert rows[..|rows|] == rows;
    BoundCovers(from, rows, |rows|);
    var kept := After(from, rows);
    if kept != [] {
      assert kept[|kept| - 1] in kept;
      var k :| 0 <= k < |rows| && rows[k] == kept[|kept| - 1];
    }
  }

  /** When a subscriber has caught up, one more publish of any item, of whatever origin, reaches it exactly when its
      sequence number is above everything published or in the snapshot: that is when a stray publish does harm. */
  lemma StrayHarmlessIff(from: nat, actions: seq<Action>, item: Event)
    requires NoLoss(from, actions)
    requires |After(from, Prefix(Run(from, actions).log, Run(from, actions).snapshotAt))| <= HISTORY_LIMIT
    requires var s := Run(from, actions); s.phase.Draining? && s.buffer == [] && !s.left
    ensures var s, s' := Run(from, actions), Run(from, actions + [Stray(item)] + [DrainOne]);
            && (s'.yielded == s.yielded <==>
                  item.sequence <= Max(Max(from, LastSequence(Prefix(s.log, s.snapshotAt), 0)), LastSequence(s.sent, 0)))
            && (s'.yielded != s.yielded ==> s'.yielded == s.yielded + [item] && s'.last == item.sequence)
  {
    hide After, Run, NoLoss;
    var s := Run(from, actions);
    NothingMissing(from, actions);
    EveryRun(from, actions);
    var hist := After(from, Prefix(s.log, s.snapshotAt));
    LastAfter(from, Prefix(s.log, s.snapshotAt));
    LastAfter(LastSequence(hist, from), s.sent);
    LastOfJoined(hist, After(LastSequence(hist, from), s.sent), from);
    RunSnoc(from, actions, Stray(item));
    RunSnoc(from, actions + [Stray(item)], DrainOne);
  }

  /** So an artifact published under the sequence number of the status row that follows it hides that row's event, even a
      terminal one: the log has ended and the subscriber waits on. */
  lemma RepeatHidesTerminal(artifact: Event, status: Event) returns (actions: seq<Action>)
    requires artifact.sequence == status.sequence > 0 && status.terminal && !artifact.terminal
    ensures var s := Run(0, actions);
            s.log == [status] && s.sent == [status] && s.buffer == [] && s.phase == Draining && s.yielded == [artifact]
  {
    var drained := [Register, TakeSnapshot, StartDrain];
    RunReady(drained);
    var a4 := drained + [Append(status)];
    var a5 := a4 + [Stray(artifact)];
    var a6 := a5 + [Publish(status)];
    var a7 := a6 + [DrainOne];
    hide Run, Step;
    RunSnoc(0, drained, Append(status));
    RunSnoc(0, a4, Stray(artifact));
    RunSnoc(0, a5, Publish(status));
    RunSnoc(0, a6, DrainOne);
    RunSnoc(0, a7, DrainOne);
    RepeatBuffered(artifact, status);
    RepeatDrained(artifact, status);
    actions := a7 + [DrainOne];
  }

  const READY := State([], [], Draining, false, [], 0, [], [], 0, [], 0, 0)

  lemma FirstDue(s: State, row: Event, item: Event)
    requires s.log == [row] && s.sent == [] && row.sequence == item.sequence > 0
    ensures Due(s, item)
  {
    assert s.log[0].sequence == item.sequence;
  }

  lemma RepeatBuffered(artifact: Event, status: Event)
    requires artifact.sequence == status.sequence > 0
    ensures Step(0, Step(0, Step(0, READY, Append(status)), Stray(artifact)), Publish(status)) ==
            READY.(log := [status], sent := [status], buffer := [artifact, status])
  {
    var s := READY.(log := [status], buffer := [artifact]);
    assert Step(0, READY, Append(status)) == READY.(log := [status]);
    assert Step(0, READY.(log := [status]), Stray(artifact)) == s;
    FirstDue(s, status, status);
    hide Due;
    assert Step(0, s, Publish(status)) == s.(sent := [status], buffer := [artifact, status]);
  }

  lemma RepeatDrained(artifact: Event, status: Event)
    requires artifact.sequence == status.sequence > 0 && !artifact.terminal
    ensures var s := READY.(log := [status], sent := [status], buffer := [artifact, status]);
            Step(0, Step(0, s, DrainOne), DrainOne) ==
            s.(popped := [artifact, status], buffer := [], last := status.sequence, yielded := [artifact])
  {
    var s := READY.(log := [status], sent := [status], buffer := [artifact, status]);
    assert Step(0, s, DrainOne) == s.(popped := [artifact], buffer := [status], last := status.sequence, yielded := [artifact]);
  }

  /** An event that is not terminal, published for a row that is, ends a replayed stream but not a live one. */
  lemma LiveAndReplayedDiffer(row: Event, item: Event) returns (live: seq<Action>, replayed: seq<Action>)
    requires row.sequence == item.sequence > 0 && row.terminal && !item.terminal
    ensures var s := Run(0, live);
            s.log == [row] && s.sent == [item] && s.buffer == [] && s.phase == Draining && s.yielded == [item]
    ensures var s := Run(0, replayed);
            s.log == [row] && s.sent == [item] && s.phase == Done && s.yielded == [row]
  {
    var drained := [Register, TakeSnapshot, StartDrain];
    RunReady(drained);
    StartRun(0);
    live := drained + [Append(row)] + [Publish(item)] + [DrainOne];
    replayed := [] + [Append(row)] + [Publish(item)] + [Register] + [TakeSnapshot] + [ShowRow];
    hide Run, Step;
    RunSnoc(0, drained, Append(row));
    RunSnoc(0, drained + [Append(row)], Publish(item));
    RunSnoc(0, drained + [Append(row)] + [Publish(item)], DrainOne);
    LiveSteps(row, item);
    RunSnoc(0, [], Append(row));
    RunSnoc(0, [] + [Append(row)], Publish(item));
    RunSnoc(0, [] + [Append(row)] + [Publish(item)], Register);
    RunSnoc(0, [] + [Append(row)] + [Publish(item)] + [Register], TakeSnapshot);
    RunSnoc(0, [] + [Append(row)] + [Publish(item)] + [Register] + [TakeSnapshot], ShowRow);
    AppendedSteps(row, item);
    ReplayedSteps(row, item);
  }

  lemma LiveSteps(row: Event, item: Event)
    requires row.sequence == item.sequence > 0 && !item.terminal
    ensures Step(0, Step(0, Step(0, READY, Append(row)), Publish(item)), DrainOne) ==
            READY.(log := [row], sent := [item], popped := [item], last := item.sequence, yielded := [item])
  {
    var s := READY.(log := [row]);
    assert Step(0, READY, Append(row)) == s;
    FirstDue(s, row, item);
    hide Due;
    assert Step(0, s, Publish(item)) == s.(sent := [item], buffer := [item]);
  }

  lemma AppendedSteps(row: Event, item: Event)
    requires row.sequence == item.sequence > 0
    ensures Step(0, Step(0, Start(0), Append(row)), Publish(item)) == Start(0).(log := [row], sent := [item])
  {
    var s := Start(0).(log := [row]);
    assert Step(0, Start(0), Append(row)) == s;
    FirstDue(s, row, item);
    hide Due;
  }

  lemma ReplayedSteps(row: Event, item: Event)
    requires row.sequence > 0 && row.terminal
    ensures var s := Step(0, Step(0, Step(0, Start(0).(log := [row], sent := [item]), Register), TakeSnapshot), ShowRow);
            s.log == [row] && s.sent == [item] && s.phase == Done && s.yielded == [row]
  {
    var s0 := Start(0).(log := [row], sent := [item]);
    assert After(0, [row]) == [row] by { assert [row][..0] == []; assert After(0, []) == []; }
    assert Step(0, s0, Register) == s0.(phase := Registered, registeredAt := 1);
    var s2 := s0.(phase := Replaying, registeredAt := 1, hist := [row], snapshotAt := 1);
    assert Step(0, s0.(phase := Registered, registeredAt := 1), TakeSnapshot) == s2;
    assert Step(0, s2, ShowRow) == s2.(shown := 1, yielded := [row], last := row.sequence, phase := Done);
  }

  lemma RunReady(drained: seq<Action>)
    requires drained == [Register, TakeSnapshot, StartDrain]
    ensures Run(0, drained) == READY
  {
    hide Run, Fresh;
    StartRun(0);
    RunSnoc(0, [], Register);
    RunSnoc(0, [] + [Register], TakeSnapshot);
    RunSnoc(0, [] + [Register] + [TakeSnapshot], StartDrain);
    assert [] + [Register] + [TakeSnapshot] + [StartDrain] == drained;
  }

  lemma StartRun(from: nat)
    ensures Run(from, []) == Start(from)
  {
  }
}
