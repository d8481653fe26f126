/** frontend.go and backend.go: the resumable readers. A header is read, remembered in `partialMsg`, `msgType` and
    `bodyLen`, and the body is read by the same or a later call, because either read can fail after part of the data
    has arrived. The ChunkReader contract is that a failed read consumes nothing; which reads fail is up to the
    caller's schedule. */
module Receivers {
  import opened Options
  import opened WireBytes
  import opened WireOrder
  import opened Framing
  import opened RowDescriptionMessage
  import BindMessage
  import DataRowMessage
  import ErrorResponses
  import MapOrder

  /** Messages whose decoders are not part of this model keep their body. */
  datatype Message =
    | DataRow(values: seq<Cell>)
    | RowDescription(fields: seq<Field>)
    | ErrorResponse(report: ErrorResponses.Report)
    | NoticeResponse(report: ErrorResponses.Report)
    | Bind(bind: BindMessage.BindMsg)
    | Other(kind: byte, body: bytes)

  datatype Received =
    | Got(msg: Message)
    | ReadFailed
    | NegativeBodyLength
    | UnknownType
    | BadAuthentication
    | DecodeFailed
    | Panicked

  datatype Reader = Reader(partialMsg: bool, msgType: byte, bodyLen: int, unread: bytes)

  /** One call's luck: whether the header read and the body read fail. */
  datatype Luck = Luck(failHeader: bool, failBody: bool)

  datatype Side = Client | Server

  predicate ClientKnows(t: byte) {
    match t as char
    case '1' | '2' | '3' | 'A' | 'c' | 'C' | 'd' | 'D' | 'E' | 'G' | 'H' | 'I' | 'K' | 'n' | 'N' | 'R' | 's' | 'S' | 't'
       | 'T' | 'V' | 'W' | 'Z' => true
    case _ => false
  }

  predicate ServerKnows(t: byte) {
    match t as char
    case 'B' | 'C' | 'D' | 'E' | 'F' | 'f' | 'd' | 'c' | 'H' | 'P' | 'p' | 'Q' | 'S' | 'X' => true
    case _ => false
  }

  predicate Knows(side: Side, t: byte) { if side.Client? then ClientKnows(t) else ServerKnows(t) }

  /** findAuthenticationMessageType: the kinds with a message of their own. */
  predicate AuthenticationKnown(body: bytes) {
    |body| >= 4 && Uint32(body) in {0, 3, 5, 7, 8, 10, 11, 12}
  }

  function Decode(side: Side, t: byte, body: bytes): Received
    requires Knows(side, t)
  {
    match side
    case Client =>
      (match t as char
       case 'D' => var p := ParseCountedCells(body); if p.Done? then Got(DataRow(p.value)) else DecodeFailed
       case 'T' => var p := RowDescriptionMessage.Parse(body); if p.Done? then Got(RowDescription(p.value)) else DecodeFailed
       case 'E' =>
         var p := ErrorResponses.ParseTags(body, ErrorResponses.EMPTY);
         if p.Ok? then Got(ErrorResponse(p.report)) else DecodeFailed
       case 'N' =>
         var p := ErrorResponses.ParseTags(body, ErrorResponses.EMPTY);
         if p.Ok? then Got(NoticeResponse(p.report)) else DecodeFailed
       case 'R' => if AuthenticationKnown(body) then Got(Other(t, body)) else BadAuthentication
       case _ => Got(Other(t, body)))
    case Server =>
      if t as char == 'B' then
        (match BindMessage.Parse(body)
         case Done(m, _) => Got(Bind(m))
         case Malformed => DecodeFailed
         case NegativeLength => Panicked)
      else Got(Other(t, body))
  }

  // ---------- one call ----------

  function Next(unread: bytes, n: int, fail: bool): Option<bytes> {
    if fail || n < 0 || |unread| < n then None else Some(unread[..n])
  }

  function ReadBody(side: Side, r: Reader, fail: bool): (Reader, Received) {
    if side.Server? && !Knows(side, r.msgType) then (r, UnknownType) // before the body is read
    else match Next(r.unread, r.bodyLen, fail)
      case None => (r, ReadFailed)
      case Some(body) =>
        var r' := r.(partialMsg := false, unread := r.unread[r.bodyLen..]);
        (r', if Knows(side, r.msgType) then Decode(side, r.msgType, body) else UnknownType)
  }

  function Call(side: Side, r: Reader, luck: Luck): (Reader, Received) {
    if r.partialMsg then ReadBody(side, r, luck.failBody)
    else match Next(r.unread, 5, luck.failHeader)
      case None => (r, ReadFailed)
      case Some(header) =>
        var r' := Reader(true, header[0], Uint32(header[1..]) as int - 4, r.unread[5..]);
        if r'.bodyLen < 0 then (r', NegativeBodyLength) else ReadBody(side, r', luck.failBody)
  }

  function Run(side: Side, r: Reader, schedule: seq<Luck>): (Reader, seq<Received>)
    decreases |schedule|
  {
    if schedule == [] then (r, [])
    else
      var (r', out) := Call(side, r, schedule[0]);
      var (r'', outs) := Run(side, r', schedule[1..]);
      (r'', [out] + outs)
  }

  // ---------- what is on the wire ----------

  /** A frame on the wire and the message its body decodes to. */
  datatype Sent = Sent(kind: byte, body: bytes, msg: Message)

  predicate Deliverable(side: Side, s: Sent) {
    |s.body| + 4 <= MAX_MESSAGE_BODY_LEN && Knows(side, s.kind) && Decode(side, s.kind, s.body) == Got(s.msg)
  }

  ghost predicate AllDeliverable(side: Side, sent: seq<Sent>) {
    forall i :: 0 <= i < |sent| ==> Deliverable(side, sent[i])
  }

  function Stream(side: Side, sent: seq<Sent>): bytes
    requires forall i :: 0 <= i < |sent| ==> Deliverable(side, sent[i])
  {
    if sent == [] then []
    else
      assert Deliverable(side, sent[0]);
      Frame(sent[0].kind, sent[0].body) + Stream(side, sent[1..])
  }

  /** The reader still owes exactly the messages `sent`, and behind them stand the bytes `tail`. */
  ghost predicate Owes(side: Side, r: Reader, sent: seq<Sent>, tail: bytes) {
    AllDeliverable(side, sent) &&
    if r.partialMsg then
      sent != [] && r.msgType == sent[0].kind && r.bodyLen == |sent[0].body| &&
      (assert AllDeliverable(side, sent[1..]); r.unread == sent[0].body + (Stream(side, sent[1..]) + tail))
    else r.unread == Stream(side, sent) + tail
  }

  lemma HeaderOf(t: byte, body: bytes, rest: bytes)
    requires |body| + 4 <= MAX_MESSAGE_BODY_LEN
    ensures var s := Frame(t, body) + rest;
            |s| >= 5 && s[..5][0] == t && Uint32(s[..5][1..]) == |body| + 4 && s[5..] == body + rest
  {
    var s := Frame(t, body) + rest;
    var n := |body| + 4;
    assert s[..5][1..] == PutUint32(n);
    Uint32Exact(PutUint32(n), n, []);
    assert PutUint32(n) + [] == PutUint32(n);
  }

  /** A call either fails without losing anything or delivers the next message owed; when nothing fails it delivers. */
  lemma Step(side: Side, r: Reader, sent: seq<Sent>, tail: bytes, luck: Luck)
    requires Owes(side, r, sent, tail) && (sent != [] || tail == [])
    ensures var (r', out) := Call(side, r, luck);
            (out == ReadFailed && Owes(side, r', sent, tail)) ||
            (sent != [] && out == Got(sent[0].msg) && Owes(side, r', sent[1..], tail))
    ensures sent != [] && luck == Luck(false, false) ==> Call(side, r, luck).1.Got?
  {
    hide Decode, Frame, ClientKnows, ServerKnows;
    if sent == [] {
    } else {
      assert AllDeliverable(side, sent[1..]);
      var s, rest := sent[0], Stream(side, sent[1..]) + tail;
      assert Deliverable(side, s);
      if !r.partialMsg {
        HeaderOf(s.kind, s.body, rest);
        var r1 := Reader(true, s.kind, |s.body|, s.body + rest);
        assert r.partialMsg || r.unread == Frame(s.kind, s.body) + rest by { FirstFrame(side, sent, tail); }
        BodyStep(side, r1, sent, tail, luck.failBody);
        if !luck.failHeader {
          assert Call(side, r, luck) == ReadBody(side, r1, luck.failBody);
        }
      } else {
        BodyStep(side, r, sent, tail, luck.failBody);
      }
    }
  }

  lemma FirstFrame(side: Side, sent: seq<Sent>, tail: bytes)
    requires sent != [] && AllDeliverable(side, sent) && AllDeliverable(side, sent[1..])
    ensures |sent[0].body| + 4 <= MAX_MESSAGE_BODY_LEN
    ensures Stream(side, sent) + tail == Frame(sent[0].kind, sent[0].body) + (Stream(side, sent[1..]) + tail)
  {
    hide Decode;
    assert Deliverable(side, sent[0]);
    Regroup(Frame(sent[0].kind, sent[0].body), Stream(side, sent[1..]), tail);
  }

  lemma BodyStep(side: Side, r: Reader, sent: seq<Sent>, tail: bytes, fail: bool)
    requires r.partialMsg && Owes(side, r, sent, tail)
    ensures var (r', out) := ReadBody(side, r, fail);
            if fail then out == ReadFailed && r' == r
            else out == Got(sent[0].msg) && Owes(side, r', sent[1..], tail) && !r'.partialMsg
  {
    hide Decode, ClientKnows, ServerKnows;
    var s := sent[0];
    assert Deliverable(side, s);
    assert AllDeliverable(side, sent[1..]);
    assert r.unread[..r.bodyLen] == s.body && r.unread[r.bodyLen..] == Stream(side, sent[1..]) + tail;
  }

  function Delivered(outs: seq<Received>): seq<Message> {
    if outs == [] then []
    else (if outs[0].Got? then [outs[0].msg] else []) + Delivered(outs[1..])
  }

  function Messages(sent: seq<Sent>): (ms: seq<Message>)
    ensures |ms| == |sent| && forall i :: 0 <= i < |sent| ==> ms[i] == sent[i].msg
  {
    if sent == [] then [] else [sent[0].msg] + Messages(sent[1..])
  }

  lemma DeliveredNone()
    ensures Delivered([]) == []
  {
  }

  lemma DeliveredCons(out: Received, outs: seq<Received>)
    ensures Delivered([out] + outs) == (if out.Got? then [out.msg] else []) + Delivered(outs)
  {
    assert ([out] + outs)[1..] == outs;
  }

  lemma MessagesCons(sent: seq<Sent>, k: nat)
    requires k < |sent|
    ensures Messages(sent)[..k + 1] == [sent[0].msg] + Messages(sent[1..])[..k]
  {
    var rest := Messages(sent[1..]);
    assert Messages(sent) == [sent[0].msg] + rest;
    hide Messages;
    assert ([sent[0].msg] + rest)[..k + 1] == [sent[0].msg] + rest[..k];
  }

  /** How many calls of a schedule meet no failure. */
  function CleanCalls(schedule: seq<Luck>): nat {
    if schedule == [] then 0
    else (if schedule[0] == Luck(false, false) then 1 else 0) + CleanCalls(schedule[1..])
  }

  /** For every schedule of failures, the messages received are a prefix of those sent, in order; nothing else is
      reported but failed reads; the reader still owes exactly the others; and every failure-free call makes progress. */
  lemma {:induction false} EveryScheduleInOrder(side: Side, r: Reader, sent: seq<Sent>, schedule: seq<Luck>)
    requires Owes(side, r, sent, [])
    ensures var (r', outs) := Run(side, r, schedule);
            var k := |Delivered(outs)|;
            && (forall i :: 0 <= i < |outs| ==> outs[i].Got? || outs[i] == ReadFailed)
            && k <= |sent| && Delivered(outs) == Messages(sent)[..k] && Owes(side, r', sent[k..], [])
            && (k == |sent| || CleanCalls(schedule) <= k)
    decreases |schedule|
  {
    hide Owes, Call, Messages, Delivered;
    if schedule == [] {
      assert sent[0..] == sent;
      DeliveredNone();
    } else {
      Step(side, r, sent, [], schedule[0]);
      var (r', out) := Call(side, r, schedule[0]);
      DeliveredCons(out, Run(side, r', schedule[1..]).1);
      if out == ReadFailed {
        EveryScheduleInOrder(side, r', sent, schedule[1..]);
      } else {
        EveryScheduleInOrder(side, r', sent[1..], schedule[1..]);
        var outs := Run(side, r', schedule[1..]).1;
        var k := |Delivered(outs)|;
        assert sent[1..][k..] == sent[k + 1..];
        MessagesCons(sent, k);
      }
    }
  }

  /** From a fresh connection, any schedule with enough failure-free calls delivers exactly the messages sent. */
  lemma AllDelivered(side: Side, sent: seq<Sent>, schedule: seq<Luck>)
    requires AllDeliverable(side, sent) && CleanCalls(schedule) >= |sent|
    ensures Delivered(Run(side, Reader(false, 0, 0, Stream(side, sent)), schedule).1) == Messages(sent)
  {
    assert Stream(side, sent) + [] == Stream(side, sent);
    EveryScheduleInOrder(side, Reader(false, 0, 0, Stream(side, sent)), sent, schedule);
  }

  /** What a failure-free call does with explicit bytes: the four after the type, the first weighing most, say how much
      belongs to the message, themselves included. */
  lemma ReceiveTakes(side: Side, kind: byte, a: byte, b: byte, c: byte, d: byte, tail: bytes)
    requires Knows(side, kind)
    ensures var n := a as int * 0x100_0000 + b as int * 0x1_0000 + c as int * 0x100 + d - 4;
            var (r, out) := Call(side, Reader(false, 0, 0, [kind, a, b, c, d] + tail), Luck(false, false));
            if n < 0 then out == NegativeBodyLength
            else if |tail| < n then out == ReadFailed && r.partialMsg && r.bodyLen == n && r.unread == tail
            else out == Decode(side, kind, tail[..n]) && r.unread == tail[n..] && !r.partialMsg
  {
    hide Decode, ClientKnows, ServerKnows, Uint32;
    var s := [kind, a, b, c, d] + tail;
    assert s[..5] == [kind, a, b, c, d] && s[5..] == tail && s[..5][1..] == [a, b, c, d];
    WeighedFour(a, b, c, d);
    Read32([a, b, c, d]);
    assert [a, b, c, d][..4] == [a, b, c, d];
  }

  // ---------- encoders feed the reader ----------

  lemma DataRowDeliverable(values: seq<Cell>)
    requires |values| <= MAX_UINT16 && Framed([], 'D' as int, PutCountedCells(values)).Encoded?
    ensures Deliverable(Client, Sent('D' as int, PutCountedCells(values), DataRow(values)))
  {
    DataRowMessage.RoundTrip(values);
  }

  lemma RowDescriptionDeliverable(fields: seq<Field>)
    requires |fields| <= MAX_UINT16 && Framed([], 'T' as int, Body(fields)).Encoded? && Named(fields)
    ensures Deliverable(Client, Sent('T' as int, Body(fields), RowDescription(fields)))
  {
    RowDescriptionMessage.RoundTrip(fields);
  }

  lemma ErrorResponseDeliverable(e: ErrorResponses.Report, order: seq<byte>)
    requires MapOrder.Enumerates(order, e.unknown) && ErrorResponses.Clean(e)
    requires |ErrorResponses.Body(e, order)| + 4 <= MAX_MESSAGE_BODY_LEN
    ensures Deliverable(Client, Sent('E' as int, ErrorResponses.Body(e, order), ErrorResponse(e)))
    ensures Deliverable(Client, Sent('N' as int, ErrorResponses.Body(e, order), NoticeResponse(e)))
  {
    hide ErrorResponses.ParseTags, ErrorResponses.Body, ErrorResponses.Clean;
    ErrorResponses.RoundTrip(e, order);
  }

  lemma BindDeliverable(m: BindMessage.BindMsg)
    requires BindMessage.CountsFit(m) && Framed([], 'B' as int, BindMessage.Body(m)).Encoded?
    requires NulFree(m.portal) && NulFree(m.statement)
    ensures Deliverable(Server, Sent('B' as int, BindMessage.Body(m), Bind(m)))
  {
    hide BindMessage.Parse, BindMessage.Body;
    BindMessage.RoundTrip(m);
  }

  // ---------- a type byte the reader does not know ----------

  /** The client skips a message of unknown type and is ready for the next one. */
  lemma ClientSkipsUnknown(t: byte, body: bytes, sent: seq<Sent>)
    requires !ClientKnows(t) && |body| + 4 <= MAX_MESSAGE_BODY_LEN && AllDeliverable(Client, sent)
    ensures var r := Reader(false, 0, 0, Frame(t, body) + Stream(Client, sent));
            var (r', out) := Call(Client, r, Luck(false, false));
            out == UnknownType && Owes(Client, r', sent, [])
  {
    hide Decode, Frame, ClientKnows;
    HeaderOf(t, body, Stream(Client, sent));
    var r1 := Reader(true, t, |body|, body + Stream(Client, sent));
    assert r1.unread[..|body|] == body && r1.unread[|body|..] == Stream(Client, sent) == Stream(Client, sent) + [];
  }

  /** The server never gets past one: it keeps the header, so every later call reports the same error. */
  lemma {:induction false} ServerStuckOnUnknown(r: Reader, schedule: seq<Luck>)
    requires r.partialMsg && !ServerKnows(r.msgType)
    ensures var (r', outs) := Run(Server, r, schedule);
            r' == r && |outs| == |schedule| && forall i :: 0 <= i < |outs| ==> outs[i] == UnknownType
    decreases |schedule|
  {
    if schedule != [] {
      ServerStuckOnUnknown(r, schedule[1..]);
    }
  }

  predicate HeaderArrived(schedule: seq<Luck>, i: nat)
    requires i < |schedule|
  {
    exists j :: 0 <= j <= i && !schedule[j].failHeader
  }

  /** As soon as the header of an unknown type has been read, every call answers the error, so no message behind it is ever
      delivered, whatever the schedule. */
  lemma {:induction false} ServerNeverPassesUnknown(r: Reader, t: byte, body: bytes, rest: bytes, schedule: seq<Luck>)
    requires !ServerKnows(t) && |body| + 4 <= MAX_MESSAGE_BODY_LEN && !r.partialMsg && r.unread == Frame(t, body) + rest
    ensures var outs := Run(Server, r, schedule).1;
            && |outs| == |schedule|
            && (forall i :: 0 <= i < |outs| ==> outs[i] == if HeaderArrived(schedule, i) then UnknownType else ReadFailed)
            && Delivered(outs) == []
    decreases |schedule|
  {
    hide ServerKnows, Frame;
    if schedule != [] {
      var tail := schedule[1..];
      if schedule[0].failHeader {
        ServerNeverPassesUnknown(r, t, body, rest, tail);
        ArrivesLater(schedule);
      } else {
        HeaderOf(t, body, rest);
        var r1 := Reader(true, t, |body|, body + rest);
        assert Call(Server, r, schedule[0]) == (r1, UnknownType);
        ServerStuckOnUnknown(r1, tail);
        NothingDelivered(Run(Server, r1, tail).1);
        assert forall i :: 0 <= i < |schedule| ==> HeaderArrived(schedule, i);
      }
    }
  }

  lemma ArrivesLater(schedule: seq<Luck>)
    requires schedule != [] && schedule[0].failHeader
    ensures !HeaderArrived(schedule, 0)
    ensures forall i :: 0 < i < |schedule| ==> (HeaderArrived(schedule, i) <==> HeaderArrived(schedule[1..], i - 1))
  {
    var tail := schedule[1..];
    forall i | 0 < i < |schedule| ensures HeaderArrived(schedule, i) <==> HeaderArrived(tail, i - 1) {
      assert forall j :: 0 < j <= i ==> schedule[j] == tail[j - 1];
      if j :| 0 <= j <= i && !schedule[j].failHeader { assert !tail[j - 1].failHeader; }
      if j :| 0 <= j <= i - 1 && !tail[j].failHeader { assert !schedule[j + 1].failHeader; }
    }
  }

  /** Wherever in a stream an unknown type stands, the server delivers exactly the messages before it: in order, nothing
      else, all of them once enough calls meet no failure, and the error only after the last. */
  lemma {:induction false} ServerStopsAtUnknown(r: Reader, sent: seq<Sent>, t: byte, body: bytes, rest: bytes, schedule: seq<Luck>)
    requires !ServerKnows(t) && |body| + 4 <= MAX_MESSAGE_BODY_LEN && Owes(Server, r, sent, Frame(t, body) + rest)
    ensures var outs := Run(Server, r, schedule).1;
            var k := |Delivered(outs)|;
            && k <= |sent| && Delivered(outs) == Messages(sent)[..k] && (k == |sent| || CleanCalls(schedule) <= k)
            && (forall i :: 0 <= i < |outs| ==> outs[i].Got? || outs[i] == ReadFailed || outs[i] == UnknownType)
            && (UnknownType in outs ==> k == |sent|)
    decreases |schedule|
  {
    hide Owes, Call, Messages, Delivered, Frame, ServerKnows;
    if schedule == [] {
      DeliveredNone();
    } else if sent == [] {
      NothingOwed(r, Frame(t, body) + rest);
      ServerNeverPassesUnknown(r, t, body, rest, schedule);
    } else {
      Step(Server, r, sent, Frame(t, body) + rest, schedule[0]);
      var (r', out) := Call(Server, r, schedule[0]);
      DeliveredCons(out, Run(Server, r', schedule[1..]).1);
      if out == ReadFailed {
        ServerStopsAtUnknown(r', sent, t, body, rest, schedule[1..]);
      } else {
        ServerStopsAtUnknown(r', sent[1..], t, body, rest, schedule[1..]);
        MessagesCons(sent, |Delivered(Run(Server, r', schedule[1..]).1)|);
      }
    }
  }

  lemma NothingOwed(r: Reader, tail: bytes)
    requires Owes(Server, r, [], tail)
    ensures !r.partialMsg && r.unread == tail
  {
    assert [] + tail == tail;
  }

  lemma {:induction false} NothingDelivered(outs: seq<Received>)
    requires forall i :: 0 <= i < |outs| ==> !outs[i].Got?
    ensures Delivered(outs) == []
  {
    if outs != [] { NothingDelivered(outs[1..]); }
  }

  /** Both readers as objects: the fields that survive from one call to the next, and the bytes not yet consumed. */
  class Connection {
    const side: Side
    var partialMsg: bool
    var msgType: byte
    var bodyLen: int
    var unread: bytes

    ghost function View(): Reader
      reads this
    {
      Reader(partialMsg, msgType, bodyLen, unread)
    }

    constructor (side: Side, stream: bytes)
      ensures this.side == side && View() == Reader(false, 0, 0, stream)
    {
      this.side := side;
      partialMsg, msgType, bodyLen, unread := false, 0, 0, stream;
    }

    method NextChunk(n: int, fail: bool) returns (chunk: Option<bytes>)
      modifies `unread
      ensures chunk == Next(old(unread), n, fail)
      ensures unread == if chunk.None? then old(unread) else old(unread)[n..]
    {
      if fail || n < 0 || |unread| < n { return None; }
      chunk := Some(unread[..n]);
      unread := unread[n..];
    }

    method Receive(luck: Luck) returns (out: Received)
      modifies this
      ensures (View(), out) == Call(side, old(View()), luck)
    {
      hide Decode, ClientKnows, ServerKnows;
      if !partialMsg {
        var header := NextChunk(5, luck.failHeader);
        if header.None? { return ReadFailed; }
        msgType := header.value[0];
        bodyLen := Uint32(header.value[1..]) as int - 4;
        partialMsg := true;
        if bodyLen < 0 { return NegativeBodyLength; }
      }
      if side == Server && !Knows(side, msgType) { return UnknownType; }
      var body := NextChunk(bodyLen, luck.failBody);
      if body.None? { return ReadFailed; }
      partialMsg := false;
      if !Knows(side, msgType) { return UnknownType; }
      out := Decode(side, msgType, body.value);
    }
  }
}
