/** hub_group_memory.go, SendGroupMessage: the store is locked while the message is checked and the recipients are
    snapshotted, unlocked while the inbox items are queued, and locked again to append the message. So calls with the
    same idempotency key can overlap; the mailbox's own idempotency has to keep delivery single. */
module GroupSend {
  import opened Options
  import opened HubMailbox
  import opened Text

  datatype Member = Member(agent: string, active: bool)

  datatype Message = Message(id: nat, hub: string, group: string, sender: string, context: string, key: string, text: string)

  datatype Group = Group(active: bool, members: seq<Member>)

  const RESERVED := "group:"

  /** The mailbox key of a group message. */
  function InternalKey(group: string, key: string): string { RESERVED + group + ":" + key }

  function TaskID(m: Message, recipient: string): string { "grp-" + Itoa(m.id) + "-" + recipient }

  /** The inbox item of a message for one recipient. */
  function ItemFor(m: Message, recipient: string): Item {
    Item(0, m.hub, recipient, m.sender, TaskID(m, recipient), m.context, InternalKey(m.group, m.key), m.text, 0, None)
  }

  /** The peer route refuses keys that look reserved once trimmed. */
  predicate PeerKeyAllowed(key: string) { !HasPrefix(TrimSpace(key), RESERVED) }

  lemma PeerKeyNotReserved(key: string)
    requires PeerKeyAllowed(key)
    ensures !HasPrefix(key, RESERVED)
  {
    if HasPrefix(key, RESERVED) { TrimKeepsPrefix(key, RESERVED); }
  }

  const MAX_KEY_LENGTH := 256

  /** ValidateGroupMessage: what the send route demands of a message before the store sees it. */
  predicate ValidGroupMessage(m: Message, maxPayload: int) {
    && TrimSpace(m.context) != "" && TrimSpace(m.key) != "" && |m.key| <= MAX_KEY_LENGTH
    && TrimSpace(m.text) != "" && (maxPayload > 0 ==> |m.text| <= maxPayload)
  }

  /** A message the route hands to the store: it is valid, the policy names the hub and the sender is authenticated. */
  predicate Posted(m: Message, maxPayload: int) { m.hub != "" && m.sender != "" && ValidGroupMessage(m, maxPayload) }

  // ---------- group ids ----------

  type octet = x: int | 0 <= x < 0x100

  function HexDigit(n: nat): char
    requires n < 16
  {
    if n < 10 then ('0' as int + n) as char else ('a' as int + n - 10) as char
  }

  function Hex(raw: seq<octet>): string {
    if raw == [] then "" else [HexDigit(raw[0] / 16), HexDigit(raw[0] % 16)] + Hex(raw[1..])
  }

  /** GenerateGroupID, for the random bytes it draws. */
  function GroupID(raw: seq<octet>): string { "grp-" + Hex(raw) }

  lemma {:induction false} HexHasNoColon(raw: seq<octet>)
    ensures ':' !in Hex(raw)
  {
    if raw != [] { HexHasNoColon(raw[1..]); }
  }

  lemma OctetInjective(x: octet, y: octet)
    requires HexDigit(x / 16) == HexDigit(y / 16) && HexDigit(x % 16) == HexDigit(y % 16)
    ensures x == y
  {
    assert x == x / 16 * 16 + x % 16 && y == y / 16 * 16 + y % 16;
  }

  lemma {:induction false} HexInjective(a: seq<octet>, b: seq<octet>)
    requires Hex(a) == Hex(b)
    ensures a == b
  {
    if a != [] && b != [] {
      var s, t := Hex(a), Hex(b);
      assert s[2..] == Hex(a[1..]) && t[2..] == Hex(b[1..]);
      HexInjective(a[1..], b[1..]);
      assert s[0] == t[0] && s[1] == t[1];
      OctetInjective(a[0], b[0]);
      assert a == [a[0]] + a[1..] && b == [b[0]] + b[1..];
    }
  }

  // ---------- the critical section ----------

  /** The active members other than the sender. */
  function Recipients(members: seq<Member>, sender: string): seq<string> {
    if members == [] then []
    else
      var init, m := members[..|members| - 1], members[|members| - 1];
      Recipients(init, sender) + (if m.active && m.agent != sender then [m.agent] else [])
  }

  /** The recipients are the agents of exactly the active members other than the sender, each once, in member order. */
  lemma {:induction false} RecipientsExact(members: seq<Member>, sender: string) returns (places: seq<nat>)
    ensures |places| == |Recipients(members, sender)|
    ensures forall k :: 0 <= k < |places| ==> places[k] < |members| && Recipients(members, sender)[k] == members[places[k]].agent
    ensures forall j, k :: 0 <= j < k < |places| ==> places[j] < places[k]
    ensures forall i: nat :: i in places <==> i < |members| && members[i].active && members[i].agent != sender
  {
    if members == [] {
      places := [];
    } else {
      var n := |members| - 1;
      places := RecipientsExact(members[..n], sender);
      if members[n].active && members[n].agent != sender { places := places + [n]; }
    }
  }

  predicate IsActiveMember(members: seq<Member>, agent: string) {
    exists i :: 0 <= i < |members| && members[i].active && members[i].agent == agent
  }

  datatype Begun = Sending(msg: Message, recipients: seq<string>) | AlreadySent(msg: Message) | GroupNotFound | Forbidden |
                   InvalidState

  predicate SameMessage(a: Message, b: Message) { a.group == b.group && a.sender == b.sender && a.key == b.key }

  function FirstSent(messages: seq<Message>, m: Message): (r: Option<Message>)
    ensures r.None? <==> forall i :: 0 <= i < |messages| ==> !SameMessage(messages[i], m)
  {
    if messages == [] then None
    else if SameMessage(messages[0], m) then Some(messages[0])
    else
      assert messages == [messages[0]] + messages[1..];
      FirstSent(messages[1..], m)
  }

  function Begin(groups: map<string, Group>, messages: seq<Message>, nextID: nat, m: Message, maxFanout: int): Begun {
    var sent := FirstSent(messages, m);
    if sent.Some? then AlreadySent(sent.value)
    else if m.group !in groups || !groups[m.group].active then GroupNotFound
    else
      var members := groups[m.group].members;
      var to := Recipients(members, m.sender);
      if !IsActiveMember(members, m.sender) then Forbidden
      else if |to| == 0 || (maxFanout > 0 && |to| > maxFanout) then InvalidState
      else Sending(m.(id := nextID), to)
  }

  // ---------- interleaved calls ----------

  datatype Call = Call(msg: Message, recipients: seq<string>, sent: nat, finished: bool)

  datatype State = State(box: Box, groups: map<string, Group>, messages: seq<Message>, nextID: nat, calls: map<nat, Call>)

  const START := State(HubMailbox.EMPTY, map[], [], 1, map[])

  /** Start, one delivery and the final append of a call are separate atomic steps. Between them anything else can happen:
      other calls, peer tasks, acknowledgements, cancellations and changes of a group. Calls come from the send route,
      groups get generated ids, and members are registered agents, whose ids are never empty. */
  datatype Action =
    | StartCall(c: nat, m: Message, maxFanout: int, maxPayload: int)
    | DeliverOne(c: nat)
    | FinishCall(c: nat)
    | PeerTask(item: Item)
    | AcknowledgeItem(hub: string, target: string, sequence: nat, now: int)
    | CancelTask(hub: string, task: string, now: int)
    | CreateGroup(raw: seq<octet>, owner: string)
    | ChangeGroup(group: string, changed: Group)

  predicate NamedMembers(members: seq<Member>) { forall i :: 0 <= i < |members| ==> members[i].agent != "" }

  function Step(s: State, a: Action): State {
    match a
    case StartCall(c, m, maxFanout, maxPayload) =>
      if c in s.calls || !Posted(m, maxPayload) then s
      else (match Begin(s.groups, s.messages, s.nextID, m, maxFanout)
            case Sending(msg, to) => s.(nextID := s.nextID + 1, calls := s.calls[c := Call(msg, to, 0, false)])
            case _ => s)
    case DeliverOne(c) =>
      if c in s.calls && s.calls[c].sent < |s.calls[c].recipients| then
        var call := s.calls[c];
        s.(box := Enqueued(s.box, ItemFor(call.msg, call.recipients[call.sent])),
           calls := s.calls[c := call.(sent := call.sent + 1)])
      else s
    case FinishCall(c) =>
      if c in s.calls && s.calls[c].sent == |s.calls[c].recipients| && !s.calls[c].finished then
        s.(messages := s.messages + [s.calls[c].msg], calls := s.calls[c := s.calls[c].(finished := true)])
      else s
    case PeerTask(item) => if PeerKeyAllowed(item.key) then s.(box := Enqueued(s.box, item)) else s
    case AcknowledgeItem(hub, target, sequence, now) => s.(box := Stamped(s.box, BySequence(hub, target, sequence), now))
    case CancelTask(hub, task, now) => s.(box := Stamped(s.box, ByTask(hub, task), now))
    case CreateGroup(raw, owner) =>
      if owner != "" then s.(groups := s.groups[GroupID(raw) := Group(true, [Member(owner, true)])]) else s
    case ChangeGroup(group, g) =>
      if group in s.groups && NamedMembers(g.members) then s.(groups := s.groups[group := g]) else s
  }

  function Run(actions: seq<Action>): State {
    if actions == [] then START else Step(Run(actions[..|actions| - 1]), actions[|actions| - 1])
  }

  /** The mailbox takes an item of this message for this recipient. */
  predicate Deliverable(m: Message, recipient: string) {
    m.hub != "" && recipient != "" && m.sender != "" && m.context != "" && m.text != ""
  }

  ghost predicate InBox(box: Box, m: Message, recipient: string) {
    exists i :: 0 <= i < |box.items| && Addressed(box.items[i], m.hub, recipient, m.sender, InternalKey(m.group, m.key))
  }

  /** What the recipient of a message is to find in its item. */
  predicate Carries(item: Item, m: Message, recipient: string) {
    item.context == m.context && item.message == m.text && item.task == "grp-" + Itoa(m.id) + "-" + recipient
  }

  /** Some call has sent this item, with its own content. */
  ghost predicate FromCall(s: State, item: Item) {
    exists c, k ::
      c in s.calls && 0 <= k < s.calls[c].sent <= |s.calls[c].recipients| &&
      Addressed(item, s.calls[c].msg.hub, s.calls[c].recipients[k], s.calls[c].msg.sender,
                InternalKey(s.calls[c].msg.group, s.calls[c].msg.key)) &&
      Carries(item, s.calls[c].msg, s.calls[c].recipients[k])
  }

  ghost predicate CallOk(s: State, c: nat)
    requires c in s.calls
  {
    && s.calls[c].sent <= |s.calls[c].recipients|
    && (s.calls[c].finished ==> s.calls[c].sent == |s.calls[c].recipients|)
    && (forall k :: 0 <= k < |s.calls[c].recipients| ==> Deliverable(s.calls[c].msg, s.calls[c].recipients[k]))
    && forall k :: 0 <= k < s.calls[c].sent ==> InBox(s.box, s.calls[c].msg, s.calls[c].recipients[k])
  }

  ghost predicate Generated(group: string) { exists raw :: GroupID(raw) == group }

  ghost predicate GroupsOk(s: State) {
    && (forall g :: g in s.groups ==> Generated(g) && NamedMembers(s.groups[g].members))
    && (forall c :: c in s.calls ==> Generated(s.calls[c].msg.group))
  }

  ghost predicate Inv(s: State) {
    && Ok(s.box) && GroupsOk(s)
    && (forall c {:trigger CallOk(s, c)} :: c in s.calls ==> CallOk(s, c))
    && (forall i :: 0 <= i < |s.box.items| && HasPrefix(s.box.items[i].key, RESERVED) ==> FromCall(s, s.box.items[i]))
  }

  lemma ExtendsKeepsInBox(a: Box, b: Box, m: Message, recipient: string)
    requires Extends(a, b) && InBox(a, m, recipient)
    ensures InBox(b, m, recipient)
  {
    var i :| 0 <= i < |a.items| && Addressed(a.items[i], m.hub, recipient, m.sender, InternalKey(m.group, m.key));
    assert Continues(a.items[i], b.items[i]);
  }

  lemma BoxChangeKeepsCalls(s: State, box: Box)
    requires (forall c {:trigger CallOk(s, c)} :: c in s.calls ==> CallOk(s, c)) && Extends(s.box, box)
    ensures forall c {:trigger CallOk(s.(box := box), c)} :: c in s.calls ==> CallOk(s.(box := box), c)
  {
    var s' := s.(box := box);
    forall c | c in s.calls ensures CallOk(s', c) {
      assert CallOk(s, c);
      var call := s.calls[c];
      forall k | 0 <= k < call.sent
        ensures InBox(box, call.msg, call.recipients[k])
      {
        ExtendsKeepsInBox(s.box, box, call.msg, call.recipients[k]);
      }
    }
  }

  lemma StampInv(s: State, p: Item -> bool, now: int)
    requires Inv(s)
    ensures Inv(s.(box := Stamped(s.box, p, now)))
  {
    var box := Stamped(s.box, p, now);
    StampedOk(s.box, p, now);
    BoxChangeKeepsCalls(s, box);
    var s' := s.(box := box);
    forall i | 0 <= i < |box.items| && HasPrefix(box.items[i].key, RESERVED) ensures FromCall(s', box.items[i]) {
      assert Continues(s.box.items[i], box.items[i]);
      assert FromCall(s, s.box.items[i]);
    }
  }

  lemma PeerInv(s: State, item: Item)
    requires Inv(s) && PeerKeyAllowed(item.key)
    ensures Inv(s.(box := Enqueued(s.box, item)))
  {
    var box := Enqueued(s.box, item);
    EnqueuedOk(s.box, item);
    PeerKeyNotReserved(item.key);
    BoxChangeKeepsCalls(s, box);
    var s' := s.(box := box);
    forall i | 0 <= i < |box.items| && HasPrefix(box.items[i].key, RESERVED) ensures FromCall(s', box.items[i]) {
      assert i < |s.box.items| && box.items[i] == s.box.items[i];
      assert FromCall(s, s.box.items[i]);
    }
  }

  lemma FromCallGrows(s: State, s': State, item: Item)
    requires FromCall(s, item)
    requires forall c :: c in s.calls ==>
               (c in s'.calls && s'.calls[c].msg == s.calls[c].msg && s'.calls[c].recipients == s.calls[c].recipients &&
                s.calls[c].sent <= s'.calls[c].sent <= |s'.calls[c].recipients|)
    ensures FromCall(s', item)
  {
    var c, k :| c in s.calls && 0 <= k < s.calls[c].sent <= |s.calls[c].recipients| &&
      Addressed(item, s.calls[c].msg.hub, s.calls[c].recipients[k], s.calls[c].msg.sender,
                InternalKey(s.calls[c].msg.group, s.calls[c].msg.key)) &&
      Carries(item, s.calls[c].msg, s.calls[c].recipients[k]);
    assert c in s'.calls;
  }

  lemma DeliverInv(s: State, c: nat)
    requires Inv(s)
    ensures Inv(Step(s, DeliverOne(c)))
  {
    if c in s.calls && s.calls[c].sent < |s.calls[c].recipients| {
      hide FromCall, Ok, HasPrefix, GroupID, TaskID, InternalKey;
      var s' := Step(s, DeliverOne(c));
      DeliveredCalls(s, c);
      DeliveredItems(s, c);
      EnqueuedOk(s.box, ItemFor(s.calls[c].msg, s.calls[c].recipients[s.calls[c].sent]));
    }
  }

  lemma DeliverableComplete(m: Message, recipient: string)
    ensures Complete(ItemFor(m, recipient)) <==> Deliverable(m, recipient)
  {
  }

  lemma DeliveredCalls(s: State, c: nat)
    requires Inv(s) && c in s.calls && s.calls[c].sent < |s.calls[c].recipients|
    ensures forall d {:trigger CallOk(Step(s, DeliverOne(c)), d)} ::
              d in Step(s, DeliverOne(c)).calls ==> CallOk(Step(s, DeliverOne(c)), d)
  {
    hide FromCall, Ok, HasPrefix, GroupsOk, InternalKey, Enqueued, TaskID, Deliverable;
    var call := s.calls[c];
    var to := call.recipients[call.sent];
    var s' := Step(s, DeliverOne(c));
    assert CallOk(s, c);
    DeliverableComplete(call.msg, to);
    EnqueuedOk(s.box, ItemFor(call.msg, to));
    BoxChangeKeepsCalls(s, s'.box);
    forall d | d in s'.calls ensures CallOk(s', d) {
      assert CallOk(s.(box := s'.box), d);
      if d == c { assert InBox(s'.box, call.msg, to); }
    }
  }

  lemma EnqueuedItems(box: Box, item: Item)
    ensures var box' := Enqueued(box, item);
            box'.items == box.items || box'.items == box.items + [item.(sequence := box.nextSeq)]
  {
  }

  lemma DeliveredItems(s: State, c: nat)
    requires Inv(s) && c in s.calls && s.calls[c].sent < |s.calls[c].recipients|
    ensures var s' := Step(s, DeliverOne(c));
            forall i :: 0 <= i < |s'.box.items| && HasPrefix(s'.box.items[i].key, RESERVED) ==> FromCall(s', s'.box.items[i])
  {
    hide GroupsOk, HasPrefix, InBox, CallOk, Enqueued, Ok, FromCall, InternalKey, Carries;
    var call := s.calls[c];
    var to := call.recipients[call.sent];
    var item := ItemFor(call.msg, to);
    var s' := Step(s, DeliverOne(c));
    SentInRange(s);
    EnqueuedItems(s.box, item);
    forall i | 0 <= i < |s'.box.items| && HasPrefix(s'.box.items[i].key, RESERVED) ensures FromCall(s', s'.box.items[i]) {
      if i < |s.box.items| {
        FromCallGrows(s, s', s'.box.items[i]);
      } else {
        ItemCarries(call.msg, to);
        SameContent(s'.box.items[i], item, call.msg, to);
        JustSent(s', c, s'.box.items[i]);
      }
    }
  }

  lemma ItemCarries(m: Message, recipient: string)
    ensures Carries(ItemFor(m, recipient), m, recipient)
  {
  }

  lemma SameContent(a: Item, b: Item, m: Message, recipient: string)
    requires a.context == b.context && a.message == b.message && a.task == b.task && Carries(b, m, recipient)
    ensures Carries(a, m, recipient)
  {
  }

  lemma JustSent(s: State, c: nat, item: Item)
    requires c in s.calls && 0 < s.calls[c].sent <= |s.calls[c].recipients|
    requires var call := s.calls[c];
             Addressed(item, call.msg.hub, call.recipients[call.sent - 1], call.msg.sender, InternalKey(call.msg.group, call.msg.key)) &&
             Carries(item, call.msg, call.recipients[call.sent - 1])
    ensures FromCall(s, item)
  {
  }

  /** A step that leaves the mailbox alone and only adds or advances calls. */
  lemma CallsInv(s: State, s': State)
    requires Inv(s) && s'.box == s.box
    requires forall c :: c in s.calls ==>
               (c in s'.calls && s'.calls[c].msg == s.calls[c].msg && s'.calls[c].recipients == s.calls[c].recipients &&
                s.calls[c].sent <= s'.calls[c].sent <= |s'.calls[c].recipients|)
    requires GroupsOk(s') && forall c {:trigger CallOk(s', c)} :: c in s'.calls ==> CallOk(s', c)
    ensures Inv(s')
  {
    hide FromCall, Ok, HasPrefix, CallOk, GroupsOk;
    forall i | 0 <= i < |s'.box.items| && HasPrefix(s'.box.items[i].key, RESERVED) ensures FromCall(s', s'.box.items[i]) {
      FromCallGrows(s, s', s.box.items[i]);
    }
  }

  lemma CallKept(s: State, s': State, d: nat)
    requires s'.box == s.box && d in s.calls && d in s'.calls && CallOk(s, d)
    requires s'.calls[d] == s.calls[d] ||
             (s'.calls[d] == s.calls[d].(finished := true) && s.calls[d].sent == |s.calls[d].recipients|)
    ensures CallOk(s', d)
  {
  }

  lemma SentInRange(s: State)
    requires forall c {:trigger CallOk(s, c)} :: c in s.calls ==> CallOk(s, c)
    ensures forall c :: c in s.calls ==> s.calls[c].sent <= |s.calls[c].recipients|
  {
    forall c | c in s.calls ensures s.calls[c].sent <= |s.calls[c].recipients| { assert CallOk(s, c); }
  }

  lemma {:induction false} RecipientsNamed(members: seq<Member>, sender: string)
    requires NamedMembers(members)
    ensures forall k :: 0 <= k < |Recipients(members, sender)| ==> Recipients(members, sender)[k] != ""
  {
    if members != [] { RecipientsNamed(members[..|members| - 1], sender); }
  }

  /** What the route checks is what the mailbox needs. */
  lemma BegunDeliverable(s: State, m: Message, maxFanout: int, maxPayload: int)
    requires GroupsOk(s) && Posted(m, maxPayload) && Begin(s.groups, s.messages, s.nextID, m, maxFanout).Sending?
    ensures var r := Begin(s.groups, s.messages, s.nextID, m, maxFanout);
            Generated(r.msg.group) && forall k :: 0 <= k < |r.recipients| ==> Deliverable(r.msg, r.recipients[k])
  {
    hide GroupID, Recipients, FirstSent;
    RecipientsNamed(s.groups[m.group].members, m.sender);
  }

  lemma AddCallInv(s: State, c: nat, call: Call)
    requires Inv(s) && c !in s.calls && call.sent == 0 && !call.finished && Generated(call.msg.group)
    requires forall k :: 0 <= k < |call.recipients| ==> Deliverable(call.msg, call.recipients[k])
    ensures Inv(s.(nextID := s.nextID + 1, calls := s.calls[c := call]))
  {
    hide InBox, FromCall, Ok, HasPrefix, Generated, Deliverable;
    var s' := s.(nextID := s.nextID + 1, calls := s.calls[c := call]);
    assert CallOk(s', c);
    SentInRange(s);
    hide CallOk;
    forall d | d in s'.calls ensures CallOk(s', d) {
      if d != c { CallKept(s, s', d); }
    }
    CallsInv(s, s');
  }

  lemma StartCallInv(s: State, c: nat, m: Message, maxFanout: int, maxPayload: int)
    requires Inv(s)
    ensures Inv(Step(s, StartCall(c, m, maxFanout, maxPayload)))
  {
    hide Inv, Begin, Posted, Generated, Deliverable;
    var r := Begin(s.groups, s.messages, s.nextID, m, maxFanout);
    if c !in s.calls && Posted(m, maxPayload) && r.Sending? {
      InvGroups(s);
      BegunDeliverable(s, m, maxFanout, maxPayload);
      AddCallInv(s, c, Call(r.msg, r.recipients, 0, false));
    }
  }

  lemma InvGroups(s: State)
    requires Inv(s)
    ensures GroupsOk(s)
  {
  }

  lemma FinishCallInv(s: State, c: nat)
    requires Inv(s)
    ensures Inv(Step(s, FinishCall(c)))
  {
    if c in s.calls && s.calls[c].sent == |s.calls[c].recipients| && !s.calls[c].finished {
      CloseCallInv(s, c);
    }
  }

  lemma CloseCallInv(s: State, c: nat)
    requires Inv(s) && c in s.calls && s.calls[c].sent == |s.calls[c].recipients|
    ensures Inv(s.(messages := s.messages + [s.calls[c].msg], calls := s.calls[c := s.calls[c].(finished := true)]))
  {
    hide InBox, FromCall, Ok, HasPrefix, Generated, Deliverable, CallOk;
    var s' := s.(messages := s.messages + [s.calls[c].msg], calls := s.calls[c := s.calls[c].(finished := true)]);
    SentInRange(s);
    forall d | d in s'.calls ensures CallOk(s', d) { CallKept(s, s', d); }
    CallsInv(s, s');
  }

  lemma GroupChangeInv(s: State, a: Action)
    requires Inv(s) && (a.CreateGroup? || a.ChangeGroup?)
    ensures Inv(Step(s, a))
  {
    hide InBox, FromCall, Ok, HasPrefix, Deliverable, GroupID, CallOk;
    var s' := Step(s, a);
    forall d | d in s'.calls ensures CallOk(s', d) { CallKept(s, s', d); }
    SentInRange(s);
    CallsInv(s, s');
  }

  lemma {:induction false} EveryInterleaving(actions: seq<Action>)
    ensures Inv(Run(actions))
  {
    if actions != [] {
      hide Inv;
      var before, a := actions[..|actions| - 1], actions[|actions| - 1];
      EveryInterleaving(before);
      var s := Run(before);
      match a {
        case DeliverOne(c) => DeliverInv(s, c);
        case PeerTask(item) => if PeerKeyAllowed(item.key) { PeerInv(s, item); }
        case AcknowledgeItem(hub, target, sequence, now) => StampInv(s, BySequence(hub, target, sequence), now);
        case CancelTask(hub, task, now) => StampInv(s, ByTask(hub, task), now);
        case StartCall(c, m, maxFanout, maxPayload) => StartCallInv(s, c, m, maxFanout, maxPayload);
        case FinishCall(c) => FinishCallInv(s, c);
        case CreateGroup(_, _) | ChangeGroup(_, _) => GroupChangeInv(s, a);
      }
    } else {
      StartInv();
    }
  }

  lemma StartInv()
    ensures Inv(START)
  {
  }

  /** Item i is the one and only item of this message for this recipient. */
  ghost predicate OnlyItem(box: Box, i: nat, m: Message, to: string) {
    i < |box.items| && forall j :: 0 <= j < |box.items| ==>
      (Addressed(box.items[j], m.hub, to, m.sender, InternalKey(m.group, m.key)) <==> j == i)
  }

  /** However calls with one idempotency key interleave, once a call has finished each recipient it snapshotted has exactly
      one inbox item for that hub, sender, group and key. */
  lemma ExactlyOneItem(actions: seq<Action>, c: nat, k: nat)
    requires c in Run(actions).calls && Run(actions).calls[c].finished && k < |Run(actions).calls[c].recipients|
    ensures var s := Run(actions);
            var m, to := s.calls[c].msg, s.calls[c].recipients[k];
            exists i :: OnlyItem(s.box, i, m, to)
  {
    EveryInterleaving(actions);
    var s := Run(actions);
    var m, to := s.calls[c].msg, s.calls[c].recipients[k];
    assert CallOk(s, c);
    var i :| 0 <= i < |s.box.items| && Addressed(s.box.items[i], m.hub, to, m.sender, InternalKey(m.group, m.key));
    forall j | 0 <= j < |s.box.items|
      ensures Addressed(s.box.items[j], m.hub, to, m.sender, InternalKey(m.group, m.key)) <==> j == i
    {
      if j < i { assert !SameAddress(s.box.items[j], s.box.items[i]); }
      if i < j { assert !SameAddress(s.box.items[i], s.box.items[j]); }
    }
    assert OnlyItem(s.box, i, m, to);
  }

  /** A reserved key in the mailbox always comes from a group call: no peer task can occupy one. */
  lemma ReservedKeysAreGroupItems(actions: seq<Action>, i: nat)
    requires i < |Run(actions).box.items| && HasPrefix(Run(actions).box.items[i].key, RESERVED)
    ensures FromCall(Run(actions), Run(actions).box.items[i])
  {
    EveryInterleaving(actions);
  }

  // ---------- the mailbox key ----------

  /** Two pairs share a mailbox key exactly when they are equal or one group id continues the other with a colon and what
      the other's key starts with. */
  lemma InternalKeyEqualIff(g1: string, k1: string, g2: string, k2: string)
    ensures InternalKey(g1, k1) == InternalKey(g2, k2) <==>
            (g1 == g2 && k1 == k2) || (exists x :: Continued(g1, k1, g2, k2, x)) || (exists x :: Continued(g2, k2, g1, k1, x))
  {
    if InternalKey(g1, k1) == InternalKey(g2, k2) {
      SameKeyCases(g1, k1, g2, k2);
    }
    if x :| Continued(g1, k1, g2, k2, x) {
      assert g2 + ":" + x + ":" + k1 == g2 + ":" + (x + ":" + k1);
      assert InternalKey(g1, k1) == RESERVED + (g1 + ":" + k1) && InternalKey(g2, k2) == RESERVED + (g2 + ":" + k2);
    }
    if x :| Continued(g2, k2, g1, k1, x) {
      assert g1 + ":" + x + ":" + k2 == g1 + ":" + (x + ":" + k2);
      assert InternalKey(g1, k1) == RESERVED + (g1 + ":" + k1) && InternalKey(g2, k2) == RESERVED + (g2 + ":" + k2);
    }
  }

  ghost predicate Continued(g1: string, k1: string, g2: string, k2: string, x: string) {
    g1 == g2 + ":" + x && k2 == x + ":" + k1
  }

  lemma SameKeyCases(g1: string, k1: string, g2: string, k2: string)
    requires InternalKey(g1, k1) == InternalKey(g2, k2)
    ensures (g1 == g2 && k1 == k2) || (exists x :: Continued(g1, k1, g2, k2, x)) || (exists x :: Continued(g2, k2, g1, k1, x))
  {
    var n := |RESERVED|;
    assert InternalKey(g1, k1)[n..] == g1 + ":" + k1 && InternalKey(g2, k2)[n..] == g2 + ":" + k2;
    var a, b := g1 + ":" + k1, g2 + ":" + k2;
    if |g1| == |g2| {
      assert g1 == a[..|g1|] && g2 == b[..|g2|] && k1 == a[|g1| + 1..] && k2 == b[|g2| + 1..];
    } else if |g1| > |g2| {
      LongerContinues(g1, k1, g2, k2);
    } else {
      LongerContinues(g2, k2, g1, k1);
    }
  }

  lemma LongerContinues(g1: string, k1: string, g2: string, k2: string)
    requires g1 + ":" + k1 == g2 + ":" + k2 && |g1| > |g2|
    ensures Continued(g1, k1, g2, k2, g1[|g2| + 1..])
  {
    var s := g1 + ":" + k1;
    assert s == g2 + ":" + k2;
    assert g1 == s[..|g1|] && g2 == s[..|g2|] && s[|g2|] == ':' && g1[|g2|] == s[|g2|];
    assert k2 == s[|g2| + 1..] && s[|g1|] == ':' && k1 == s[|g1| + 1..];
    var x := g1[|g2| + 1..];
    assert x == s[|g2| + 1..|g1|];
    assert g1 == g2 + [s[|g2|]] + x;
    assert k2 == x + [s[|g1|]] + k1;
  }

  /** Group ids that hold no colon never share a key, whatever the messages' own keys hold. */
  lemma InternalKeyInjective(g1: string, k1: string, g2: string, k2: string)
    requires InternalKey(g1, k1) == InternalKey(g2, k2) && ':' !in g1 && ':' !in g2
    ensures g1 == g2 && k1 == k2
  {
    InternalKeyEqualIff(g1, k1, g2, k2);
    forall x ensures !Continued(g1, k1, g2, k2, x) && !Continued(g2, k2, g1, k1, x) {
      NoColonNotContinued(g1, k1, g2, k2, x);
      NoColonNotContinued(g2, k2, g1, k1, x);
    }
  }

  lemma NoColonNotContinued(g1: string, k1: string, g2: string, k2: string, x: string)
    ensures Continued(g1, k1, g2, k2, x) ==> ':' in g1
  {
  }

  /** The ids this program generates are of that kind: equal mailbox keys mean the same group and the same key. */
  lemma GeneratedKeysInjective(a: seq<octet>, k1: string, b: seq<octet>, k2: string)
    ensures InternalKey(GroupID(a), k1) == InternalKey(GroupID(b), k2) <==> a == b && k1 == k2
  {
    HexHasNoColon(a);
    HexHasNoColon(b);
    if InternalKey(GroupID(a), k1) == InternalKey(GroupID(b), k2) {
      InternalKeyInjective(GroupID(a), k1, GroupID(b), k2);
      assert GroupID(a)[4..] == Hex(a) && GroupID(b)[4..] == Hex(b);
      HexInjective(a, b);
    }
  }

  /** Call c sent this item: to one it snapshotted, with its own text and context. */
  ghost predicate SentBy(s: State, item: Item, c: nat) {
    && c in s.calls && item.target in s.calls[c].recipients
    && item.hub == s.calls[c].msg.hub && item.requester == s.calls[c].msg.sender
    && item.message == s.calls[c].msg.text && item.context == s.calls[c].msg.context
    && item.task == "grp-" + Itoa(s.calls[c].msg.id) + "-" + item.target
  }

  /** So in every run an item under a group message's key was sent by a call for that very group and key, and carries that
      call's text, context and task id. */
  lemma ItemBelongsToItsGroup(actions: seq<Action>, i: nat, raw: seq<octet>, key: string)
    requires i < |Run(actions).box.items| && Run(actions).box.items[i].key == InternalKey(GroupID(raw), key)
    ensures exists c :: SentBy(Run(actions), Run(actions).box.items[i], c) &&
              Run(actions).calls[c].msg.group == GroupID(raw) && Run(actions).calls[c].msg.key == key
  {
    hide Run, GroupID, InternalKey;
    EveryInterleaving(actions);
    var s := Run(actions);
    KeyIsReserved(GroupID(raw), key);
    var c, k :| c in s.calls && 0 <= k < s.calls[c].sent <= |s.calls[c].recipients| &&
      Addressed(s.box.items[i], s.calls[c].msg.hub, s.calls[c].recipients[k], s.calls[c].msg.sender,
                InternalKey(s.calls[c].msg.group, s.calls[c].msg.key)) &&
      Carries(s.box.items[i], s.calls[c].msg, s.calls[c].recipients[k]);
    var other :| GroupID(other) == s.calls[c].msg.group;
    GeneratedKeysInjective(raw, key, other, s.calls[c].msg.key);
    assert SentBy(s, s.box.items[i], c);
  }

  /** When no other call of the same sender and group uses a call's key, each recipient of that call, once it has finished,
      holds exactly one item for it, and that item carries the call's own text, context and task id. */
  lemma OwnContent(actions: seq<Action>, c: nat, k: nat) returns (i: nat)
    requires c in Run(actions).calls && Run(actions).calls[c].finished && k < |Run(actions).calls[c].recipients|
    requires forall d :: d in Run(actions).calls && SameMessage(Run(actions).calls[d].msg, Run(actions).calls[c].msg) ==> d == c
    ensures var s := Run(actions);
            var m, to := s.calls[c].msg, s.calls[c].recipients[k];
            && OnlyItem(s.box, i, m, to) && i < |s.box.items| && s.box.items[i].target == to
            && s.box.items[i].message == m.text && s.box.items[i].context == m.context
            && s.box.items[i].task == "grp-" + Itoa(m.id) + "-" + to
  {
    hide Run, GroupID, InternalKey;
    EveryInterleaving(actions);
    ExactlyOneItem(actions, c, k);
    var s := Run(actions);
    var m, to := s.calls[c].msg, s.calls[c].recipients[k];
    i :| OnlyItem(s.box, i, m, to);
    var raw :| GroupID(raw) == m.group;
    ItemBelongsToItsGroup(actions, i, raw, m.key);
    var d :| SentBy(s, s.box.items[i], d) && s.calls[d].msg.group == m.group && s.calls[d].msg.key == m.key;
    assert SameMessage(s.calls[d].msg, m);
  }

  lemma KeyIsReserved(group: string, key: string)
    ensures HasPrefix(InternalKey(group, key), RESERVED)
  {
  }

  /** Ids with colons, which only a direct call of the store could pass, can share a key. */
  lemma InternalKeyAmbiguous()
    ensures InternalKey("a:b", "c") == InternalKey("a", "b:c")
  {
    assert Continued("a:b", "c", "a", "b:c", "b");
    InternalKeyEqualIff("a:b", "c", "a", "b:c");
  }

  // ---------- one call by itself ----------

  function Accepted(r: EnqueueResult): nat {
    match r
    case Queued(i) => i.sequence
    case Duplicate(i) => i.sequence
    case Incomplete => 0
  }

  /** The mailbox after the items of a message have been queued in turn, and the sequences reported for them. */
  function DeliveredAll(box: Box, m: Message, to: seq<string>): (Box, seq<nat>) {
    if to == [] then (box, [])
    else
      var (b, sequences) := DeliveredAll(box, m, to[..|to| - 1]);
      var item := ItemFor(m, to[|to| - 1]);
      (Enqueued(b, item), sequences + [Accepted(Sent(b, item))])
  }

  /** The mailbox refuses a group item exactly when hub, recipient, sender, context or text is empty. */
  lemma IncompleteReachesNobody(box: Box, m: Message, to: string)
    ensures Sent(box, ItemFor(m, to)) == Incomplete <==> !Deliverable(m, to)
  {
  }

  /** So a call of the store with an empty context or text, which the route never makes, reports every delivery with
      sequence 0 and queues nothing. */
  lemma {:induction false} EmptyMessageReachesNobody(box: Box, m: Message, to: seq<string>)
    requires m.context == "" || m.text == ""
    ensures DeliveredAll(box, m, to).0 == box && |DeliveredAll(box, m, to).1| == |to|
    ensures forall i :: 0 <= i < |to| ==> DeliveredAll(box, m, to).1[i] == 0
  {
    if to != [] {
      EmptyMessageReachesNobody(box, m, to[..|to| - 1]);
      IncompleteReachesNobody(box, m, to[|to| - 1]);
    }
  }

  function Deliveries(c: nat, n: nat): seq<Action> { seq(n, _ => DeliverOne(c)) }

  lemma RunSnoc(actions: seq<Action>, a: Action)
    ensures Run(actions + [a]) == Step(Run(actions), a)
  {
    assert (actions + [a])[..|actions|] == actions;
  }

  lemma {:induction false} DeliverInTurn(actions: seq<Action>, c: nat, n: nat)
    requires var s := Run(actions); c in s.calls && s.calls[c].sent == 0 && n <= |s.calls[c].recipients|
    ensures var s := Run(actions);
            Run(actions + Deliveries(c, n)) ==
            s.(box := DeliveredAll(s.box, s.calls[c].msg, s.calls[c].recipients[..n]).0,
               calls := s.calls[c := s.calls[c].(sent := n)])
  {
    hide Run;
    var s := Run(actions);
    if n == 0 {
      assert actions + Deliveries(c, 0) == actions;
      assert s.calls[c := s.calls[c].(sent := 0)] == s.calls;
    } else {
      DeliverInTurn(actions, c, n - 1);
      assert actions + Deliveries(c, n) == actions + Deliveries(c, n - 1) + [DeliverOne(c)];
      RunSnoc(actions + Deliveries(c, n - 1), DeliverOne(c));
      var to := s.calls[c].recipients;
      assert to[..n][..n - 1] == to[..n - 1];
      var s' := Run(actions + Deliveries(c, n - 1));
      assert s'.calls[c := s'.calls[c].(sent := n)] == s.calls[c := s.calls[c].(sent := n)];
    }
  }

  /** The whole of a call that nothing interrupts: the steps of the interleaved model add up to what SendGroupMessage does. */
  lemma CallAlone(actions: seq<Action>, c: nat, m: Message, maxFanout: int, maxPayload: int)
    requires c !in Run(actions).calls && Posted(m, maxPayload)
    requires Begin(Run(actions).groups, Run(actions).messages, Run(actions).nextID, m, maxFanout).Sending?
    ensures var s := Run(actions);
            var r := Begin(s.groups, s.messages, s.nextID, m, maxFanout);
            Run(actions + [StartCall(c, m, maxFanout, maxPayload)] + Deliveries(c, |r.recipients|) + [FinishCall(c)]) ==
            State(DeliveredAll(s.box, r.msg, r.recipients).0, s.groups, s.messages + [r.msg], s.nextID + 1,
                  s.calls[c := Call(r.msg, r.recipients, |r.recipients|, true)])
  {
    hide Run, Begin, Posted;
    var s := Run(actions);
    var r := Begin(s.groups, s.messages, s.nextID, m, maxFanout);
    var started := actions + [StartCall(c, m, maxFanout, maxPayload)];
    var n := |r.recipients|;
    RunSnoc(actions, StartCall(c, m, maxFanout, maxPayload));
    DeliverInTurn(started, c, n);
    assert r.recipients[..n] == r.recipients;
    var sent := Run(started + Deliveries(c, n));
    assert Run(started) == s.(nextID := s.nextID + 1, calls := s.calls[c := Call(r.msg, r.recipients, 0, false)]);
    assert sent.calls == s.calls[c := Call(r.msg, r.recipients, n, false)];
    assert sent == State(DeliveredAll(s.box, r.msg, r.recipients).0, s.groups, s.messages, s.nextID + 1, sent.calls);
    RunSnoc(started + Deliveries(c, n), FinishCall(c));
    assert sent.calls[c := Call(r.msg, r.recipients, n, true)] == s.calls[c := Call(r.msg, r.recipients, n, true)];
  }

  // ---------- the store object ----------

  class MemoryHubGroupStore {
    var groups: map<string, Group>
    var messages: seq<Message>
    var nextMsgID: nat
    const mailbox: MemoryHubMailbox

    constructor (mailbox: MemoryHubMailbox)
      ensures this.mailbox == mailbox && groups == map[] && messages == [] && nextMsgID == 1
    {
      this.mailbox := mailbox;
      groups, messages, nextMsgID := map[], [], 1;
    }

    /** The first critical section. */
    method BeginSend(m: Message, maxFanout: int) returns (r: Begun)
      modifies `nextMsgID
      ensures r == Begin(groups, messages, old(nextMsgID), m, maxFanout)
      ensures nextMsgID == old(nextMsgID) + (if r.Sending? then 1 else 0)
    {
      for i := 0 to |messages|
        invariant FirstSent(messages, m) == FirstSent(messages[i..], m) && nextMsgID == old(nextMsgID)
      {
        var existing := messages[i];
        if existing.group == m.group && existing.sender == m.sender && existing.key == m.key {
          return AlreadySent(existing);
        }
        assert messages[i..][1..] == messages[i + 1..];
      }
      if m.group !in groups || !groups[m.group].active { return GroupNotFound; }
      var members := groups[m.group].members;
      var isSenderMember := false;
      var recipients := [];
      for i := 0 to |members|
        invariant recipients == Recipients(members[..i], m.sender)
        invariant isSenderMember <==> IsActiveMember(members[..i], m.sender)
      {
        assert members[..i + 1][..i] == members[..i];
        var x := members[i];
        assert IsActiveMember(members[..i + 1], m.sender) <==>
               IsActiveMember(members[..i], m.sender) || (x.active && x.agent == m.sender) by {
          assert members[..i + 1][i] == x;
          assert forall j :: 0 <= j < i ==> members[..i + 1][j] == members[..i][j];
        }
        if x.agent == m.sender && x.active { isSenderMember := true; }
        if x.agent != m.sender && x.active { recipients := recipients + [x.agent]; }
      }
      assert members[..|members|] == members;
      if !isSenderMember { return Forbidden; }
      if |recipients| == 0 || (maxFanout > 0 && |recipients| > maxFanout) { return InvalidState; }
      var msg := m.(id := nextMsgID);
      nextMsgID := nextMsgID + 1;
      return Sending(msg, recipients);
    }

    /** The deliveries, outside the lock. */
    method Deliver(msg: Message, recipients: seq<string>) returns (sequences: seq<nat>)
      modifies mailbox
      ensures (mailbox.View(), sequences) == DeliveredAll(old(mailbox.View()), msg, recipients)
    {
      hide Enqueued, Sent;
      sequences := [];
      for i := 0 to |recipients|
        invariant (mailbox.View(), sequences) == DeliveredAll(old(mailbox.View()), msg, recipients[..i])
      {
        assert recipients[..i + 1][..i] == recipients[..i];
        var res := mailbox.EnqueueItem(ItemFor(msg, recipients[i]));
        var sequence := match res case Queued(x) => x.sequence case Duplicate(x) => x.sequence case Incomplete => 0;
        sequences := sequences + [sequence];
      }
      assert recipients[..|recipients|] == recipients;
    }

    /** A call that runs by itself. */
    method SendGroupMessage(m: Message, maxFanout: int) returns (r: Begun, sequences: seq<nat>)
      modifies this, mailbox
      ensures r == Begin(groups, old(messages), old(nextMsgID), m, maxFanout) && groups == old(groups)
      ensures r.Sending? ==>
                r.msg == m.(id := old(nextMsgID)) && messages == old(messages) + [r.msg] && nextMsgID == old(nextMsgID) + 1 &&
                (mailbox.View(), sequences) == DeliveredAll(old(mailbox.View()), r.msg, r.recipients)
      ensures !r.Sending? ==>
                messages == old(messages) && nextMsgID == old(nextMsgID) && mailbox.View() == old(mailbox.View())
    {
      r := BeginSend(m, maxFanout);
      sequences := [];
      match r {
        case Sending(msg, recipients) =>
          sequences := Deliver(msg, recipients);
          messages := messages + [msg];
        case _ =>
      }
    }
  }
}
