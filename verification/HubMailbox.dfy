/** hub_mailbox.go: the in-memory peer mailbox. Items are only ever appended and acknowledged; sending is idempotent on
    hub, target, requester and idempotency key. */
module HubMailbox {
  import opened Options
  import opened Sorting

  datatype Item = Item(sequence: nat, hub: string, target: string, requester: string, task: string, context: string,
                       key: string, message: string, createdAt: int, acknowledgedAt: Option<int>)

  datatype Box = Box(nextSeq: nat, items: seq<Item>)

  const EMPTY := Box(1, [])

  predicate Complete(i: Item) {
    i.hub != "" && i.target != "" && i.requester != "" && i.task != "" && i.context != "" && i.key != "" && i.message != ""
  }

  predicate Addressed(i: Item, hub: string, target: string, requester: string, key: string) {
    i.hub == hub && i.target == target && i.requester == requester && i.key == key
  }

  predicate SameAddress(i: Item, j: Item) { Addressed(i, j.hub, j.target, j.requester, j.key) }

  /** The first item with this address. */
  function Lookup(items: seq<Item>, hub: string, target: string, requester: string, key: string): (r: Option<Item>)
    ensures r.Some? ==> r.value in items && Addressed(r.value, hub, target, requester, key)
    ensures r.None? <==> forall i :: 0 <= i < |items| ==> !Addressed(items[i], hub, target, requester, key)
  {
    if items == [] then None
    else if Addressed(items[0], hub, target, requester, key) then Some(items[0])
    else
      assert items == [items[0]] + items[1..];
      Lookup(items[1..], hub, target, requester, key)
  }

  datatype EnqueueResult = Queued(item: Item) | Duplicate(item: Item) | Incomplete

  function Sent(box: Box, item: Item): EnqueueResult {
    if !Complete(item) then Incomplete
    else
      var existing := Lookup(box.items, item.hub, item.target, item.requester, item.key);
      if existing.Some? then Duplicate(existing.value) else Queued(item.(sequence := box.nextSeq))
  }

  function Enqueued(box: Box, item: Item): Box {
    match Sent(box, item)
    case Queued(i) => Box(box.nextSeq + 1, box.items + [i])
    case _ => box
  }

  function Stamp(i: Item, now: int): Item { if i.acknowledgedAt.None? then i.(acknowledgedAt := Some(now)) else i }

  /** Index of the first item that satisfies p, or the length. */
  function FirstIndex(items: seq<Item>, p: Item -> bool): (n: nat)
    ensures n <= |items| && (n < |items| ==> p(items[n])) && forall i :: 0 <= i < n ==> !p(items[i])
  {
    if items == [] || p(items[0]) then 0 else 1 + FirstIndex(items[1..], p)
  }

  function Stamped(box: Box, p: Item -> bool, now: int): Box {
    var n := FirstIndex(box.items, p);
    if n < |box.items| then box.(items := box.items[n := Stamp(box.items[n], now)]) else box
  }

  function BySequence(hub: string, target: string, sequence: nat): Item -> bool {
    (i: Item) => i.hub == hub && i.target == target && i.sequence == sequence
  }

  function ByTask(hub: string, task: string): Item -> bool {
    (i: Item) => i.hub == hub && i.task == task
  }

  // ---------- runs ----------

  datatype Op = Enqueue(item: Item) | Acknowledge(hub: string, target: string, sequence: nat, now: int) |
                Cancel(hub: string, task: string, now: int)

  function Step(box: Box, op: Op): Box {
    match op
    case Enqueue(item) => Enqueued(box, item)
    case Acknowledge(hub, target, sequence, now) => Stamped(box, BySequence(hub, target, sequence), now)
    case Cancel(hub, task, now) => Stamped(box, ByTask(hub, task), now)
  }

  function Run(ops: seq<Op>): Box {
    if ops == [] then EMPTY else Step(Run(ops[..|ops| - 1]), ops[|ops| - 1])
  }

  /** Sequence numbers count from 1 without gap, and no two items share an address. */
  ghost predicate Ok(box: Box) {
    && box.nextSeq == |box.items| + 1
    && (forall i :: 0 <= i < |box.items| ==> box.items[i].sequence == i + 1 && Complete(box.items[i]))
    && (forall i, j :: 0 <= i < j < |box.items| ==> !SameAddress(box.items[i], box.items[j]))
  }

  /** What later states keep of an item: everything, except that it may become acknowledged, once. */
  predicate Continues(i: Item, j: Item) {
    j == i || (i.acknowledgedAt.None? && j.acknowledgedAt.Some? && j == i.(acknowledgedAt := j.acknowledgedAt))
  }

  ghost predicate Extends(a: Box, b: Box) {
    |a.items| <= |b.items| && forall i :: 0 <= i < |a.items| ==> Continues(a.items[i], b.items[i])
  }

  lemma StampedOk(box: Box, p: Item -> bool, now: int)
    requires Ok(box)
    ensures Ok(Stamped(box, p, now)) && Extends(box, Stamped(box, p, now)) && |Stamped(box, p, now).items| == |box.items|
  {
    var box' := Stamped(box, p, now);
    assert forall i :: 0 <= i < |box.items| ==> Continues(box.items[i], box'.items[i]);
    forall i, j | 0 <= i < j < |box'.items| ensures !SameAddress(box'.items[i], box'.items[j]) {
      assert !SameAddress(box.items[i], box.items[j]);
    }
  }

  lemma EnqueuedOk(box: Box, item: Item)
    requires Ok(box)
    ensures Ok(Enqueued(box, item)) && Extends(box, Enqueued(box, item))
    ensures Complete(item) ==> exists i :: 0 <= i < |Enqueued(box, item).items| && SameAddress(Enqueued(box, item).items[i], item)
  {
    var box' := Enqueued(box, item);
    match Sent(box, item) {
      case Queued(x) => assert SameAddress(box'.items[|box.items|], item);
      case Duplicate(x) => var i :| 0 <= i < |box.items| && box.items[i] == x;
      case Incomplete =>
    }
  }

  /** Every run keeps the numbering and the one-item-per-address rule, and never loses, reorders or rewrites an item. */
  lemma {:induction false} EveryRunOk(ops: seq<Op>)
    ensures Ok(Run(ops))
    ensures ops != [] ==> Extends(Run(ops[..|ops| - 1]), Run(ops))
  {
    if ops != [] {
      EveryRunOk(ops[..|ops| - 1]);
      var box := Run(ops[..|ops| - 1]);
      match ops[|ops| - 1] {
        case Enqueue(item) => EnqueuedOk(box, item);
        case Acknowledge(hub, target, sequence, now) => StampedOk(box, BySequence(hub, target, sequence), now);
        case Cancel(hub, task, now) => StampedOk(box, ByTask(hub, task), now);
      }
    }
  }

  // ---------- what one operation changes, item by item ----------

  /** The operation is meant for item k: an acknowledgement by hub, target and number, a cancellation by hub and task,
      which finds the earliest item of the task only. */
  ghost predicate Concerns(items: seq<Item>, k: nat, op: Op)
    requires k < |items|
  {
    match op
    case Enqueue(_) => false
    case Acknowledge(hub, target, sequence, _) => items[k].hub == hub && items[k].target == target && sequence == k + 1
    case Cancel(hub, task, _) =>
      items[k].hub == hub && items[k].task == task && forall j :: 0 <= j < k && items[j].hub == hub ==> items[j].task != task
  }

  lemma StampedItem(box: Box, p: Item -> bool, now: int, k: nat)
    requires k < |box.items|
    ensures var box' := Stamped(box, p, now);
            |box'.items| == |box.items| &&
            (p(box.items[k]) && (forall j :: 0 <= j < k ==> !p(box.items[j])) ==> box'.items[k] == Stamp(box.items[k], now)) &&
            (!(p(box.items[k]) && forall j :: 0 <= j < k ==> !p(box.items[j])) ==> box'.items[k] == box.items[k])
  {
  }

  /** In every run, one more operation leaves every item as it is, except that the one it is meant for becomes
      acknowledged at the operation's time unless it was already. */
  lemma OnlyItsItem(ops: seq<Op>, op: Op, k: nat)
    requires k < |Run(ops).items|
    ensures |Run(ops).items| <= |Run(ops + [op]).items|
    ensures var was, next := Run(ops).items[k], Run(ops + [op]).items[k];
            next == if Concerns(Run(ops).items, k, op) && was.acknowledgedAt.None?
                  then Item(was.sequence, was.hub, was.target, was.requester, was.task, was.context, was.key, was.message,
                            was.createdAt, Some(op.now))
                  else was
  {
    var box := Run(ops);
    EveryRunOk(ops);
    assert (ops + [op])[..|ops|] == ops;
    match op {
      case Enqueue(item) =>
      case Acknowledge(hub, target, sequence, now) => StampedItem(box, BySequence(hub, target, sequence), now, k);
      case Cancel(hub, task, now) =>
        StampedItem(box, ByTask(hub, task), now, k);
        hide Ok;
    }
  }

  /** An enqueue adds an item exactly when every field it needs is given and no item has its hub, target, requester and key;
      the new item is last, numbered by its place, and otherwise as given. No other operation adds one. */
  lemma AddedIff(ops: seq<Op>, op: Op)
    ensures var was, next := Run(ops).items, Run(ops + [op]).items;
            |next| == |was| || |next| == |was| + 1
    ensures var was, next := Run(ops).items, Run(ops + [op]).items;
            |next| == |was| + 1 <==>
              op.Enqueue? &&
              "" !in [op.item.hub, op.item.target, op.item.requester, op.item.task, op.item.context, op.item.key, op.item.message] &&
              forall k :: 0 <= k < |was| ==>
                !(was[k].hub == op.item.hub && was[k].target == op.item.target && was[k].requester == op.item.requester &&
                  was[k].key == op.item.key)
    ensures var was, next := Run(ops).items, Run(ops + [op]).items;
            |next| == |was| + 1 && op.Enqueue? ==>
              next[..|was|] == was && next[|was|] == op.item.(sequence := |was| + 1)
  {
    EveryRunOk(ops);
    assert (ops + [op])[..|ops|] == ops;
    hide Ok;
  }

  function Count(items: seq<Item>, p: Item -> bool): nat {
    if items == [] then 0 else Count(items[..|items| - 1], p) + (if p(items[|items| - 1]) then 1 else 0)
  }

  function Mine(hub: string): Item -> bool { (i: Item) => i.hub == hub }
  function Pending(hub: string): Item -> bool { (i: Item) => i.hub == hub && i.acknowledgedAt.None? }
  function Acked(hub: string): Item -> bool { (i: Item) => i.hub == hub && i.acknowledgedAt.Some? }

  /** Enqueued = pending + acknowledged, for every hub and every list of items. */
  lemma {:induction false} Conservation(items: seq<Item>, hub: string)
    ensures Count(items, Mine(hub)) == Count(items, Pending(hub)) + Count(items, Acked(hub))
  {
    if items != [] { Conservation(items[..|items| - 1], hub); }
  }

  /** The enqueue calls of a run that the mailbox accepted as new, for one hub. */
  function EnqueuedTotal(ops: seq<Op>, hub: string): nat {
    if ops == [] then 0
    else
      var before, op := ops[..|ops| - 1], ops[|ops| - 1];
      EnqueuedTotal(before, hub) +
      (if op.Enqueue? && op.item.hub == hub && Sent(Run(before), op.item).Queued? then 1 else 0)
  }

  lemma {:induction false} CountUpdate(items: seq<Item>, i: nat, x: Item, hub: string)
    requires i < |items| && x.hub == items[i].hub
    ensures Count(items[i := x], Mine(hub)) == Count(items, Mine(hub))
  {
    var init := items[..|items| - 1];
    if i == |items| - 1 {
      assert items[i := x][..|items| - 1] == init;
    } else {
      assert items[i := x][..|items| - 1] == init[i := x];
      CountUpdate(init, i, x, hub);
    }
  }

  lemma StampedCount(box: Box, p: Item -> bool, now: int, hub: string)
    ensures Count(Stamped(box, p, now).items, Mine(hub)) == Count(box.items, Mine(hub))
  {
    var n := FirstIndex(box.items, p);
    if n < |box.items| { CountUpdate(box.items, n, Stamp(box.items[n], now), hub); }
  }

  lemma EnqueuedCount(box: Box, item: Item, hub: string)
    ensures Count(Enqueued(box, item).items, Mine(hub)) ==
            Count(box.items, Mine(hub)) + (if item.hub == hub && Sent(box, item).Queued? then 1 else 0)
  {
    match Sent(box, item) {
      case Queued(i) => assert (box.items + [i])[..|box.items|] == box.items;
      case _ =>
    }
  }

  /** In every run, for every hub: enqueued = pending + acknowledged. */
  lemma EnqueuedConserved(ops: seq<Op>, hub: string)
    ensures EnqueuedTotal(ops, hub) == Count(Run(ops).items, Pending(hub)) + Count(Run(ops).items, Acked(hub))
  {
    CountsRun(ops, hub);
    Conservation(Run(ops).items, hub);
  }

  lemma {:induction false} CountsRun(ops: seq<Op>, hub: string)
    ensures EnqueuedTotal(ops, hub) == Count(Run(ops).items, Mine(hub))
  {
    if ops != [] {
      hide Count, Sent, Enqueued, Stamped;
      var before := ops[..|ops| - 1];
      CountsRun(before, hub);
      match ops[|ops| - 1] {
        case Enqueue(item) => EnqueuedCount(Run(before), item, hub);
        case Acknowledge(h, target, sequence, now) => StampedCount(Run(before), BySequence(h, target, sequence), now, hub);
        case Cancel(h, task, now) => StampedCount(Run(before), ByTask(h, task), now, hub);
      }
    }
  }

  // ---------- polling ----------

  predicate Waiting(i: Item, hub: string, target: string, after: nat) {
    i.hub == hub && i.target == target && i.sequence > after && i.acknowledgedAt.None?
  }

  /** The unacknowledged items of a target after a sequence number, in mailbox order. */
  function Inbox(items: seq<Item>, hub: string, target: string, after: nat): (r: seq<Item>)
    ensures forall i :: 0 <= i < |r| ==> r[i] in items && Waiting(r[i], hub, target, after)
  {
    if items == [] then []
    else
      var init, last := items[..|items| - 1], items[|items| - 1];
      Inbox(init, hub, target, after) + (if Waiting(last, hub, target, after) then [last] else [])
  }

  function Page(inbox: seq<Item>, limit: nat): seq<Item> { if |inbox| <= limit then inbox else inbox[..limit] }

  ghost predicate Sequenced(items: seq<Item>) {
    forall i, j :: 0 <= i < j < |items| ==> items[i].sequence < items[j].sequence
  }

  lemma InboxBelow(items: seq<Item>, hub: string, target: string, after: nat, bound: nat)
    requires forall i :: 0 <= i < |items| ==> items[i].sequence < bound
    ensures forall i :: 0 <= i < |Inbox(items, hub, target, after)| ==> Inbox(items, hub, target, after)[i].sequence < bound
  {
    var r := Inbox(items, hub, target, after);
    forall i | 0 <= i < |r| ensures r[i].sequence < bound { assert r[i] in items; }
  }

  lemma {:induction false} InboxSequenced(items: seq<Item>, hub: string, target: string, after: nat)
    requires Sequenced(items)
    ensures Sequenced(Inbox(items, hub, target, after))
  {
    if items != [] {
      var init, last := items[..|items| - 1], items[|items| - 1];
      assert items == init + [last];
      InboxSequenced(init, hub, target, after);
      InboxBelow(init, hub, target, after, last.sequence);
    }
  }

  lemma {:induction false} InboxPrefix(items: seq<Item>, n: nat, hub: string, target: string, after: nat)
    requires n <= |items|
    ensures Inbox(items[..n], hub, target, after) <= Inbox(items, hub, target, after)
  {
    if n < |items| {
      InboxPrefix(items[..|items| - 1], n, hub, target, after);
      assert items[..|items| - 1][..n] == items[..n];
    } else {
      assert items[..n] == items;
    }
  }

  function Beyond(items: seq<Item>, after: nat): seq<Item> {
    if items == [] then []
    else Beyond(items[..|items| - 1], after) + (if items[|items| - 1].sequence > after then [items[|items| - 1]] else [])
  }

  /** Polling from further on leaves out exactly what lies before. */
  lemma {:induction false} InboxFurther(items: seq<Item>, hub: string, target: string, after: nat, further: nat)
    requires after <= further
    ensures Inbox(items, hub, target, further) == Beyond(Inbox(items, hub, target, after), further)
  {
    if items != [] {
      var init, last := items[..|items| - 1], items[|items| - 1];
      InboxFurther(init, hub, target, after, further);
      var r := Inbox(init, hub, target, after);
      assert (r + [last])[..|r|] == r;
      assert r + [] == r;
    }
  }

  lemma {:induction false} BeyondNone(items: seq<Item>, after: nat)
    requires forall i :: 0 <= i < |items| ==> items[i].sequence <= after
    ensures Beyond(items, after) == []
  {
    if items != [] { BeyondNone(items[..|items| - 1], after); }
  }

  lemma {:induction false} BeyondNth(items: seq<Item>, n: nat, after: nat)
    requires n <= |items|
    requires forall i :: 0 <= i < n ==> items[i].sequence <= after
    requires forall i :: n <= i < |items| ==> items[i].sequence > after
    ensures Beyond(items, after) == items[n..]
  {
    if n == |items| {
      BeyondNone(items, after);
    } else {
      var init, last := items[..|items| - 1], items[|items| - 1];
      assert forall i :: 0 <= i < |init| ==> init[i] == items[i];
      BeyondNth(init, n, after);
      BeyondSnoc(init, last, after);
      assert items == init + [last] && items[n..] == init[n..] + [last];
      hide Beyond;
    }
  }

  lemma BeyondSnoc(items: seq<Item>, last: Item, after: nat)
    ensures Beyond(items + [last], after) == Beyond(items, after) + (if last.sequence > after then [last] else [])
  {
    assert (items + [last])[..|items|] == items;
  }

  lemma PageSplits(inbox: seq<Item>, limit: nat)
    requires Sequenced(inbox) && limit > 0 && inbox != []
    ensures var page := Page(inbox, limit);
            page != [] && page[|page| - 1] in inbox && inbox == page + inbox[|page|..] &&
            Beyond(inbox, page[|page| - 1].sequence) == inbox[|page|..]
  {
    var page := Page(inbox, limit);
    BeyondNth(inbox, |page|, page[|page| - 1].sequence);
  }

  lemma NextPage(items: seq<Item>, hub: string, target: string, after: nat, limit: nat)
    requires Sequenced(items) && limit > 0 && Inbox(items, hub, target, after) != []
    ensures var inbox := Inbox(items, hub, target, after);
            var page := Page(inbox, limit);
            page != [] && page[|page| - 1].sequence > after && inbox == page + inbox[|page|..] &&
            Inbox(items, hub, target, page[|page| - 1].sequence) == inbox[|page|..] &&
            |Inbox(items, hub, target, page[|page| - 1].sequence)| < |inbox|
  {
    hide Page, Beyond;
    var inbox := Inbox(items, hub, target, after);
    InboxSequenced(items, hub, target, after);
    PageSplits(inbox, limit);
    hide Inbox;
    var page := Page(inbox, limit);
    InboxFurther(items, hub, target, after, page[|page| - 1].sequence);
  }

  /** All pages of one poller: the k-th call asks for size(k) items after the last sequence it was given, until an empty
      page. */
  ghost function Collect(items: seq<Item>, hub: string, target: string, after: nat, size: nat -> nat, k: nat): seq<Item>
    requires Sequenced(items) && forall n :: size(n) > 0
    decreases |Inbox(items, hub, target, after)|
  {
    var inbox := Inbox(items, hub, target, after);
    if inbox == [] then []
    else
      var page := Page(inbox, size(k));
      NextPage(items, hub, target, after, size(k));
      page + Collect(items, hub, target, page[|page| - 1].sequence, size, k + 1)
  }

  /** Whatever the page sizes, polling page by page returns exactly the unacknowledged items, once each and in order. */
  lemma {:induction false} PagesCoverInbox(items: seq<Item>, hub: string, target: string, after: nat, size: nat -> nat, k: nat)
    requires Sequenced(items) && forall n :: size(n) > 0
    ensures Collect(items, hub, target, after, size, k) == Inbox(items, hub, target, after)
    decreases |Inbox(items, hub, target, after)|
  {
    hide Inbox, Page;
    var inbox := Inbox(items, hub, target, after);
    if inbox != [] {
      var page := Page(inbox, size(k));
      NextPage(items, hub, target, after, size(k));
      PagesCoverInbox(items, hub, target, page[|page| - 1].sequence, size, k + 1);
    }
  }

  // ---------- polling while the mailbox changes ----------

  /** What happens while one poller works through its inbox: anything to the mailbox, or its next poll. */
  datatype Happening = Change(op: Op) | NextPoll(limit: nat)

  /** The poller remembers the last sequence it was given. */
  datatype Session = Session(box: Box, cursor: nat, returned: seq<Item>)

  function Advance(s: Session, hub: string, target: string, h: Happening): Session {
    match h
    case Change(op) => s.(box := Step(s.box, op))
    case NextPoll(limit) =>
      var page := Page(Inbox(s.box.items, hub, target, s.cursor), limit);
      if page == [] then s else s.(cursor := page[|page| - 1].sequence, returned := s.returned + page)
  }

  function Polled(box: Box, hub: string, target: string, start: nat, hs: seq<Happening>): Session {
    if hs == [] then Session(box, start, [])
    else Advance(Polled(box, hub, target, start, hs[..|hs| - 1]), hub, target, hs[|hs| - 1])
  }

  /** What has been returned is ascending, lies behind the cursor, and holds every unacknowledged item behind it. */
  ghost predicate SessionOk(s: Session, hub: string, target: string, start: nat) {
    && Ok(s.box) && (s.cursor == start || start < s.cursor <= |s.box.items|)
    && Sequenced(s.returned)
    && (forall i :: 0 <= i < |s.returned| ==> start < s.returned[i].sequence <= s.cursor)
    && (forall x :: x in s.box.items && Waiting(x, hub, target, start) && x.sequence <= s.cursor ==> x in s.returned)
  }

  lemma {:induction false} InboxMembers(items: seq<Item>, hub: string, target: string, after: nat)
    ensures forall x :: x in Inbox(items, hub, target, after) <==> x in items && Waiting(x, hub, target, after)
  {
    if items != [] {
      var init, last := items[..|items| - 1], items[|items| - 1];
      assert items == init + [last];
      InboxMembers(init, hub, target, after);
    }
  }

  /** An item that is unacknowledged now has always been, and is as it was. */
  lemma UnacknowledgedStays(a: Box, b: Box, x: Item)
    requires Ok(a) && Ok(b) && Extends(a, b) && x in b.items && x.acknowledgedAt.None?
    ensures x in a.items || |a.items| < x.sequence
  {
    var i :| 0 <= i < |b.items| && b.items[i] == x;
    if i < |a.items| { assert Continues(a.items[i], b.items[i]); }
  }

  lemma StepOk(box: Box, op: Op)
    requires Ok(box)
    ensures Ok(Step(box, op)) && Extends(box, Step(box, op))
  {
    hide Ok, Extends;
    match op {
      case Enqueue(item) => EnqueuedOk(box, item);
      case Acknowledge(hub, target, sequence, now) => StampedOk(box, BySequence(hub, target, sequence), now);
      case Cancel(hub, task, now) => StampedOk(box, ByTask(hub, task), now);
    }
  }

  lemma ChangeOk(s: Session, hub: string, target: string, start: nat, op: Op)
    requires SessionOk(s, hub, target, start)
    ensures SessionOk(Advance(s, hub, target, Change(op)), hub, target, start)
  {
    hide Step, Sequenced;
    var box := Step(s.box, op);
    StepOk(s.box, op);
    forall x | x in box.items && Waiting(x, hub, target, start) && x.sequence <= s.cursor ensures x in s.returned {
      UnacknowledgedStays(s.box, box, x);
    }
  }

  lemma SequencedJoin(a: seq<Item>, b: seq<Item>, cursor: nat)
    requires Sequenced(a) && Sequenced(b)
    requires (forall i :: 0 <= i < |a| ==> a[i].sequence <= cursor) && forall i :: 0 <= i < |b| ==> cursor < b[i].sequence
    ensures Sequenced(a + b)
  {
  }

  lemma CoveredByPage(inbox: seq<Item>, limit: nat, x: Item)
    requires Sequenced(inbox) && Page(inbox, limit) != [] && x in inbox
    requires x.sequence <= Page(inbox, limit)[|Page(inbox, limit)| - 1].sequence
    ensures x in Page(inbox, limit)
  {
    var page := Page(inbox, limit);
    var k :| 0 <= k < |inbox| && inbox[k] == x;
    if k < |page| { assert page[k] == x; }
  }

  lemma PageCovers(inbox: seq<Item>, limit: nat)
    requires Sequenced(inbox)
    ensures var page := Page(inbox, limit);
            page != [] ==> forall x :: x in inbox && x.sequence <= page[|page| - 1].sequence ==> x in page
  {
    hide Page, Sequenced;
    var page := Page(inbox, limit);
    forall x | page != [] && x in inbox && x.sequence <= page[|page| - 1].sequence ensures x in page {
      CoveredByPage(inbox, limit, x);
    }
  }

  lemma PageBounds(inbox: seq<Item>, limit: nat)
    requires Sequenced(inbox)
    ensures var page := Page(inbox, limit);
            Sequenced(page) && forall i :: 0 <= i < |page| ==>
              i < |inbox| && page[i] == inbox[i] && page[i].sequence <= page[|page| - 1].sequence
  {
  }

  lemma InboxAt(items: seq<Item>, hub: string, target: string, cursor: nat)
    ensures var inbox := Inbox(items, hub, target, cursor);
            forall i :: 0 <= i < |inbox| ==> inbox[i] in items && inbox[i].sequence > cursor
  {
  }

  /** A page holds items from the cursor up to its own last one. */
  lemma PageFacts(items: seq<Item>, hub: string, target: string, cursor: nat, limit: nat)
    requires Sequenced(items)
    ensures var page := Page(Inbox(items, hub, target, cursor), limit);
            && Sequenced(page)
            && (forall i :: 0 <= i < |page| ==>
                  page[i] in items && cursor < page[i].sequence <= page[|page| - 1].sequence)
  {
    hide Page, Sequenced, Inbox;
    InboxSequenced(items, hub, target, cursor);
    InboxAt(items, hub, target, cursor);
    PageBounds(Inbox(items, hub, target, cursor), limit);
  }

  lemma PageHolds(items: seq<Item>, hub: string, target: string, cursor: nat, limit: nat, x: Item)
    requires Sequenced(items) && x in items && Waiting(x, hub, target, cursor)
    ensures var page := Page(Inbox(items, hub, target, cursor), limit);
            page != [] && x.sequence <= page[|page| - 1].sequence ==> x in page
  {
    InboxSequenced(items, hub, target, cursor);
    InboxMembers(items, hub, target, cursor);
    PageCovers(Inbox(items, hub, target, cursor), limit);
    hide Inbox, Page, Sequenced, Waiting;
  }

  lemma PollOk(s: Session, hub: string, target: string, start: nat, limit: nat)
    requires SessionOk(s, hub, target, start)
    ensures SessionOk(Advance(s, hub, target, NextPoll(limit)), hub, target, start)
  {
    hide Page, Inbox;
    var items := s.box.items;
    var page := Page(Inbox(items, hub, target, s.cursor), limit);
    assert Sequenced(items);
    PageFacts(items, hub, target, s.cursor, limit);
    if page != [] {
      var last := page[|page| - 1];
      LastIsNumbered(s.box, last);
      SequencedJoin(s.returned, page, s.cursor);
      hide Sequenced, Ok;
      forall x | x in items && Waiting(x, hub, target, start) && x.sequence <= last.sequence ensures x in s.returned + page {
        if s.cursor < x.sequence { PageHolds(items, hub, target, s.cursor, limit, x); }
      }
    }
  }

  lemma LastIsNumbered(box: Box, x: Item)
    requires Ok(box) && x in box.items
    ensures x.sequence <= |box.items|
  {
  }

  lemma {:induction false} EverySessionOk(ops: seq<Op>, hub: string, target: string, start: nat, hs: seq<Happening>)
    ensures SessionOk(Polled(Run(ops), hub, target, start, hs), hub, target, start)
  {
    if hs == [] {
      EveryRunOk(ops);
    } else {
      hide SessionOk, Advance;
      EverySessionOk(ops, hub, target, start, hs[..|hs| - 1]);
      var s := Polled(Run(ops), hub, target, start, hs[..|hs| - 1]);
      match hs[|hs| - 1] {
        case Change(op) => ChangeOk(s, hub, target, start, op);
        case NextPoll(limit) => PollOk(s, hub, target, start, limit);
      }
    }
  }

  ghost predicate ReturnedOnce(returned: seq<Item>, x: Item) {
    exists i :: 0 <= i < |returned| && returned[i] == x && forall j :: 0 <= j < |returned| && returned[j].sequence == x.sequence ==> j == i
  }

  /** However enqueues, acknowledgements and cancellations fall between the polls: nothing is returned twice, and an item
      that was never acknowledged has been returned exactly once when the cursor has passed it, or when polling finds
      nothing more. */
  lemma PollingMissesNothing(ops: seq<Op>, hub: string, target: string, start: nat, hs: seq<Happening>, x: Item)
    ensures Sequenced(Polled(Run(ops), hub, target, start, hs).returned)
    ensures var s := Polled(Run(ops), hub, target, start, hs);
            x in s.box.items && Waiting(x, hub, target, start) &&
            (x.sequence <= s.cursor || Inbox(s.box.items, hub, target, s.cursor) == []) ==>
              ReturnedOnce(s.returned, x)
  {
    hide Run, Polled;
    var s := Polled(Run(ops), hub, target, start, hs);
    EverySessionOk(ops, hub, target, start, hs);
    InboxMembers(s.box.items, hub, target, s.cursor);
    if x in s.box.items && Waiting(x, hub, target, start) && (x.sequence <= s.cursor || Inbox(s.box.items, hub, target, s.cursor) == []) {
      assert Waiting(x, hub, target, s.cursor) <==> s.cursor < x.sequence;
      var i :| 0 <= i < |s.returned| && s.returned[i] == x;
      assert forall j :: 0 <= j < |s.returned| && s.returned[j].sequence == x.sequence ==> j == i;
    }
  }

  // ---------- the mailbox object ----------

  datatype PollResult = Items(items: seq<Item>) | MissingIDs | BadLimit

  class MemoryHubMailbox {
    var nextSeq: nat
    var items: seq<Item>

    ghost function View(): Box
      reads this
    {
      Box(nextSeq, items)
    }

    constructor ()
      ensures View() == EMPTY
    {
      nextSeq, items := 1, [];
    }

    method EnqueueItem(item: Item) returns (r: EnqueueResult)
      modifies this
      ensures r == Sent(old(View()), item) && View() == Enqueued(old(View()), item)
    {
      if item.hub == "" || item.target == "" || item.requester == "" || item.task == "" || item.context == "" ||
         item.key == "" || item.message == "" {
        return Incomplete;
      }
      var existing := Find(item.hub, item.target, item.requester, item.key);
      if existing.Some? { return Duplicate(existing.value); }
      var stored := item.(sequence := nextSeq);
      nextSeq := nextSeq + 1;
      items := items + [stored];
      return Queued(stored);
    }

    method Find(hub: string, target: string, requester: string, key: string) returns (r: Option<Item>)
      ensures r == Lookup(items, hub, target, requester, key)
    {
      for i := 0 to |items|
        invariant Lookup(items, hub, target, requester, key) == Lookup(items[i..], hub, target, requester, key)
      {
        var item := items[i];
        if item.hub == hub && item.target == target && item.requester == requester && item.key == key {
          return Some(item);
        }
        assert items[i..][1..] == items[i + 1..];
      }
      return None;
    }

    method PendingCount(hub: string) returns (count: nat)
      ensures count == Count(items, Pending(hub))
    {
      count := 0;
      for i := 0 to |items|
        invariant count == Count(items[..i], Pending(hub))
      {
        assert items[..i + 1][..i] == items[..i];
        if items[i].hub == hub && items[i].acknowledgedAt.None? {
          count := count + 1;
        }
      }
      assert items[..|items|] == items;
    }

    method Poll(hub: string, target: string, after: nat, limit: int) returns (r: PollResult)
      requires Ok(View())
      ensures r.MissingIDs? <==> hub == "" || target == ""
      ensures r.BadLimit? <==> hub != "" && target != "" && (limit <= 0 || limit > 100)
      ensures r.Items? ==> limit > 0 && r.items == Page(Inbox(items, hub, target, after), limit)
    {
      if hub == "" || target == "" { return MissingIDs; }
      if limit <= 0 || limit > 100 { return BadLimit; }
      var page := Scan(hub, target, after, limit);
      assert Sequenced(items);
      InboxSequenced(items, hub, target, after);
      hide Inbox;
      var before := (a: Item, b: Item) => a.sequence < b.sequence;
      SortOfSorted(page, before);
      page := Sort(page, before);
      return Items(page);
    }

    /** The scan stops as soon as the page is full. */
    method Scan(hub: string, target: string, after: nat, limit: nat) returns (page: seq<Item>)
      requires limit > 0
      ensures page == Page(Inbox(items, hub, target, after), limit)
    {
      page := [];
      for i := 0 to |items|
        invariant page == Inbox(items[..i], hub, target, after) && |page| < limit
      {
        var item := items[i];
        assert items[..i + 1][..i] == items[..i];
        if item.hub == hub && item.target == target && item.sequence > after && item.acknowledgedAt.None? {
          page := page + [item];
          if |page| == limit {
            InboxPrefix(items, i + 1, hub, target, after);
            return page;
          }
        }
      }
      assert items[..|items|] == items;
    }

    method AcknowledgeItem(hub: string, target: string, sequence: nat, now: int) returns (found: bool)
      modifies `items
      ensures View() == Stamped(old(View()), BySequence(hub, target, sequence), now)
      ensures found <==> exists i :: 0 <= i < |old(items)| && BySequence(hub, target, sequence)(old(items)[i])
    {
      var p := BySequence(hub, target, sequence);
      found := StampFirst(p, now);
    }

    method CancelTask(hub: string, task: string, now: int) returns (found: bool)
      modifies `items
      ensures View() == Stamped(old(View()), ByTask(hub, task), now)
      ensures found <==> exists i :: 0 <= i < |old(items)| && ByTask(hub, task)(old(items)[i])
    {
      var p := ByTask(hub, task);
      found := StampFirst(p, now);
    }

    /** The scan both share: stamp the first match unless it is stamped already. */
    method StampFirst(p: Item -> bool, now: int) returns (found: bool)
      modifies `items
      ensures View() == Stamped(old(View()), p, now)
      ensures found <==> exists i :: 0 <= i < |old(items)| && p(old(items)[i])
    {
      for i := 0 to |items|
        invariant items == old(items) && forall k :: 0 <= k < i ==> !p(items[k])
      {
        if p(items[i]) {
          assert FirstIndex(items, p) == i;
          if items[i].acknowledgedAt.None? {
            items := items[i := items[i].(acknowledgedAt := Some(now))];
          } else {
            assert items == items[i := items[i]];
          }
          return true;
        }
      }
      assert FirstIndex(items, p) == |items|;
      return false;
    }
  }
}
