/** orchestrator.go: DelegateTask grows a tree of work records under the limits of budget.go. The store is a map from work
    id to record; creating a record fails on an existing id and charging a parent adds to its counters. */
module Delegation {
  import opened Options
  import opened Budget
  import opened TaskGraphs
  import opened Sets

  type Store = map<string, Work>

  /** `freshID` is the id drawn when none is given, `activeChildren` the answer of the active-children query (None when it
      fails) and `contextFails` whether the work context could not be prepared. */
  datatype Request = Request(parentID: string, childID: string, budget: Option<WorkBudget>, tokens: int, units: int,
                             startsTerminal: bool, freshID: string, activeChildren: Option<int>, contextFails: bool)

  datatype Result = Created(id: string) | CyclicDelegation | ParentNotFound | ParentTerminal |
                    LimitExceeded(limit: LimitError) | ContextFailed | AlreadyExists

  function ParentsOf(s: Store): Parents {
    map id | id in s && s[id].parent.Some? :: s[id].parent.value
  }

  function WorkID(req: Request): string { if req.childID == "" then req.freshID else req.childID }

  function Refusal(parent: Work, req: Request): Option<LimitError> {
    var limits := ValidateDelegationLimits(parent, parent.depth + 1);
    if limits.Some? then limits
    else
      var concurrency := if req.activeChildren.Some? then ValidateConcurrencyLimit(parent, req.activeChildren.value) else None;
      if concurrency.Some? then concurrency else ValidateBudgetAvailability(parent, req.tokens, req.units)
  }

  function NewWork(s: Store, req: Request): Work
    requires req.parentID == "" || req.parentID in s
  {
    if req.parentID == "" then Work(None, req.startsTerminal, 0, EffectiveBudget(req.budget), 0, 0, 0)
    else
      var p := s[req.parentID];
      Work(Some(req.parentID), req.startsTerminal, p.depth + 1, AllocateChildBudget(p, req.budget), 0, 0, 0)
  }

  function Charge(p: Work, req: Request): Work {
    p.(usedChildren := p.usedChildren + 1, usedTokens := p.usedTokens + req.tokens,
       usedWorkUnits := p.usedWorkUnits + req.units)
  }

  ghost predicate EdgeAccepted(s: Store, req: Request) {
    WorkID(req) == "" ||
    (req.parentID != WorkID(req) && ClearFor(ParentsOf(s), req.parentID, WorkID(req), 100))
  }

  /** What a call finds before it writes anything: the reason for a refusal, if there is one. */
  ghost function Inspection(s: Store, req: Request): Option<Result> {
    if req.parentID == "" then None
    else if !EdgeAccepted(s, req) then Some(CyclicDelegation)
    else if req.parentID !in s then Some(ParentNotFound)
    else if s[req.parentID].terminal then Some(ParentTerminal)
    else if Refusal(s[req.parentID], req).Some? then Some(LimitExceeded(Refusal(s[req.parentID], req).value))
    else None
  }

  /** The outcome of one call. */
  ghost function Outcome(s: Store, req: Request): Result {
    if Inspection(s, req).Some? then Inspection(s, req).value
    else if req.contextFails then ContextFailed
    else if WorkID(req) in s then AlreadyExists
    else Created(WorkID(req))
  }

  lemma CreatedIff(s: Store, req: Request)
    ensures Outcome(s, req).Created? <==> Inspection(s, req).None? && !req.contextFails && WorkID(req) !in s
  {
    hide EdgeAccepted, Refusal;
  }

  ghost function Next(s: Store, req: Request): Store {
    if !Outcome(s, req).Created? then s
    else if req.parentID == "" then s[WorkID(req) := NewWork(s, req)]
    else s[WorkID(req) := NewWork(s, req)][req.parentID := Charge(s[req.parentID], req)]
  }

  class Orchestrator {
    var works: Store

    constructor ()
      ensures works == map[]
    {
      works := map[];
    }

    method DelegateTask(req: Request) returns (r: Result)
      modifies this
      ensures r == Outcome(old(works), req) && works == Next(old(works), req)
    {
      var workID := if req.childID == "" then req.freshID else req.childID;
      var work := Work(None, req.startsTerminal, 0, EffectiveBudget(req.budget), 0, 0, 0);
      if req.parentID != "" {
        var v := CheckProposedEdge(ParentsOf(works), req.parentID, workID);
        if v != Accepted { return CyclicDelegation; }
        if req.parentID !in works { return ParentNotFound; }
        var parent := works[req.parentID];
        if parent.terminal { return ParentTerminal; }
        var delegationDepth := parent.depth + 1;
        var limit := ValidateDelegationLimits(parent, delegationDepth);
        if limit.Some? { return LimitExceeded(limit.value); }
        if req.activeChildren.Some? {
          limit := ValidateConcurrencyLimit(parent, req.activeChildren.value);
          if limit.Some? { return LimitExceeded(limit.value); }
        }
        limit := ValidateBudgetAvailability(parent, req.tokens, req.units);
        if limit.Some? { return LimitExceeded(limit.value); }
        work := Work(Some(req.parentID), req.startsTerminal, delegationDepth, AllocateChildBudget(parent, req.budget), 0, 0, 0);
      }
      if req.contextFails { return ContextFailed; }
      if workID in works { return AlreadyExists; }
      works := works[workID := work];
      if req.parentID != "" {
        var p := works[req.parentID];
        works := works[req.parentID := p.(usedChildren := p.usedChildren + 1, usedTokens := p.usedTokens + req.tokens,
                                           usedWorkUnits := p.usedWorkUnits + req.units)];
      }
      return Created(workID);
    }
  }

  // ---------- one call, in plain terms ----------

  /** The limits of a work other than its depth. */
  datatype Cap = ChildCap | FanOutCap | ConcurrencyCap | RuntimeCap | RetryCap | TokenCap | UnitCap

  function In(b: WorkBudget, c: Cap): int {
    match c
    case ChildCap => b.maxChildren
    case FanOutCap => b.maxFanOut
    case ConcurrencyCap => b.maxConcurrency
    case RuntimeCap => b.maxRuntimeMs
    case RetryCap => b.maxRetries
    case TokenCap => b.maxTokens
    case UnitCap => b.maxWorkUnits
  }

  /** What holds where nothing positive is given. */
  function Customary(c: Cap): int {
    match c
    case ChildCap => 32
    case FanOutCap => 16
    case ConcurrencyCap => 10
    case RuntimeCap => 300000
    case RetryCap => 3
    case TokenCap => 1000000
    case UnitCap => 1000
  }

  function Asked(b: Option<WorkBudget>, c: Cap): int {
    if b.Some? && In(b.value, c) > 0 then In(b.value, c) else Customary(c)
  }

  function DepthOf(b: WorkBudget): int { if b.maxDepth > 0 then b.maxDepth else 8 }

  /** What a parent leaves of one of its limits: all of it, but of tokens and units only what is not used, and there nothing
      binds a child when the parent's own limit is not positive. */
  function Leaves(p: Work, c: Cap): Option<int> {
    match c
    case TokenCap => if p.budget.maxTokens <= 0 then None else Some(if p.usedTokens > p.budget.maxTokens then 0 else p.budget.maxTokens - p.usedTokens)
    case UnitCap =>
      if p.budget.maxWorkUnits <= 0 then None
      else Some(if p.usedWorkUnits > p.budget.maxWorkUnits then 0 else p.budget.maxWorkUnits - p.usedWorkUnits)
    case _ => Some(Asked(Some(p.budget), c))
  }

  /** Every limit of a created work is the largest within what was asked for that same limit and what the parent leaves of
      it; a root gets what was asked. The depth limit is the parent's, or what the root asked, and 8 by default. */
  lemma CreatedLimits(s: Store, req: Request, c: Cap)
    requires Outcome(s, req).Created?
    ensures var w := Next(s, req)[WorkID(req)];
            && In(w.budget, c) <= Asked(req.budget, c)
            && (req.parentID == "" ==> In(w.budget, c) == Asked(req.budget, c))
            && (req.parentID != "" ==>
                  (Leaves(s[req.parentID], c).Some? ==> In(w.budget, c) <= Leaves(s[req.parentID], c).value) &&
                  (In(w.budget, c) == Asked(req.budget, c) || Some(In(w.budget, c)) == Leaves(s[req.parentID], c)))
            && w.budget.maxDepth == (if req.parentID != "" then DepthOf(s[req.parentID].budget)
                                     else if req.budget.Some? then DepthOf(req.budget.value) else 8)
  {
    EffectiveIn(req.budget, c);
    if req.parentID != "" { AllocatedIn(s[req.parentID], req.budget, c); }
    hide EdgeAccepted, Refusal, AllocateChildBudget, EffectiveBudget, In, Asked, Leaves;
    assert req.parentID != WorkID(req) || req.parentID == "";
  }

  lemma EffectiveIn(b: Option<WorkBudget>, c: Cap)
    ensures In(EffectiveBudget(b), c) == Asked(b, c)
    ensures EffectiveBudget(b).maxDepth == if b.Some? then DepthOf(b.value) else 8
  {
  }

  lemma AllocatedIn(p: Work, b: Option<WorkBudget>, c: Cap)
    ensures var a := In(AllocateChildBudget(p, b), c);
            && a <= Asked(b, c) && (Leaves(p, c).Some? ==> a <= Leaves(p, c).value)
            && (a == Asked(b, c) || Some(a) == Leaves(p, c))
    ensures AllocateChildBudget(p, b).maxDepth == DepthOf(p.budget)
  {
    EffectiveIn(b, c);
    EffectiveIn(Some(p.budget), c);
    hide EffectiveBudget, Asked;
  }

  /** The record of a created work, and what its parent is charged. */
  lemma CreatedRecord(s: Store, req: Request)
    requires Outcome(s, req).Created?
    ensures var s' := Next(s, req);
            var w := s'[WorkID(req)];
            && w.parent == (if req.parentID == "" then None else Some(req.parentID)) && w.terminal == req.startsTerminal
            && w.depth == (if req.parentID == "" then 0 else s[req.parentID].depth + 1)
            && w.usedChildren == w.usedTokens == w.usedWorkUnits == 0
            && s'.Keys == s.Keys + {WorkID(req)} && WorkID(req) !in s
            && (forall v :: v in s && v != req.parentID ==> s'[v] == s[v])
            && (req.parentID != "" ==>
                  var p, p' := s[req.parentID], s'[req.parentID];
                  p'.usedChildren == p.usedChildren + 1 && p'.usedTokens == p.usedTokens + req.tokens &&
                  p'.usedWorkUnits == p.usedWorkUnits + req.units && p'.budget == p.budget && p'.depth == p.depth &&
                  p'.parent == p.parent && p'.terminal == p.terminal)
  {
    hide EdgeAccepted, Refusal, AllocateChildBudget, EffectiveBudget;
  }

  ghost predicate RoomBelow(p: Work) { p.depth + 1 <= DepthOf(p.budget) }
  ghost predicate RoomBeside(p: Work) { p.usedChildren + 1 <= Asked(Some(p.budget), ChildCap) }
  ghost predicate RoomActive(p: Work, active: Option<int>) {
    active.Some? ==> active.value + 1 <= Asked(Some(p.budget), ConcurrencyCap)
  }
  ghost predicate TokensLeft(p: Work, n: int) { p.budget.maxTokens > 0 && n > 0 ==> p.usedTokens + n <= p.budget.maxTokens }
  ghost predicate UnitsLeft(p: Work, n: int) {
    p.budget.maxWorkUnits > 0 && n > 0 ==> p.usedWorkUnits + n <= p.budget.maxWorkUnits
  }

  /** When a work is created, and which of the reasons against it is reported: the first of depth, number of children, active
      children, tokens and work units that leaves no room. */
  lemma AnswerIff(s: Store, req: Request)
    ensures Outcome(s, req).Created? <==>
            && (req.parentID != "" ==>
                  EdgeAccepted(s, req) && req.parentID in s && !s[req.parentID].terminal && RoomBelow(s[req.parentID]) &&
                  RoomBeside(s[req.parentID]) && RoomActive(s[req.parentID], req.activeChildren) &&
                  TokensLeft(s[req.parentID], req.tokens) && UnitsLeft(s[req.parentID], req.units))
            && !req.contextFails && WorkID(req) !in s
    ensures req.parentID != "" && EdgeAccepted(s, req) && req.parentID in s && !s[req.parentID].terminal ==>
            var p, r := s[req.parentID], Outcome(s, req);
            && (r == LimitExceeded(MaxDepthExceeded) <==> !RoomBelow(p))
            && (r == LimitExceeded(MaxChildrenExceeded) <==> RoomBelow(p) && !RoomBeside(p))
            && (r == LimitExceeded(MaxConcurrencyExceeded) <==> RoomBelow(p) && RoomBeside(p) && !RoomActive(p, req.activeChildren))
            && (r == LimitExceeded(TokenBudgetExceeded) <==>
                  RoomBelow(p) && RoomBeside(p) && RoomActive(p, req.activeChildren) && !TokensLeft(p, req.tokens))
            && (r == LimitExceeded(WorkUnitBudgetExceeded) <==>
                  RoomBelow(p) && RoomBeside(p) && RoomActive(p, req.activeChildren) && TokensLeft(p, req.tokens) &&
                  !UnitsLeft(p, req.units))
    ensures req.parentID != "" ==>
            && (Outcome(s, req) == CyclicDelegation <==> !EdgeAccepted(s, req))
            && (Outcome(s, req) == ParentNotFound <==> EdgeAccepted(s, req) && req.parentID !in s)
            && (Outcome(s, req) == ParentTerminal <==> EdgeAccepted(s, req) && req.parentID in s && s[req.parentID].terminal)
  {
    hide EdgeAccepted;
  }

  // ---------- runs ----------

  /** One accepted delegation, kept for the accounting. */
  datatype Entry = Entry(parent: string, child: string, tokens: int, units: int)

  ghost function RunStore(reqs: seq<Request>): Store {
    if reqs == [] then map[] else Next(RunStore(reqs[..|reqs| - 1]), reqs[|reqs| - 1])
  }

  ghost function RunLog(reqs: seq<Request>): seq<Entry> {
    if reqs == [] then []
    else
      var before, req := reqs[..|reqs| - 1], reqs[|reqs| - 1];
      if req.parentID != "" && Outcome(RunStore(before), req).Created? then
        RunLog(before) + [Entry(req.parentID, WorkID(req), req.tokens, req.units)]
      else RunLog(before)
  }

  function SumTokens(log: seq<Entry>, p: string): int {
    if log == [] then 0
    else SumTokens(log[..|log| - 1], p) + (if log[|log| - 1].parent == p then log[|log| - 1].tokens else 0)
  }

  function SumUnits(log: seq<Entry>, p: string): int {
    if log == [] then 0
    else SumUnits(log[..|log| - 1], p) + (if log[|log| - 1].parent == p then log[|log| - 1].units else 0)
  }

  ghost function Children(s: Store, p: string): set<string> {
    set w | w in s && s[w].parent == Some(p)
  }

  predicate Positive(b: WorkBudget) {
    b.maxDepth > 0 && b.maxChildren > 0 && b.maxFanOut > 0 && b.maxConcurrency > 0 && b.maxRuntimeMs > 0 && b.maxRetries > 0
  }

  /** The limits a child may not exceed, and the depth limit it shares. */
  predicate Tightened(child: WorkBudget, parent: WorkBudget) {
    && child.maxDepth == parent.maxDepth
    && child.maxChildren <= parent.maxChildren && child.maxFanOut <= parent.maxFanOut
    && child.maxConcurrency <= parent.maxConcurrency && child.maxRuntimeMs <= parent.maxRuntimeMs
    && child.maxRetries <= parent.maxRetries
  }

  ghost predicate NodeOk(s: Store, w: string)
    requires w in s
  {
    && Positive(s[w].budget) && 0 <= s[w].depth <= s[w].budget.maxDepth
    && s[w].usedChildren == |Children(s, w)| <= s[w].budget.maxChildren
    && (s[w].parent.None? ==> s[w].depth == 0)
    && (s[w].parent.Some? ==>
          s[w].parent.value != "" && s[w].parent.value in s &&
          s[w].depth == s[s[w].parent.value].depth + 1 && Tightened(s[w].budget, s[s[w].parent.value].budget))
  }

  ghost predicate TreeOk(s: Store) { forall w {:trigger NodeOk(s, w)} :: w in s ==> NodeOk(s, w) }

  /** Charges: what a work has handed out is what its children asked for, and never more than a positive limit. */
  predicate ChargedAt(s: Store, log: seq<Entry>, w: string)
    requires w in s
  {
    && s[w].usedTokens == SumTokens(log, w) && s[w].usedWorkUnits == SumUnits(log, w)
    && (s[w].budget.maxTokens > 0 ==> s[w].usedTokens <= s[w].budget.maxTokens)
    && (s[w].budget.maxWorkUnits > 0 ==> s[w].usedWorkUnits <= s[w].budget.maxWorkUnits)
  }

  ghost predicate Listed(log: seq<Entry>, w: string) { exists i :: 0 <= i < |log| && log[i].child == w }

  /** The log holds each delegated work once, under its parent. */
  ghost predicate Logged(s: Store, log: seq<Entry>) {
    && (forall i :: 0 <= i < |log| ==> log[i].child in s && s[log[i].child].parent == Some(log[i].parent) && log[i].parent in s)
    && (forall i, j :: 0 <= i < j < |log| ==> log[i].child != log[j].child)
    && (forall w {:trigger Listed(log, w)} :: w in s && s[w].parent.Some? ==> Listed(log, w))
  }

  ghost predicate Charged(s: Store, log: seq<Entry>) {
    Logged(s, log) && forall w {:trigger ChargedAt(s, log, w)} :: w in s ==> ChargedAt(s, log, w)
  }

  lemma AllocationTightens(p: Work, requested: Option<WorkBudget>)
    requires Positive(p.budget)
    ensures Positive(AllocateChildBudget(p, requested)) && Tightened(AllocateChildBudget(p, requested), p.budget)
    ensures Positive(EffectiveBudget(requested))
  {
  }

  lemma NewNodeOk(s: Store, req: Request)
    requires TreeOk(s) && Outcome(s, req).Created?
    ensures NodeOk(Next(s, req), WorkID(req))
  {
    hide AllocateChildBudget, EffectiveBudget, EdgeAccepted;
    var s', id := Next(s, req), WorkID(req);
    forall c | c in s ensures s[c].parent != Some(id) { assert NodeOk(s, c); }
    assert Children(s', id) == {};
    if req.parentID != "" {
      assert NodeOk(s, req.parentID);
      AllocationTightens(s[req.parentID], req.budget);
    } else {
      AllocationTightens(Work(None, false, 0, DEFAULT_BUDGET, 0, 0, 0), req.budget);
    }
  }

  lemma ParentNodeOk(s: Store, req: Request)
    requires TreeOk(s) && Outcome(s, req).Created? && req.parentID != ""
    ensures NodeOk(Next(s, req), req.parentID)
  {
    hide AllocateChildBudget, EffectiveBudget, EdgeAccepted, Tightened;
    var s', id, p := Next(s, req), WorkID(req), req.parentID;
    assert NodeOk(s, p);
    assert Children(s', p) == Children(s, p) + {id};
  }

  lemma OtherNodeOk(s: Store, req: Request, w: string)
    requires TreeOk(s) && Outcome(s, req).Created? && w in s && (w != req.parentID || w == "")
    ensures NodeOk(Next(s, req), w)
  {
    hide NewWork, EdgeAccepted, Refusal, Positive, Tightened;
    var s' := Next(s, req);
    assert NodeOk(s, w);
    assert s'[w] == s[w];
    NewWorkParent(s, req);
    assert Children(s', w) == Children(s, w);
    if s[w].parent.Some? {
      var q := s[w].parent.value;
      assert s'[q].depth == s[q].depth && s'[q].budget == s[q].budget;
    }
  }

  lemma NewWorkParent(s: Store, req: Request)
    requires req.parentID == "" || req.parentID in s
    ensures NewWork(s, req).parent == if req.parentID == "" then None else Some(req.parentID)
  {
  }

  lemma NextTreeOk(s: Store, req: Request)
    requires TreeOk(s)
    ensures TreeOk(Next(s, req))
  {
    if Outcome(s, req).Created? {
      NewNodeOk(s, req);
      forall w | w in Next(s, req) && w != WorkID(req) ensures NodeOk(Next(s, req), w) {
        if w == req.parentID && w != "" { ParentNodeOk(s, req); } else { OtherNodeOk(s, req, w); }
      }
    }
  }

  lemma {:induction false} SumsOfNewWork(log: seq<Entry>, w: string)
    requires forall i :: 0 <= i < |log| ==> log[i].parent != w
    ensures SumTokens(log, w) == 0 && SumUnits(log, w) == 0
  {
    if log != [] { SumsOfNewWork(log[..|log| - 1], w); }
  }

  lemma NextLogged(s: Store, log: seq<Entry>, req: Request)
    requires Logged(s, log) && Outcome(s, req).Created? && req.parentID != ""
    ensures Logged(Next(s, req), log + [Entry(req.parentID, WorkID(req), req.tokens, req.units)])
  {
    var s', id, p := Next(s, req), WorkID(req), req.parentID;
    var log' := log + [Entry(p, id, req.tokens, req.units)];
    forall w | w in s' && s'[w].parent.Some? ensures Listed(log', w) {
      if w == id {
        assert log'[|log|].child == id;
      } else {
        assert Listed(log, w);
        var i :| 0 <= i < |log| && log[i].child == w;
        assert log'[i].child == w;
      }
    }
  }

  ghost function NextLog(log: seq<Entry>, req: Request): seq<Entry> {
    if req.parentID == "" then log else log + [Entry(req.parentID, WorkID(req), req.tokens, req.units)]
  }

  lemma NextSums(log: seq<Entry>, req: Request, w: string)
    ensures SumTokens(NextLog(log, req), w) ==
            SumTokens(log, w) + (if req.parentID != "" && w == req.parentID then req.tokens else 0)
    ensures SumUnits(NextLog(log, req), w) ==
            SumUnits(log, w) + (if req.parentID != "" && w == req.parentID then req.units else 0)
  {
    assert req.parentID != "" ==> NextLog(log, req)[..|log|] == log;
  }

  lemma NextChargedAt(s: Store, log: seq<Entry>, req: Request, w: string)
    requires Charged(s, log) && Outcome(s, req).Created? && w in Next(s, req)
    ensures ChargedAt(Next(s, req), NextLog(log, req), w)
  {
    hide AllocateChildBudget, EffectiveBudget, EdgeAccepted, ValidateDelegationLimits, ValidateConcurrencyLimit, NextLog;
    NextSums(log, req, w);
    if w == WorkID(req) {
      SumsOfNewWork(log, w);
    } else {
      assert ChargedAt(s, log, w);
    }
  }

  lemma NextCharged(s: Store, log: seq<Entry>, req: Request)
    requires Charged(s, log) && Outcome(s, req).Created?
    ensures Charged(Next(s, req), NextLog(log, req))
  {
    forall w | w in Next(s, req) ensures ChargedAt(Next(s, req), NextLog(log, req), w) {
      NextChargedAt(s, log, req, w);
    }
    hide Outcome, ChargedAt;
    if req.parentID != "" {
      NextLogged(s, log, req);
    } else {
      RootLogged(s, log, req);
    }
  }

  lemma RootLogged(s: Store, log: seq<Entry>, req: Request)
    requires Logged(s, log) && Outcome(s, req).Created? && req.parentID == ""
    ensures Logged(Next(s, req), log)
  {
    forall w | w in Next(s, req) && Next(s, req)[w].parent.Some? ensures Listed(log, w) { assert w != WorkID(req); }
  }

  /** What every sequential run of DelegateTask keeps. */
  lemma {:induction false} RunKeepsLimits(reqs: seq<Request>)
    ensures TreeOk(RunStore(reqs)) && Charged(RunStore(reqs), RunLog(reqs))
  {
    if reqs != [] {
      var before, req := reqs[..|reqs| - 1], reqs[|reqs| - 1];
      RunKeepsLimits(before);
      NextTreeOk(RunStore(before), req);
      if Outcome(RunStore(before), req).Created? {
        NextCharged(RunStore(before), RunLog(before), req);
      }
    }
  }

  /** A delegated child starts with at most what its parent still has when that limit is positive, and, unless the
      parent's counters are negative, only then. */
  lemma ChildWithinRemainder(s: Store, req: Request)
    requires Outcome(s, req).Created? && req.parentID != ""
    ensures var p, c := s[req.parentID], Next(s, req)[WorkID(req)];
            && (p.budget.maxTokens > 0 ==> c.budget.maxTokens <= Remaining(p.budget.maxTokens, p.usedTokens))
            && (p.budget.maxWorkUnits > 0 ==> c.budget.maxWorkUnits <= Remaining(p.budget.maxWorkUnits, p.usedWorkUnits))
            && (p.budget.maxTokens <= 0 <= p.usedTokens ==> c.budget.maxTokens > Remaining(p.budget.maxTokens, p.usedTokens))
            && (p.budget.maxWorkUnits <= 0 <= p.usedWorkUnits ==>
                  c.budget.maxWorkUnits > Remaining(p.budget.maxWorkUnits, p.usedWorkUnits))
  {
    hide EdgeAccepted, Refusal;
    assert req.parentID != WorkID(req);
  }

  // ---------- the size of a tree ----------

  /** The works exactly k steps below r. */
  ghost function Level(s: Store, r: string, k: nat): set<string> {
    set w | w in s && Ancestor(ParentsOf(s), w, k) == Some(r)
  }

  ghost function Subtree(s: Store, r: string): set<string> {
    set w | w in s && OnChain(ParentsOf(s), r, w)
  }

  ghost function ChildrenOfAll(s: Store, ps: set<string>): set<string> {
    set w | w in s && s[w].parent.Some? && s[w].parent.value in ps
  }

  function Power(c: nat, k: nat): nat { if k == 0 then 1 else c * Power(c, k - 1) }

  /** 1 + c + ... + c^k. */
  function Geometric(c: nat, k: nat): nat { if k == 0 then 1 else Geometric(c, k - 1) + Power(c, k) }

  lemma ParentOf(s: Store, w: string)
    requires TreeOk(s) && w in s
    ensures Parent(ParentsOf(s), w) == s[w].parent
  {
    assert NodeOk(s, w);
  }

  /** Below r: the depth counts the steps, the depth limit is r's and the child limit is at most r's. */
  lemma {:induction false} LevelFacts(s: Store, r: string, w: string, k: nat)
    requires TreeOk(s) && r in s && w in Level(s, r, k)
    ensures s[w].depth == s[r].depth + k && s[w].budget.maxDepth == s[r].budget.maxDepth
    ensures s[w].budget.maxChildren <= s[r].budget.maxChildren
    decreases k
  {
    ParentOf(s, w);
    assert NodeOk(s, w);
    if k != 0 {
      LevelFacts(s, r, s[w].parent.value, k - 1);
    }
  }

  lemma NextLevel(s: Store, r: string, k: nat)
    requires TreeOk(s)
    ensures Level(s, r, k + 1) == ChildrenOfAll(s, Level(s, r, k))
  {
    forall w | w in s ensures w in Level(s, r, k + 1) <==> w in ChildrenOfAll(s, Level(s, r, k)) {
      ParentOf(s, w);
      assert NodeOk(s, w);
    }
  }

  lemma {:induction false} FewChildren(s: Store, ps: set<string>, c: nat)
    requires TreeOk(s) && forall p :: p in ps ==> p in s && s[p].budget.maxChildren <= c
    ensures |ChildrenOfAll(s, ps)| <= c * |ps|
    decreases ps
  {
    if ps == {} {
      assert ChildrenOfAll(s, ps) == {};
    } else {
      var p :| p in ps;
      var rest := ps - {p};
      FewChildren(s, rest, c);
      assert NodeOk(s, p);
      assert ChildrenOfAll(s, ps) == ChildrenOfAll(s, rest) + Children(s, p);
      assert |ps| == |rest| + 1;
      assert c * |ps| == c * |rest| + c;
    }
  }

  lemma {:induction false} LevelSize(s: Store, r: string, k: nat)
    requires TreeOk(s) && r in s && NodeOk(s, r)
    ensures |Level(s, r, k)| <= Power(s[r].budget.maxChildren, k)
  {
    var c := s[r].budget.maxChildren;
    if k == 0 {
      assert Level(s, r, 0) == {r};
    } else {
      LevelSize(s, r, k - 1);
      NextLevel(s, r, k - 1);
      forall p | p in Level(s, r, k - 1) ensures p in s && s[p].budget.maxChildren <= c {
        LevelFacts(s, r, p, k - 1);
      }
      FewChildren(s, Level(s, r, k - 1), c);
      MonotoneProduct(c, |Level(s, r, k - 1)|, Power(c, k - 1));
    }
  }

  lemma MonotoneProduct(c: nat, a: nat, b: nat)
    requires a <= b
    ensures c * a <= c * b
  {
  }

  ghost function LevelsUpTo(s: Store, r: string, k: nat): set<string> {
    if k == 0 then Level(s, r, 0) else LevelsUpTo(s, r, k - 1) + Level(s, r, k)
  }

  lemma {:induction false} LevelsSize(s: Store, r: string, k: nat)
    requires TreeOk(s) && r in s && NodeOk(s, r)
    ensures |LevelsUpTo(s, r, k)| <= Geometric(s[r].budget.maxChildren, k)
  {
    LevelSize(s, r, k);
    if k != 0 { LevelsSize(s, r, k - 1); }
  }

  lemma {:induction false} InLevels(s: Store, r: string, w: string, n: nat, k: nat)
    requires n <= k && w in Level(s, r, n)
    ensures w in LevelsUpTo(s, r, k)
  {
    if n < k { InLevels(s, r, w, n, k - 1); }
  }

  lemma SubtreeInLevels(s: Store, r: string, w: string)
    requires TreeOk(s) && r in s && w in Subtree(s, r)
    ensures 0 <= s[r].depth <= s[r].budget.maxDepth
    ensures w in LevelsUpTo(s, r, s[r].budget.maxDepth - s[r].depth)
    ensures s[w].depth <= s[r].budget.maxDepth && s[w].budget.maxDepth == s[r].budget.maxDepth
  {
    hide Ancestor, LevelsUpTo;
    var n: nat :| Ancestor(ParentsOf(s), w, n) == Some(r);
    assert w in Level(s, r, n);
    LevelFacts(s, r, w, n);
    assert NodeOk(s, w) && NodeOk(s, r);
    InLevels(s, r, w, n, s[r].budget.maxDepth - s[r].depth);
  }

  /** In every run, every work keeps its depth within the limit of whichever work it descends from, and the tree below a
      work holds at most 1 + C + ... + C^(D - depth) works, where C and D are that work's child and depth limits. */
  lemma TreeBounded(reqs: seq<Request>, r: string)
    requires r in RunStore(reqs)
    ensures var s := RunStore(reqs);
            && Positive(s[r].budget) && 0 <= s[r].depth <= s[r].budget.maxDepth
            && (forall w :: w in Subtree(s, r) ==>
                  s[w].depth <= s[r].budget.maxDepth && s[w].budget.maxDepth == s[r].budget.maxDepth)
            && |Subtree(s, r)| <= Geometric(s[r].budget.maxChildren, s[r].budget.maxDepth - s[r].depth)
  {
    hide RunStore, RunLog, Ancestor, LevelsUpTo, Charged, Geometric;
    RunKeepsLimits(reqs);
    var s := RunStore(reqs);
    assert NodeOk(s, r);
    var k := s[r].budget.maxDepth - s[r].depth;
    forall w | w in Subtree(s, r)
      ensures w in LevelsUpTo(s, r, k) && s[w].depth <= s[r].budget.maxDepth && s[w].budget.maxDepth == s[r].budget.maxDepth
    {
      SubtreeInLevels(s, r, w);
    }
    LevelsSize(s, r, k);
    SubsetSize(Subtree(s, r), LevelsUpTo(s, r, k));
  }

  /** Climbing from any work reaches a root in as many steps as the work is deep. */
  lemma {:induction false} HasRoot(s: Store, w: string) returns (r: string)
    requires TreeOk(s) && w in s
    ensures r in s && s[r].parent.None? && w in Subtree(s, r)
    decreases s[w].depth
  {
    assert NodeOk(s, w);
    ParentOf(s, w);
    if s[w].parent.None? {
      r := w;
      assert Ancestor(ParentsOf(s), w, 0) == Some(r);
    } else {
      var p := s[w].parent.value;
      assert NodeOk(s, p);
      r := HasRoot(s, p);
      var n: nat :| Ancestor(ParentsOf(s), p, n) == Some(r);
      assert Ancestor(ParentsOf(s), w, n + 1) == Some(r);
    }
  }

  /** A store grown from one root holds at most 1 + C + ... + C^D works, for that root's effective limits C and D. */
  lemma OneRootBound(reqs: seq<Request>, r: string)
    requires var s := RunStore(reqs);
             r in s && forall w :: w in s && s[w].parent.None? ==> w == r
    ensures var s := RunStore(reqs);
            s[r].budget.maxDepth > 0 && s[r].budget.maxChildren > 0 &&
            |s| <= Geometric(s[r].budget.maxChildren, s[r].budget.maxDepth)
  {
    RunKeepsLimits(reqs);
    TreeBounded(reqs, r);
    var s := RunStore(reqs);
    forall w | w in s ensures w in Subtree(s, r) {
      var top := HasRoot(s, w);
    }
    assert s.Keys == Subtree(s, r);
    var top := HasRoot(s, r);
    assert top == r && NodeOk(s, r);
  }

  // ---------- a fresh child closes no cycle ----------

  lemma {:induction false} DepthEndsChain(s: Store, w: string)
    requires TreeOk(s) && w in s
    ensures Rooted(ParentsOf(s), w)
    decreases s[w].depth
  {
    assert NodeOk(s, w);
    ParentOf(s, w);
    if s[w].parent.None? {
      assert Ancestor(ParentsOf(s), w, 1).None?;
    } else {
      var p := s[w].parent.value;
      assert NodeOk(s, p);
      DepthEndsChain(s, p);
      var n: nat :| Ancestor(ParentsOf(s), p, n).None?;
      assert Ancestor(ParentsOf(s), w, n + 1).None?;
    }
  }

  lemma TreeIsForest(s: Store)
    requires TreeOk(s)
    ensures Forest(ParentsOf(s))
  {
    forall x ensures Rooted(ParentsOf(s), x) {
      if x in s { DepthEndsChain(s, x); } else { assert Ancestor(ParentsOf(s), x, 1).None?; }
    }
  }

  /** `later` holds everything `s` holds, each work under the same parent. */
  ghost predicate SameParents(s: Store, later: Store) {
    forall w :: w in s ==> w in later && later[w].parent == s[w].parent
  }

  lemma {:induction false} SameChain(s: Store, later: Store, w: string, n: nat)
    requires TreeOk(s) && SameParents(s, later) && w in s
    ensures Ancestor(ParentsOf(later), w, n) == Ancestor(ParentsOf(s), w, n)
    ensures Ancestor(ParentsOf(s), w, n).Some? ==> Ancestor(ParentsOf(s), w, n).value in s
    decreases n
  {
    if n != 0 {
      ParentOf(s, w);
      assert NodeOk(s, w);
      assert Parent(ParentsOf(later), w) == s[w].parent;
      if s[w].parent.Some? { SameChain(s, later, s[w].parent.value, n - 1); }
    }
  }

  /** While a tree only grows, the cycle check accepts every id that it did not hold at first. */
  lemma FreshEdgeAccepted(s: Store, later: Store, req: Request)
    requires TreeOk(s) && SameParents(s, later) && req.parentID in s && WorkID(req) !in s
    ensures EdgeAccepted(later, req)
  {
    hide NodeOk, Ancestor;
    TreeIsForest(s);
    var p, back, later' := req.parentID, ParentsOf(s), ParentsOf(later);
    forall n: nat ensures Ancestor(later', p, n) == Ancestor(back, p, n) && Ancestor(back, p, n) != Some(WorkID(req)) {
      SameChain(s, later, p, n);
    }
    forall n: nat, j: nat | j < n && Ancestor(later', p, n).Some? ensures Ancestor(later', p, n) != Ancestor(later', p, j) {
      assert Ancestor(back, p, n).Some?;
      ForestChainsDistinct(back, p, j, n);
      assert Ancestor(later', p, j) == Ancestor(back, p, j);
    }
  }

  // ---------- an exhausted limit is not passed on ----------

  lemma RunSnoc(reqs: seq<Request>, req: Request)
    ensures RunStore(reqs + [req]) == Next(RunStore(reqs), req)
  {
    assert (reqs + [req])[..|reqs|] == reqs;
  }

  /** A request without special circumstances. */
  function Plain(parent: string, child: string, budget: Option<WorkBudget>, tokens: int): Request {
    Request(parent, child, budget, tokens, 0, false, "", None, false)
  }

  /** A root that may spend ten tokens hands all of them to its first child. Its second child then gets a limit of 0, and
      hands out as many tokens as it is asked for. */
  lemma ExhaustedRun(n: nat) returns (reqs: seq<Request>)
    ensures var s := RunStore(reqs);
            && "root" in s && s["root"].parent == None && s["root"].budget.maxTokens == s["root"].usedTokens == 10
            && "b" in s && s["b"].parent == Some("root") && s["b"].usedTokens == n
  {
    var ten := WorkBudget(0, 0, 0, 0, 0, 0, 10, 0);
    var r1 := [Plain("", "root", Some(ten), 0)];
    var r2 := r1 + [Plain("root", "a", None, 10)];
    var r3 := r2 + [Plain("root", "b", None, 0)];
    reqs := r3 + [Plain("b", "c", None, n)];
    assert r1 == [] + [Plain("", "root", Some(ten), 0)];
    hide EdgeAccepted, RunStore, RunLog, TreeOk, Charged;
    RunSnoc([], r1[0]);
    RunSnoc(r1, Plain("root", "a", None, 10));
    RunSnoc(r2, Plain("root", "b", None, 0));
    RunSnoc(r3, Plain("b", "c", None, n));
    StartsEmpty();
    RunKeepsLimits(r1);
    FreshEdgeAccepted(RunStore(r1), RunStore(r1), Plain("root", "a", None, 10));
    RunKeepsLimits(r2);
    FreshEdgeAccepted(RunStore(r2), RunStore(r2), Plain("root", "b", None, 0));
    RunKeepsLimits(r3);
    FreshEdgeAccepted(RunStore(r3), RunStore(r3), Plain("b", "c", None, n));
  }

  lemma StartsEmpty()
    ensures RunStore([]) == map[]
  {
  }

  // ---------- when limits are passed on ----------

  function Requested(req: Request, r: Resource): int { match r case Tokens => req.tokens case Units => req.units }

  /** A delegation from a parent that has a limit and has used it up. */
  ghost predicate FromExhausted(s: Store, req: Request, r: Resource) {
    req.parentID != "" && Outcome(s, req).Created? && Limit(s[req.parentID], r) > 0 &&
    Used(s[req.parentID], r) >= Limit(s[req.parentID], r)
  }

  ghost predicate NoneExhausted(reqs: seq<Request>, r: Resource) {
    forall k :: 0 <= k < |reqs| ==> !FromExhausted(RunStore(reqs[..k]), reqs[k], r)
  }

  ghost predicate AllLimited(s: Store, r: Resource) { forall w :: w in s ==> Limit(s[w], r) > 0 }

  lemma EffectiveIsPositive(b: Option<WorkBudget>, r: Resource)
    ensures LimitIn(EffectiveBudget(b), r) > 0
  {
  }

  lemma AllocatedLimit(parent: Work, requested: Option<WorkBudget>, r: Resource)
    ensures LimitIn(AllocateChildBudget(parent, requested), r) ==
            if Limit(parent, r) > 0 then Min(LimitIn(EffectiveBudget(requested), r), Remaining(Limit(parent, r), Used(parent, r)))
            else LimitIn(EffectiveBudget(requested), r)
  {
  }

  /** What a delegation does to limits and use. */
  lemma NextLimits(s: Store, req: Request, r: Resource)
    requires Outcome(s, req).Created?
    ensures var s' := Next(s, req);
            && (forall w :: w in s' <==> w in s || w == WorkID(req)) && WorkID(req) !in s && Used(s'[WorkID(req)], r) == 0
            && (forall w :: w in s ==> Limit(s'[w], r) == Limit(s[w], r) && s'[w].parent == s[w].parent)
            && (forall w :: w in s ==>
                  Used(s'[w], r) == Used(s[w], r) + (if req.parentID != "" && w == req.parentID then Requested(req, r) else 0))
            && s'[WorkID(req)].parent == (if req.parentID == "" then None else Some(req.parentID))
            && (req.parentID == "" ==> Limit(s'[WorkID(req)], r) > 0)
            && (req.parentID != "" ==>
                  req.parentID in s && Limit(s'[WorkID(req)], r) ==
                    (if Limit(s[req.parentID], r) > 0
                     then Min(LimitIn(EffectiveBudget(req.budget), r), Remaining(Limit(s[req.parentID], r), Used(s[req.parentID], r)))
                     else LimitIn(EffectiveBudget(req.budget), r)))
  {
    hide EdgeAccepted, Refusal, AllocateChildBudget, EffectiveBudget;
    EffectiveIsPositive(req.budget, r);
    if req.parentID != "" { AllocatedLimit(s[req.parentID], req.budget, r); }
  }

  /** In every run, for either resource: every work has a limit exactly when no delegation came from an exhausted parent. */
  lemma {:induction false} AllLimitedIff(reqs: seq<Request>, r: Resource)
    ensures AllLimited(RunStore(reqs), r) <==> NoneExhausted(reqs, r)
  {
    if reqs != [] {
      hide Outcome, Next, EffectiveBudget, Limit, Used, NoneExhausted;
      var before, req := reqs[..|reqs| - 1], reqs[|reqs| - 1];
      var s := RunStore(before);
      AllLimitedIff(before, r);
      NoneExhaustedSnoc(reqs, r);
      if Outcome(s, req).Created? {
        NextLimits(s, req, r);
        EffectiveIsPositive(req.budget, r);
        assert WorkID(req) in Next(s, req);
      } else {
        NotCreated(s, req);
      }
    }
  }

  lemma NotCreated(s: Store, req: Request)
    requires !Outcome(s, req).Created?
    ensures Next(s, req) == s
  {
  }

  lemma NoneExhaustedSnoc(reqs: seq<Request>, r: Resource)
    requires reqs != []
    ensures var before, req := reqs[..|reqs| - 1], reqs[|reqs| - 1];
            NoneExhausted(reqs, r) <==> NoneExhausted(before, r) && !FromExhausted(RunStore(before), req, r)
  {
    hide RunStore, FromExhausted;
    var before := reqs[..|reqs| - 1];
    assert forall k :: 0 <= k < |before| ==> before[..k] == reqs[..k] && before[k] == reqs[k];
    assert NoneExhausted(reqs, r) ==>
           forall k :: 0 <= k < |before| ==> !FromExhausted(RunStore(before[..k]), before[k], r);
  }

  /** No work has used less than nothing, and none is allowed more than a parent that has a limit. */
  ghost predicate Shrinking(s: Store, r: Resource) {
    && (forall w :: w in s ==> Used(s[w], r) >= 0)
    && (forall w :: w in s && s[w].parent.Some? && s[w].parent.value in s && Limit(s[s[w].parent.value], r) > 0 ==>
          Limit(s[w], r) <= Limit(s[s[w].parent.value], r))
  }

  lemma ShrinkStep(s: Store, req: Request, r: Resource)
    requires TreeOk(s) && Shrinking(s, r) && Outcome(s, req).Created? && Requested(req, r) >= 0
    ensures Shrinking(Next(s, req), r)
  {
    ParentsInStore(s);
    NextLimits(s, req, r);
    hide Outcome, Next, EffectiveBudget, Limit, Used, TreeOk, Requested;
    var s' := Next(s, req);
    forall w | w in s' && s'[w].parent.Some? && s'[w].parent.value in s' && Limit(s'[s'[w].parent.value], r) > 0
      ensures Limit(s'[w], r) <= Limit(s'[s'[w].parent.value], r)
    {
      if w in s { assert s'[w].parent.value in s; } else { assert w == WorkID(req); }
    }
  }

  lemma {:induction false} LimitsShrink(reqs: seq<Request>, r: Resource)
    requires forall k :: 0 <= k < |reqs| ==> Requested(reqs[k], r) >= 0
    ensures Shrinking(RunStore(reqs), r)
  {
    if reqs != [] {
      hide Outcome, Next, Shrinking, TreeOk, Charged;
      var before, req := reqs[..|reqs| - 1], reqs[|reqs| - 1];
      assert forall k :: 0 <= k < |before| ==> before[k] == reqs[k];
      LimitsShrink(before, r);
      RunKeepsLimits(before);
      if Outcome(RunStore(before), req).Created? {
        ShrinkStep(RunStore(before), req, r);
      } else {
        NotCreated(RunStore(before), req);
      }
    }
  }

  lemma ParentsInStore(s: Store)
    requires TreeOk(s)
    ensures forall w :: w in s && s[w].parent.Some? ==> s[w].parent.value in s
  {
    forall w | w in s && s[w].parent.Some? ensures s[w].parent.value in s { assert NodeOk(s, w); }
  }

  lemma {:induction false} ChainLimits(s: Store, r: Resource, top: string, w: string, n: nat)
    requires TreeOk(s) && AllLimited(s, r) && Shrinking(s, r) && w in s && Ancestor(ParentsOf(s), w, n) == Some(top)
    ensures top in s && Limit(s[w], r) <= Limit(s[top], r)
    decreases n
  {
    hide Limit, Used, NodeOk;
    if n != 0 {
      ParentOf(s, w);
      ParentsInStore(s);
      ChainLimits(s, r, top, s[w].parent.value, n - 1);
    }
  }

  /** In every run of requests that ask for nothing below zero and never delegate from an exhausted parent, every work keeps
      a limit, and one no higher than that of any work above it. */
  lemma LimitsBelow(reqs: seq<Request>, r: Resource, top: string)
    requires NoneExhausted(reqs, r) && forall k :: 0 <= k < |reqs| ==> Requested(reqs[k], r) >= 0
    ensures var s := RunStore(reqs);
            forall w :: w in Subtree(s, top) ==> w in s && top in s && 0 < Limit(s[w], r) <= Limit(s[top], r)
  {
    hide RunStore, RunLog, Charged, TreeOk, NoneExhausted, Shrinking, Limit, Ancestor;
    AllLimitedIff(reqs, r);
    LimitsShrink(reqs, r);
    RunKeepsLimits(reqs);
    var s := RunStore(reqs);
    forall w | w in Subtree(s, top) ensures top in s && Limit(s[w], r) <= Limit(s[top], r) {
      var n: nat :| Ancestor(ParentsOf(s), w, n) == Some(top);
      ChainLimits(s, r, top, w, n);
    }
  }
}
