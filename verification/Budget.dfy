/** budget.go: the limits that travel down the delegation tree. */
module Budget {
  import opened Options

  const DEFAULT_MAX_DEPTH := 8
  const DEFAULT_MAX_CHILDREN := 32
  const DEFAULT_MAX_FAN_OUT := 16
  const DEFAULT_MAX_CONCURRENCY := 10
  const DEFAULT_MAX_RUNTIME_MS := 300000
  const DEFAULT_MAX_RETRIES := 3
  const DEFAULT_MAX_TOKENS := 1000000
  const DEFAULT_MAX_WORK_UNITS := 1000

  datatype WorkBudget = WorkBudget(maxDepth: int, maxChildren: int, maxFanOut: int, maxConcurrency: int,
                                   maxRuntimeMs: int, maxRetries: int, maxTokens: int, maxWorkUnits: int)

  /** A stored work record: the fields the limits depend on. */
  datatype Work = Work(parent: Option<string>, terminal: bool, depth: int, budget: WorkBudget,
                       usedChildren: int, usedTokens: int, usedWorkUnits: int)

  const DEFAULT_BUDGET := WorkBudget(DEFAULT_MAX_DEPTH, DEFAULT_MAX_CHILDREN, DEFAULT_MAX_FAN_OUT,
                                     DEFAULT_MAX_CONCURRENCY, DEFAULT_MAX_RUNTIME_MS, DEFAULT_MAX_RETRIES,
                                     DEFAULT_MAX_TOKENS, DEFAULT_MAX_WORK_UNITS)

  datatype LimitError = MaxDepthExceeded | MaxChildrenExceeded | MaxFanOutExceeded | MaxConcurrencyExceeded |
                        TokenBudgetExceeded | WorkUnitBudgetExceeded

  function OrDefault(n: int, default: int): int { if n <= 0 then default else n }
  function Min(a: int, b: int): int { if a < b then a else b }

  function EffectiveBudget(b: Option<WorkBudget>): WorkBudget {
    match b
    case None => DEFAULT_BUDGET
    case Some(b) =>
      WorkBudget(OrDefault(b.maxDepth, DEFAULT_MAX_DEPTH), OrDefault(b.maxChildren, DEFAULT_MAX_CHILDREN),
                 OrDefault(b.maxFanOut, DEFAULT_MAX_FAN_OUT), OrDefault(b.maxConcurrency, DEFAULT_MAX_CONCURRENCY),
                 OrDefault(b.maxRuntimeMs, DEFAULT_MAX_RUNTIME_MS), OrDefault(b.maxRetries, DEFAULT_MAX_RETRIES),
                 OrDefault(b.maxTokens, DEFAULT_MAX_TOKENS), OrDefault(b.maxWorkUnits, DEFAULT_MAX_WORK_UNITS))
  }

  function ValidateDelegationLimits(parent: Work, proposedChildDepth: int): Option<LimitError> {
    if proposedChildDepth > OrDefault(parent.budget.maxDepth, DEFAULT_MAX_DEPTH) then Some(MaxDepthExceeded)
    else if parent.usedChildren + 1 > OrDefault(parent.budget.maxChildren, DEFAULT_MAX_CHILDREN) then
      Some(MaxChildrenExceeded)
    else None
  }

  function ValidateFanOutLimit(parent: Work, count: int): Option<LimitError> {
    if count <= 0 then None
    else if count > OrDefault(parent.budget.maxFanOut, DEFAULT_MAX_FAN_OUT) then Some(MaxFanOutExceeded)
    else if parent.usedChildren + count > OrDefault(parent.budget.maxChildren, DEFAULT_MAX_CHILDREN) then
      Some(MaxChildrenExceeded)
    else None
  }

  function ValidateConcurrencyLimit(parent: Work, activeCount: int): Option<LimitError> {
    if activeCount + 1 > OrDefault(parent.budget.maxConcurrency, DEFAULT_MAX_CONCURRENCY) then
      Some(MaxConcurrencyExceeded)
    else None
  }

  function Remaining(max: int, used: int): int { if max - used < 0 then 0 else max - used }

  function ValidateBudgetAvailability(parent: Work, tokens: int, units: int): Option<LimitError> {
    if parent.budget.maxTokens > 0 && tokens > 0 && tokens > Remaining(parent.budget.maxTokens, parent.usedTokens) then
      Some(TokenBudgetExceeded)
    else if parent.budget.maxWorkUnits > 0 && units > 0 &&
            units > Remaining(parent.budget.maxWorkUnits, parent.usedWorkUnits) then
      Some(WorkUnitBudgetExceeded)
    else None
  }

  function AllocateChildBudget(parent: Work, requested: Option<WorkBudget>): WorkBudget {
    var req := EffectiveBudget(requested);
    var own := EffectiveBudget(Some(parent.budget));
    WorkBudget(own.maxDepth, Min(req.maxChildren, own.maxChildren), Min(req.maxFanOut, own.maxFanOut),
               Min(req.maxConcurrency, own.maxConcurrency), Min(req.maxRuntimeMs, own.maxRuntimeMs),
               Min(req.maxRetries, own.maxRetries),
               if parent.budget.maxTokens > 0 then
                 Min(req.maxTokens, Remaining(parent.budget.maxTokens, parent.usedTokens))
               else req.maxTokens,
               if parent.budget.maxWorkUnits > 0 then
                 Min(req.maxWorkUnits, Remaining(parent.budget.maxWorkUnits, parent.usedWorkUnits))
               else req.maxWorkUnits)
  }

  // ---------- tokens and work units alike ----------

  datatype Resource = Tokens | Units

  function Used(w: Work, r: Resource): int { match r case Tokens => w.usedTokens case Units => w.usedWorkUnits }

  function LimitIn(b: WorkBudget, r: Resource): int { match r case Tokens => b.maxTokens case Units => b.maxWorkUnits }
  function Limit(w: Work, r: Resource): int { LimitIn(w.budget, r) }

  /** Filling in defaults replaces exactly the fields that are not positive: nothing given counts as everything zero, and
      a budget with positive fields is kept. */
  lemma EffectiveBudgetFills(b: WorkBudget)
    ensures EffectiveBudget(Some(WorkBudget(0, 0, 0, 0, 0, 0, 0, 0))) == EffectiveBudget(None)
    ensures EffectiveBudget(Some(EffectiveBudget(Some(b)))) == EffectiveBudget(Some(b))
    ensures (b.maxDepth > 0 && b.maxChildren > 0 && b.maxFanOut > 0 && b.maxConcurrency > 0 && b.maxRuntimeMs > 0 &&
             b.maxRetries > 0 && b.maxTokens > 0 && b.maxWorkUnits > 0) <==> EffectiveBudget(Some(b)) == b
  {
  }

  /** A fan-out that passes its check leaves room for each of its children in turn, and one child more than the limit is
      always caught. */
  lemma FanOutLeavesRoom(parent: Work, count: int, k: nat, depth: int)
    requires 0 <= k < count
    ensures ValidateFanOutLimit(parent, count).None? ==>
            ValidateDelegationLimits(parent.(usedChildren := parent.usedChildren + k), depth) != Some(MaxChildrenExceeded)
    ensures ValidateFanOutLimit(parent, count) == Some(MaxChildrenExceeded) && k == count - 1 ==>
            ValidateDelegationLimits(parent.(usedChildren := parent.usedChildren + k), depth).Some?
  {
  }

  /** A child's token limit stays within what its parent has left, except that a parent whose own limit is not positive
      counts as unlimited: that is exactly when a child can be given more than the parent has left. */
  lemma TokenLimitWithinRemainder(parent: Work, requested: Option<WorkBudget>)
    requires parent.usedTokens >= 0
    ensures (AllocateChildBudget(parent, requested).maxTokens <= Remaining(parent.budget.maxTokens, parent.usedTokens))
            <==> parent.budget.maxTokens > 0
    ensures AllocateChildBudget(parent, requested).maxTokens >= 0
  {
  }

  lemma WorkUnitLimitWithinRemainder(parent: Work, requested: Option<WorkBudget>)
    requires parent.usedWorkUnits >= 0
    ensures (AllocateChildBudget(parent, requested).maxWorkUnits <=
             Remaining(parent.budget.maxWorkUnits, parent.usedWorkUnits))
            <==> parent.budget.maxWorkUnits > 0
    ensures AllocateChildBudget(parent, requested).maxWorkUnits >= 0
  {
  }

  /** A parent that has nothing left gives its child a limit of exactly 0, and a work whose limit is 0 is never refused
      tokens: the exhausted limit is not passed on. */
  lemma ExhaustedLimitIsLost(parent: Work, requested: Option<WorkBudget>, child: Work)
    ensures AllocateChildBudget(parent, requested).maxTokens == 0 <==>
            parent.budget.maxTokens > 0 && parent.usedTokens >= parent.budget.maxTokens
    ensures (forall tokens :: ValidateBudgetAvailability(child, tokens, 0) != Some(TokenBudgetExceeded)) <==>
            child.budget.maxTokens <= 0
  {
    if child.budget.maxTokens > 0 {
      var tokens := Remaining(child.budget.maxTokens, child.usedTokens) + 1;
      assert ValidateBudgetAvailability(child, tokens, 0) == Some(TokenBudgetExceeded);
    }
  }
}
