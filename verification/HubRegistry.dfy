/** hub_registry.go: enrolment and leases of external agents. Expiry is lazy: states are brought up to date only when an
    operation sweeps the table. Secrets are compared through a hash in the source and directly here; fresh ids and
    tokens come from the caller. */
module HubRegistry {
  import opened Options
  import opened Text
  import opened Sets

  datatype AgentState = Pending | Online | Offline | Revoked | Expired

  datatype Agent = Agent(state: AgentState, displayName: string, createdAt: int, expiresAt: int, leaseExpiresAt: int,
                         lastSeenAt: Option<int>, revokedAt: Option<int>, revokeReason: string,
                         registration: string, token: string)

  datatype Mode = Closed | Open | Public

  datatype Policy = Policy(mode: Mode, registrationEnabled: bool, bootstrapToken: string, registrationTTL: int,
                           peerLease: int, maxRegisteredAgents: int)

  datatype Registry = Registry(agents: map<string, Agent>, byRegistration: map<string, string>)

  const EMPTY := Registry(map[], map[])

  // ---------- sweeping ----------

  predicate IsLive(s: AgentState) { !s.Revoked? && !s.Expired? }

  function SweepAgent(a: Agent, now: int): Agent {
    if IsLive(a.state) && now >= a.expiresAt then a.(state := Expired)
    else if (a.state.Pending? || a.state.Online?) && now >= a.leaseExpiresAt then a.(state := Offline)
    else a
  }

  function Sweep(r: Registry, now: int): Registry {
    r.(agents := map id | id in r.agents :: SweepAgent(r.agents[id], now))
  }

  /** A later sweep makes an earlier one invisible. */
  lemma SweepAgain(r: Registry, t1: int, t2: int)
    requires t1 <= t2
    ensures Sweep(Sweep(r, t1), t2) == Sweep(r, t2)
  {
    assert Sweep(Sweep(r, t1), t2).agents == Sweep(r, t2).agents;
  }

  // ---------- operations ----------

  datatype Op =
    | Register(bootstrap: string, declarationOk: bool, displayName: string, key: string, newID: string, newToken: string)
    | Authenticate(id: string, token: string)
    | Heartbeat(id: string, token: string)
    | Disconnect(id: string, token: string)
    | Revoke(id: string, reason: string)
    | Lookup(id: string)

  datatype Result =
    | Issued(id: string, token: Option<string>, expiresAt: int)
    | Metadata(agent: Agent)
    | Ok
    | RegistrationDisabled | InvalidDeclaration | InvalidBootstrap | LimitReached | InvalidCredentials | NotFound

  /** What leaves the registry carries no secrets. */
  function Clone(a: Agent): Agent { a.(registration := "", token := "") }

  ghost function Live(r: Registry): set<string> {
    set id | id in r.agents && IsLive(r.agents[id].state)
  }

  predicate Authentic(r: Registry, id: string, token: string) {
    id in r.agents && IsLive(r.agents[id].state) && token == r.agents[id].token
  }

  function NewAgent(p: Policy, now: int, op: Op): Agent
    requires op.Register?
  {
    Agent(Pending, op.displayName, now, now + p.registrationTTL, now + p.peerLease, None, None, "", op.key, op.newToken)
  }

  /** Enrolment proper, on a table that has just been swept. */
  ghost function Enrol(p: Policy, r: Registry, now: int, op: Op): (Registry, Result)
    requires op.Register?
  {
    if op.key in r.byRegistration && r.byRegistration[op.key] in r.agents &&
       IsLive(r.agents[r.byRegistration[op.key]].state) then
      (r, Issued(r.byRegistration[op.key], None, r.agents[r.byRegistration[op.key]].expiresAt))
    else if |Live(r)| >= p.maxRegisteredAgents then (r, LimitReached)
    else
      var a := NewAgent(p, now, op);
      (Registry(r.agents[op.newID := a], r.byRegistration[op.key := op.newID]),
       Issued(op.newID, Some(op.newToken), a.expiresAt))
  }

  function Beat(p: Policy, a: Agent, now: int): Agent {
    a.(state := Online, lastSeenAt := Some(now), leaseExpiresAt := now + p.peerLease)
  }

  function Part(a: Agent, now: int): Agent { a.(state := Offline, lastSeenAt := Some(now)) }

  function Strip(a: Agent, now: int, reason: string): Agent {
    a.(state := Revoked, revokedAt := Some(now), revokeReason := reason)
  }

  ghost function Do(p: Policy, r: Registry, now: int, op: Op): (Registry, Result) {
    match op
    case Register(_, _, _, _, _, _) =>
      if p.mode.Closed? || !p.registrationEnabled then (r, RegistrationDisabled)
      else if !op.declarationOk then (r, InvalidDeclaration)
      else if p.mode.Open? && op.bootstrap != p.bootstrapToken then (r, InvalidBootstrap)
      else Enrol(p, Sweep(r, now), now, op)
    case Authenticate(id, token) =>
      var s := Sweep(r, now);
      (s, if Authentic(s, id, token) then Metadata(Clone(s.agents[id])) else InvalidCredentials)
    case Heartbeat(id, token) =>
      var s := Sweep(r, now);
      if !Authentic(s, id, token) then (s, InvalidCredentials)
      else
        var a := Beat(p, s.agents[id], now);
        (s.(agents := s.agents[id := a]), Metadata(Clone(a)))
    case Disconnect(id, token) =>
      var s := Sweep(r, now);
      if !Authentic(s, id, token) then (s, InvalidCredentials)
      else
        var a := Part(s.agents[id], now);
        (s.(agents := s.agents[id := a]), Metadata(Clone(a)))
    case Revoke(id, reason) => // no sweep first
      if id !in r.agents then (r, NotFound)
      else if r.agents[id].state.Revoked? then (r, Ok)
      else (r.(agents := r.agents[id := Strip(r.agents[id], now, TrimSpace(reason))]), Ok)
    case Lookup(id) =>
      var s := Sweep(r, now);
      (s, if id in s.agents then Metadata(Clone(s.agents[id])) else NotFound)
  }

  // ---------- lazy expiry is invisible ----------

  /** Two tables that a sweep at `now` would make equal. */
  ghost predicate Same(r1: Registry, r2: Registry, now: int) { Sweep(r1, now) == Sweep(r2, now) }

  lemma SweepFacts(r: Registry, now: int)
    ensures Sweep(r, now).agents.Keys == r.agents.Keys && Sweep(r, now).byRegistration == r.byRegistration
    ensures forall id :: id in r.agents ==> Sweep(r, now).agents[id] == SweepAgent(r.agents[id], now)
  {
  }

  lemma SameSweptAgents(a1: Agent, a2: Agent, now: int, reason: string)
    requires SweepAgent(a1, now) == SweepAgent(a2, now)
    ensures a1.state.Revoked? <==> a2.state.Revoked?
    ensures Strip(a1, now, reason) == Strip(a2, now, reason)
  {
  }

  lemma SameRevoke(p: Policy, r1: Registry, r2: Registry, now: int, op: Op)
    requires Same(r1, r2, now) && op.Revoke?
    ensures Do(p, r1, now, op).1 == Do(p, r2, now, op).1
    ensures Same(Do(p, r1, now, op).0, Do(p, r2, now, op).0, now)
  {
    hide SweepAgent, Strip;
    SweepFacts(r1, now);
    SweepFacts(r2, now);
    assert r1.agents.Keys == r2.agents.Keys;
    if op.id in r1.agents {
      SameSweptAgents(r1.agents[op.id], r2.agents[op.id], now, TrimSpace(op.reason));
      if !r1.agents[op.id].state.Revoked? {
        var s1, s2 := Do(p, r1, now, op).0, Do(p, r2, now, op).0;
        forall id | id in s1.agents ensures SweepAgent(s1.agents[id], now) == SweepAgent(s2.agents[id], now) {
          assert SweepAgent(r1.agents[id], now) == SweepAgent(r2.agents[id], now);
        }
        assert Sweep(s1, now).agents == Sweep(s2, now).agents;
      }
    }
  }

  /** An operation answers the same on tables a sweep would make equal, and leaves them so. */
  lemma SameDo(p: Policy, r1: Registry, r2: Registry, now: int, op: Op)
    requires Same(r1, r2, now)
    ensures Do(p, r1, now, op).1 == Do(p, r2, now, op).1
    ensures Same(Do(p, r1, now, op).0, Do(p, r2, now, op).0, now)
  {
    hide Sweep, Enrol, Beat, Part, Clone;
    if op.Revoke? { SameRevoke(p, r1, r2, now, op); }
  }

  datatype Call = Call(now: int, op: Op) | SweepAt(now: int)

  ghost predicate Clocked(calls: seq<Call>, from: int) {
    calls == [] || (from <= calls[0].now && Clocked(calls[1..], calls[0].now))
  }

  /** The answers of a run; sweeps answer nothing. */
  ghost function Answers(p: Policy, r: Registry, calls: seq<Call>): seq<Result>
    decreases |calls|
  {
    if calls == [] then []
    else match calls[0]
      case Call(now, op) =>
        var (r', a) := Do(p, r, now, op);
        [a] + Answers(p, r', calls[1..])
      case SweepAt(now) => Answers(p, Sweep(r, now), calls[1..])
  }

  function WithoutSweeps(calls: seq<Call>): seq<Call> {
    if calls == [] then []
    else (if calls[0].Call? then [calls[0]] else []) + WithoutSweeps(calls[1..])
  }

  lemma SameLater(r1: Registry, r2: Registry, t1: int, t2: int)
    requires Same(r1, r2, t1) && t1 <= t2
    ensures Same(r1, r2, t2)
  {
    SweepAgain(r1, t1, t2);
    SweepAgain(r2, t1, t2);
  }

  lemma SameSwept(r1: Registry, r2: Registry, now: int)
    requires Same(r1, r2, now)
    ensures Same(Sweep(r1, now), r2, now)
  {
    SweepAgain(r1, now, now);
  }

  /** Expiry sweeps inserted anywhere in a run with a clock that never goes back change no answer. */
  lemma {:induction false} LazyExpiryInvisible(p: Policy, r1: Registry, r2: Registry, calls: seq<Call>, from: int)
    requires Clocked(calls, from) && Same(r1, r2, from)
    ensures Answers(p, r1, calls) == Answers(p, r2, WithoutSweeps(calls))
    decreases |calls|
  {
    hide Same, Do, Sweep;
    if calls != [] {
      var now := calls[0].now;
      SameLater(r1, r2, from, now);
      match calls[0] {
        case Call(_, op) =>
          SameDo(p, r1, r2, now, op);
          assert WithoutSweeps(calls) == [calls[0]] + WithoutSweeps(calls[1..]);
          LazyExpiryInvisible(p, Do(p, r1, now, op).0, Do(p, r2, now, op).0, calls[1..], now);
        case SweepAt(_) =>
          SameSwept(r1, r2, now);
          assert WithoutSweeps(calls) == WithoutSweeps(calls[1..]);
          LazyExpiryInvisible(p, Sweep(r1, now), r2, calls[1..], now);
      }
    }
  }

  // ---------- what every run keeps ----------

  ghost function After(p: Policy, r: Registry, c: Call): Registry {
    match c
    case Call(now, op) => Do(p, r, now, op).0
    case SweepAt(now) => Sweep(r, now)
  }

  /** The id drawn for a new agent has never been used. */
  ghost predicate DrawsFresh(r: Registry, c: Call) { c.Call? && c.op.Register? ==> c.op.newID !in r.agents }

  ghost function Run(p: Policy, calls: seq<Call>): Registry {
    if calls == [] then EMPTY else After(p, Run(p, calls[..|calls| - 1]), calls[|calls| - 1])
  }

  ghost predicate FreshRun(p: Policy, calls: seq<Call>) {
    forall k :: 0 <= k < |calls| ==> DrawsFresh(Run(p, calls[..k]), calls[k])
  }

  /** The cap holds and every live agent is the one its registration key leads to. */
  ghost predicate Inv(p: Policy, r: Registry) {
    && |Live(r)| <= p.maxRegisteredAgents
    && forall id :: id in Live(r) ==>
         r.agents[id].registration in r.byRegistration && r.byRegistration[r.agents[id].registration] == id
  }

  lemma SweepInv(p: Policy, r: Registry, now: int)
    requires Inv(p, r)
    ensures Inv(p, Sweep(r, now))
  {
    assert Live(Sweep(r, now)) <= Live(r);
    SubsetSize(Live(Sweep(r, now)), Live(r));
  }

  /** Changing one agent's state and times keeps the invariant when it does not bring it back to life. */
  lemma UpdateInv(p: Policy, r: Registry, id: string, a: Agent)
    requires Inv(p, r) && id in r.agents && a.registration == r.agents[id].registration
    requires IsLive(a.state) ==> IsLive(r.agents[id].state)
    ensures Inv(p, r.(agents := r.agents[id := a]))
  {
    var r' := r.(agents := r.agents[id := a]);
    assert Live(r') <= Live(r);
    SubsetSize(Live(r'), Live(r));
  }

  lemma EnrolInv(p: Policy, r: Registry, now: int, op: Op)
    requires Inv(p, r) && op.Register? && op.newID !in r.agents
    ensures Inv(p, Enrol(p, r, now, op).0)
  {
    var r' := Enrol(p, r, now, op).0;
    if r' != r {
      assert Live(r') == Live(r) + {op.newID};
    }
  }

  lemma StepInv(p: Policy, r: Registry, c: Call)
    requires Inv(p, r) && DrawsFresh(r, c)
    ensures Inv(p, After(p, r, c))
  {
    hide Inv, Sweep, Enrol;
    SweepInv(p, r, c.now);
    var s := Sweep(r, c.now);
    SweepFacts(r, c.now);
    if c.Call? {
      match c.op {
        case Register(_, _, _, _, _, _) => EnrolInv(p, s, c.now, c.op);
        case Heartbeat(id, token) =>
          if Authentic(s, id, token) { UpdateInv(p, s, id, Beat(p, s.agents[id], c.now)); }
        case Disconnect(id, token) =>
          if Authentic(s, id, token) { UpdateInv(p, s, id, Part(s.agents[id], c.now)); }
        case Revoke(id, reason) =>
          if id in r.agents && !r.agents[id].state.Revoked? { UpdateInv(p, r, id, Strip(r.agents[id], c.now, TrimSpace(reason))); }
        case Authenticate(_, _) =>
        case Lookup(_) =>
      }
    }
  }

  /** In every run from an empty hub the live agents never exceed the cap, and each registration key leads to its one
      live agent. */
  lemma {:induction false} CapHoldsInEveryRun(p: Policy, calls: seq<Call>)
    requires p.maxRegisteredAgents > 0 && FreshRun(p, calls)
    ensures Inv(p, Run(p, calls))
  {
    if calls == [] {
      assert Live(EMPTY) == {};
    } else {
      var before := calls[..|calls| - 1];
      assert forall k :: 0 <= k < |before| ==> before[..k] == calls[..k] && before[k] == calls[k];
      CapHoldsInEveryRun(p, before);
      assert DrawsFresh(Run(p, before), calls[|calls| - 1]);
      StepInv(p, Run(p, before), calls[|calls| - 1]);
    }
  }

  /** Registering again under the key of an agent that is still live at that moment answers with that agent and only
      brings the table up to date. */
  lemma ReRegisterReturnsLiveAgent(p: Policy, calls: seq<Call>, now: int, op: Op, id: string)
    requires p.maxRegisteredAgents > 0 && FreshRun(p, calls) && op.Register?
    requires id in Live(Sweep(Run(p, calls), now)) && Run(p, calls).agents[id].registration == op.key
    ensures var (r', a) := Do(p, Run(p, calls), now, op);
            (a.Issued? ==> a == Issued(id, None, Run(p, calls).agents[id].expiresAt)) &&
            (a.Issued? || a.RegistrationDisabled? || a.InvalidDeclaration? || a.InvalidBootstrap?) &&
            r' in {Run(p, calls), Sweep(Run(p, calls), now)}
  {
    var r := Run(p, calls);
    CapHoldsInEveryRun(p, calls);
    SweepInv(p, r, now);
    SweepFacts(r, now);
  }

  lemma TerminalStep(p: Policy, r: Registry, c: Call, id: string)
    requires DrawsFresh(r, c) && id in r.agents
    ensures id in After(p, r, c).agents
    ensures r.agents[id].state.Revoked? ==> After(p, r, c).agents[id] == r.agents[id]
    ensures r.agents[id].state.Expired? ==> After(p, r, c).agents[id].state.Expired? || After(p, r, c).agents[id].state.Revoked?
  {
    hide Sweep, Clone;
    SweepFacts(r, c.now);
  }

  /** From any point of any run on: no agent disappears, a REVOKED one never changes again, and an EXPIRED one can only
      become REVOKED. */
  lemma {:induction false} TerminalStates(p: Policy, calls: seq<Call>, k: nat, id: string)
    requires FreshRun(p, calls) && k <= |calls| && id in Run(p, calls[..k]).agents
    ensures var was, now := Run(p, calls[..k]), Run(p, calls);
            && id in now.agents
            && (was.agents[id].state.Revoked? ==> now.agents[id] == was.agents[id])
            && (was.agents[id].state.Expired? ==> now.agents[id].state.Expired? || now.agents[id].state.Revoked?)
    decreases |calls|
  {
    hide After;
    if k == |calls| {
      assert calls[..k] == calls;
    } else {
      var before := calls[..|calls| - 1];
      assert before[..k] == calls[..k];
      assert forall i :: 0 <= i < |before| ==> before[..i] == calls[..i] && before[i] == calls[i];
      TerminalStates(p, before, k, id);
      assert DrawsFresh(Run(p, before), calls[|calls| - 1]);
      TerminalStep(p, Run(p, before), calls[|calls| - 1], id);
    }
  }

  // ---------- the registry object ----------

  class Hub {
    const policy: Policy
    var agents: map<string, Agent>
    var byRegistration: map<string, string>

    ghost function View(): Registry
      reads this
    {
      Registry(agents, byRegistration)
    }

    constructor (policy: Policy)
      ensures this.policy == policy && View() == EMPTY
    {
      this.policy := policy;
      agents, byRegistration := map[], map[];
    }

    method SweepOne(id: string, now: int) returns (expired: bool)
      requires id in agents
      modifies `agents
      ensures agents == old(agents)[id := SweepAgent(old(agents)[id], now)]
      ensures expired <==> IsLive(old(agents)[id].state) && now >= old(agents)[id].expiresAt
    {
      var agent := agents[id];
      expired := false;
      if (agent.state.Pending? || agent.state.Online? || agent.state.Offline?) && now >= agent.expiresAt {
        agents := agents[id := agent.(state := Expired)];
        expired := true;
      } else if (agent.state.Pending? || agent.state.Online?) && now >= agent.leaseExpiresAt {
        agents := agents[id := agent.(state := Offline)];
      }
    }

    /** The sweep, agent by agent; it reports the agents it expired. */
    method Reconcile(now: int) returns (expired: set<string>)
      modifies `agents
      ensures View() == Sweep(old(View()), now)
      ensures expired == set id | id in old(agents) && IsLive(old(agents)[id].state) && now >= old(agents)[id].expiresAt
    {
      hide SweepAgent, IsLive;
      ghost var start := agents;
      expired := {};
      var remaining := agents.Keys;
      while remaining != {}
        invariant remaining <= agents.Keys == start.Keys
        invariant forall id :: id in remaining ==> agents[id] == start[id]
        invariant forall id :: id in agents && id !in remaining ==> agents[id] == SweepAgent(start[id], now)
        invariant forall id :: id in expired <==>
                    id in start && id !in remaining && IsLive(start[id].state) && now >= start[id].expiresAt
      {
        var id :| id in remaining;
        var gone := SweepOne(id, now);
        if gone { expired := expired + {id}; }
        remaining := remaining - {id};
      }
      assert agents == map id | id in start :: SweepAgent(start[id], now);
    }

    method ActiveAgentCount() returns (count: nat)
      ensures count == |Live(View())|
    {
      count := 0;
      ghost var counted: set<string> := {};
      var remaining := agents.Keys;
      while remaining != {}
        invariant remaining <= agents.Keys && count == |counted|
        invariant counted == set id | id in agents && id !in remaining && IsLive(agents[id].state)
      {
        var id :| id in remaining;
        if !agents[id].state.Revoked? && !agents[id].state.Expired? {
          count := count + 1;
          counted := counted + {id};
        }
        remaining := remaining - {id};
      }
      assert counted == Live(View());
    }

    method RegisterContext(op: Op, now: int) returns (r: Result)
      requires op.Register?
      modifies this
      ensures (View(), r) == Do(policy, old(View()), now, op)
    {
      if policy.mode.Closed? || !policy.registrationEnabled { return RegistrationDisabled; }
      if !op.declarationOk { return InvalidDeclaration; }
      if policy.mode.Open? && op.bootstrap != policy.bootstrapToken { return InvalidBootstrap; }
      var _ := Reconcile(now);
      if op.key in byRegistration {
        var existingID := byRegistration[op.key];
        if existingID in agents && !agents[existingID].state.Revoked? && !agents[existingID].state.Expired? {
          return Issued(existingID, None, agents[existingID].expiresAt);
        }
      }
      var count := ActiveAgentCount();
      if count >= policy.maxRegisteredAgents { return LimitReached; }
      var agent := NewAgent(policy, now, op);
      agents := agents[op.newID := agent];
      byRegistration := byRegistration[op.key := op.newID];
      return Issued(op.newID, Some(op.newToken), agent.expiresAt);
    }

    method AuthenticateAgent(id: string, token: string, now: int) returns (r: Result)
      modifies `agents
      ensures (View(), r) == Do(policy, old(View()), now, Authenticate(id, token))
    {
      var _ := Reconcile(now);
      if id !in agents || agents[id].state.Revoked? || agents[id].state.Expired? || token != agents[id].token {
        return InvalidCredentials;
      }
      return Metadata(Clone(agents[id]));
    }

    method HeartbeatContext(id: string, token: string, now: int) returns (r: Result)
      modifies `agents
      ensures (View(), r) == Do(policy, old(View()), now, Heartbeat(id, token))
    {
      var _ := Reconcile(now);
      if id !in agents || agents[id].state.Revoked? || agents[id].state.Expired? || token != agents[id].token {
        return InvalidCredentials;
      }
      var agent := agents[id].(state := Online);
      agent := agent.(lastSeenAt := Some(now));
      agent := agent.(leaseExpiresAt := now + policy.peerLease);
      agents := agents[id := agent];
      return Metadata(Clone(agent));
    }

    method DisconnectContext(id: string, token: string, now: int) returns (r: Result)
      modifies `agents
      ensures (View(), r) == Do(policy, old(View()), now, Disconnect(id, token))
    {
      var _ := Reconcile(now);
      if id !in agents || agents[id].state.Revoked? || agents[id].state.Expired? || token != agents[id].token {
        return InvalidCredentials;
      }
      var agent := agents[id].(state := Offline);
      agent := agent.(lastSeenAt := Some(now));
      agents := agents[id := agent];
      return Metadata(Clone(agent));
    }

    method RevokeContext(id: string, reason: string, now: int) returns (r: Result)
      modifies `agents
      ensures (View(), r) == Do(policy, old(View()), now, Revoke(id, reason))
    {
      if id !in agents { return NotFound; }
      if agents[id].state.Revoked? { return Ok; }
      agents := agents[id := agents[id].(state := Revoked, revokedAt := Some(now), revokeReason := TrimSpace(reason))];
      return Ok;
    }

    method LookupView(id: string, now: int) returns (r: Result)
      modifies `agents
      ensures (View(), r) == Do(policy, old(View()), now, Lookup(id))
    {
      var _ := Reconcile(now);
      if id !in agents { return NotFound; }
      return Metadata(Clone(agents[id]));
    }
  }
}
