/** hub_registry.go, from outside: what the hub answers in a run, told by its earlier answers alone. An enrolment is a
    registration that was answered with a token. */
module HubAnswers {
  import opened Options
  import opened Sets
  import opened Text
  import opened HubRegistry

  /** The answer to call k of a run that starts from an empty hub. */
  ghost function AnswerOf(p: Policy, calls: seq<Call>, k: nat): Result
    requires k < |calls| && calls[k].Call?
  {
    Do(p, Run(p, calls[..k]), calls[k].now, calls[k].op).1
  }

  ghost predicate Timed(calls: seq<Call>) { forall i, j :: 0 <= i < j < |calls| ==> calls[i].now <= calls[j].now }

  ghost predicate Enrols(p: Policy, calls: seq<Call>, j: nat, id: string) {
    j < |calls| && calls[j].Call? && calls[j].op.Register? && AnswerOf(p, calls, j).Issued? &&
    AnswerOf(p, calls, j).id == id && AnswerOf(p, calls, j).token.Some?
  }

  predicate Revokes(calls: seq<Call>, i: nat, id: string) {
    i < |calls| && calls[i].Call? && calls[i].op.Revoke? && calls[i].op.id == id
  }

  ghost predicate Beats(p: Policy, calls: seq<Call>, i: nat, id: string) {
    i < |calls| && calls[i].Call? && calls[i].op.Heartbeat? && calls[i].op.id == id && AnswerOf(p, calls, i).Metadata?
  }

  ghost predicate Parts(p: Policy, calls: seq<Call>, i: nat, id: string) {
    i < |calls| && calls[i].Call? && calls[i].op.Disconnect? && calls[i].op.id == id && AnswerOf(p, calls, i).Metadata?
  }

  /** Enrolment j still counts at time t, after all of `calls`. */
  ghost predicate Stands(p: Policy, calls: seq<Call>, j: nat, id: string, t: int) {
    Enrols(p, calls, j, id) && (forall i :: j < i < |calls| ==> !Revokes(calls, i, id)) && t < calls[j].now + p.registrationTTL
  }

  /** Heartbeat h still keeps the agent online at time t: it has not disconnected since, and the lease has not run out. */
  ghost predicate Leases(p: Policy, calls: seq<Call>, h: nat, id: string, t: int) {
    Beats(p, calls, h, id) && (forall i :: h < i < |calls| ==> !Parts(p, calls, i, id)) && t < calls[h].now + p.peerLease
  }

  // ---------- what the table remembers ----------

  predicate Latest(calls: seq<Call>, t: int) { forall i :: 0 <= i < |calls| ==> calls[i].now <= t }

  /** The record of the agent that enrolment j created. */
  ghost predicate Tells(p: Policy, calls: seq<Call>, j: nat, id: string, a: Agent) {
    && Enrols(p, calls, j, id) && id == calls[j].op.newID && AnswerOf(p, calls, j).token == Some(a.token)
    && a.displayName == calls[j].op.displayName && a.registration == calls[j].op.key && a.token == calls[j].op.newToken
    && a.createdAt == calls[j].now && a.expiresAt == calls[j].now + p.registrationTTL
    && (forall t :: Latest(calls, t) ==> (IsLive(SweepAgent(a, t).state) <==> Stands(p, calls, j, id, t)))
    && (forall t :: Latest(calls, t) ==>
          (SweepAgent(a, t).state.Online? <==> Stands(p, calls, j, id, t) && exists h: nat :: j < h && Leases(p, calls, h, id, t)))
  }

  ghost predicate Told(p: Policy, calls: seq<Call>, id: string) {
    id in Run(p, calls).agents ==> exists j :: Tells(p, calls, j, id, Run(p, calls).agents[id])
  }

  // ---------- one call more ----------

  lemma SameAnswer(p: Policy, calls: seq<Call>, c: Call, k: nat)
    requires k < |calls| && calls[k].Call?
    ensures AnswerOf(p, calls + [c], k) == AnswerOf(p, calls, k)
  {
    assert (calls + [c])[..k] == calls[..k];
  }

  lemma SameEvents(p: Policy, calls: seq<Call>, c: Call, i: nat, id: string)
    requires i < |calls|
    ensures Enrols(p, calls + [c], i, id) <==> Enrols(p, calls, i, id)
    ensures Revokes(calls + [c], i, id) <==> Revokes(calls, i, id)
    ensures Beats(p, calls + [c], i, id) <==> Beats(p, calls, i, id)
    ensures Parts(p, calls + [c], i, id) <==> Parts(p, calls, i, id)
  {
    if calls[i].Call? { SameAnswer(p, calls, c, i); }
  }

  /** How standing and leases go on over one more call. */
  lemma StandsOn(p: Policy, calls: seq<Call>, c: Call, j: nat, id: string, t: int)
    requires j < |calls|
    ensures Stands(p, calls + [c], j, id, t) <==> Stands(p, calls, j, id, t) && !Revokes(calls + [c], |calls|, id)
  {
    hide Enrols, Revokes;
    SameEvents(p, calls, c, j, id);
    forall i | 0 <= i < |calls| ensures Revokes(calls + [c], i, id) <==> Revokes(calls, i, id) { SameEvents(p, calls, c, i, id); }
  }

  lemma LeasesOn(p: Policy, calls: seq<Call>, c: Call, h: nat, id: string, t: int)
    ensures h < |calls| ==> (Leases(p, calls + [c], h, id, t) <==> Leases(p, calls, h, id, t) && !Parts(p, calls + [c], |calls|, id))
    ensures h == |calls| ==> (Leases(p, calls + [c], h, id, t) <==> Beats(p, calls + [c], h, id) && t < c.now + p.peerLease)
    ensures h > |calls| ==> !Leases(p, calls + [c], h, id, t)
    ensures h >= |calls| ==> !Leases(p, calls, h, id, t)
  {
    hide AnswerOf;
    if h < |calls| {
      hide Beats, Parts;
      SameEvents(p, calls, c, h, id);
      forall i | 0 <= i < |calls| ensures Parts(p, calls + [c], i, id) <==> Parts(p, calls, i, id) { SameEvents(p, calls, c, i, id); }
    }
  }

  lemma SweptAgain(a: Agent, t1: int, t2: int)
    requires t1 <= t2
    ensures SweepAgent(SweepAgent(a, t1), t2) == SweepAgent(a, t2)
  {
  }

  ghost predicate Quiet(p: Policy, calls: seq<Call>, id: string)
    requires calls != []
  {
    !Revokes(calls, |calls| - 1, id) && !Beats(p, calls, |calls| - 1, id) && !Parts(p, calls, |calls| - 1, id)
  }

  ghost predicate Online(p: Policy, calls: seq<Call>, j: nat, id: string, t: int) {
    Stands(p, calls, j, id, t) && exists h: nat :: j < h && Leases(p, calls, h, id, t)
  }

  lemma TellsOn(p: Policy, calls: seq<Call>, c: Call, j: nat, id: string, a: Agent, a': Agent)
    requires Tells(p, calls, j, id, a) && a' in {a, SweepAgent(a, c.now)} && Timed(calls + [c]) && Quiet(p, calls + [c], id)
    ensures Tells(p, calls + [c], j, id, a')
  {
    hide SweepAgent, Enrols, Revokes, Beats, Parts, Stands, Leases, AnswerOf;
    EnrolmentBasics(p, calls, c, j, id);
    LatestOn(calls, c);
    SweptKeeps(a, c.now);
    forall t | Latest(calls + [c], t)
      ensures IsLive(SweepAgent(a', t).state) <==> Stands(p, calls + [c], j, id, t)
      ensures SweepAgent(a', t).state.Online? <==> Online(p, calls + [c], j, id, t)
    {
      SweptAgain(a, c.now, t);
      StandsOn(p, calls, c, j, id, t);
      QuietLeases(p, calls, c, id, t);
    }
  }

  lemma EnrolmentBasics(p: Policy, calls: seq<Call>, c: Call, j: nat, id: string)
    requires Enrols(p, calls, j, id)
    ensures j < |calls| && calls[j].Call? && Enrols(p, calls + [c], j, id) && AnswerOf(p, calls + [c], j) == AnswerOf(p, calls, j)
  {
    SameEvents(p, calls, c, j, id);
    SameAnswer(p, calls, c, j);
    hide AnswerOf;
  }

  lemma LatestOn(calls: seq<Call>, c: Call)
    requires Timed(calls + [c])
    ensures Latest(calls, c.now)
    ensures forall t :: Latest(calls + [c], t) <==> c.now <= t
    ensures forall t :: c.now <= t ==> Latest(calls, t)
  {
    forall i | 0 <= i < |calls| ensures calls[i].now <= c.now { assert (calls + [c])[i] == calls[i] && (calls + [c])[|calls|] == c; }
    forall t | Latest(calls + [c], t) ensures c.now <= t { assert (calls + [c])[|calls|] == c; }
  }

  lemma SweptKeeps(a: Agent, now: int)
    ensures var b := SweepAgent(a, now);
            b.displayName == a.displayName && b.registration == a.registration && b.token == a.token &&
            b.createdAt == a.createdAt && b.expiresAt == a.expiresAt
  {
  }

  lemma QuietLeases(p: Policy, calls: seq<Call>, c: Call, id: string, t: int)
    requires Quiet(p, calls + [c], id)
    ensures forall h :: Leases(p, calls + [c], h, id, t) <==> Leases(p, calls, h, id, t)
  {
    hide Leases, Beats, Parts, Revokes;
    forall h ensures Leases(p, calls + [c], h, id, t) <==> Leases(p, calls, h, id, t) { LeasesOn(p, calls, c, h, id, t); }
  }

  // ---------- the calls that matter to an agent ----------

  lemma LastCall(p: Policy, calls: seq<Call>, c: Call)
    ensures Run(p, calls + [c]) == After(p, Run(p, calls), c)
    ensures c.Call? ==> AnswerOf(p, calls + [c], |calls|) == Do(p, Run(p, calls), c.now, c.op).1
  {
    assert (calls + [c])[..|calls|] == calls;
  }

  /** What one call makes of a known agent. */
  lemma AgentStep(p: Policy, r: Registry, c: Call, id: string)
    requires DrawsFresh(r, c) && id in r.agents
    ensures id in After(p, r, c).agents
    ensures var a, a' := r.agents[id], After(p, r, c).agents[id];
            if c.Call? && c.op.Heartbeat? && c.op.id == id && Do(p, r, c.now, c.op).1.Metadata? then
              IsLive(SweepAgent(a, c.now).state) && a' == Beat(p, SweepAgent(a, c.now), c.now)
            else if c.Call? && c.op.Disconnect? && c.op.id == id && Do(p, r, c.now, c.op).1.Metadata? then
              IsLive(SweepAgent(a, c.now).state) && a' == Part(SweepAgent(a, c.now), c.now)
            else if c.Call? && c.op.Revoke? && c.op.id == id then
              a'.state.Revoked? && SweptSame(a, a')
            else a' in {a, SweepAgent(a, c.now)}
  {
    hide Sweep, SweepAgent, Clone, Beat, Part;
    SweepFacts(r, c.now);
  }

  predicate SweptSame(a: Agent, b: Agent) {
    b.displayName == a.displayName && b.registration == a.registration && b.token == a.token &&
    b.createdAt == a.createdAt && b.expiresAt == a.expiresAt
  }

  /** An agent that is alive, at a time up to which its enrolment stands, in a given state with a given lease. */
  lemma AliveUntil(a: Agent, t: int)
    ensures IsLive(a.state) ==> (IsLive(SweepAgent(a, t).state) <==> t < a.expiresAt)
    ensures SweepAgent(a, t).state.Online? <==> a.state.Online? && t < a.expiresAt && t < a.leaseExpiresAt
    ensures !IsLive(a.state) ==> !IsLive(SweepAgent(a, t).state)
  {
  }

  lemma BeatTells(p: Policy, calls: seq<Call>, c: Call, j: nat, id: string, a: Agent)
    requires Tells(p, calls, j, id, a) && Timed(calls + [c]) && Beats(p, calls + [c], |calls|, id)
    requires IsLive(SweepAgent(a, c.now).state)
    ensures Tells(p, calls + [c], j, id, Beat(p, SweepAgent(a, c.now), c.now))
  {
    hide SweepAgent, Enrols, Leases, AnswerOf, IsLive;
    var a' := Beat(p, SweepAgent(a, c.now), c.now);
    assert !Revokes(calls + [c], |calls|, id);
    EnrolmentBasics(p, calls, c, j, id);
    LatestOn(calls, c);
    SweptKeeps(a, c.now);
    assert Stands(p, calls, j, id, c.now);
    forall t | Latest(calls + [c], t)
      ensures IsLive(SweepAgent(a', t).state) <==> Stands(p, calls + [c], j, id, t)
      ensures SweepAgent(a', t).state.Online? <==> Online(p, calls + [c], j, id, t)
    {
      OnlineIsLive(a');
      AliveUntil(a', t);
      StandsOn(p, calls, c, j, id, t);
      LatestBeat(p, calls, c, j, id, t);
    }
  }

  lemma OnlineIsLive(a: Agent)
    ensures a.state.Online? || a.state.Offline? ==> IsLive(a.state)
  {
  }

  lemma LatestBeat(p: Policy, calls: seq<Call>, c: Call, j: nat, id: string, t: int)
    requires Timed(calls + [c]) && Beats(p, calls + [c], |calls|, id) && j < |calls|
    ensures (exists h: nat :: j < h && Leases(p, calls + [c], h, id, t)) <==> t < c.now + p.peerLease
  {
    hide Beats, Parts, AnswerOf;
    LeasesOn(p, calls, c, |calls|, id, t);
    forall h: nat | Leases(p, calls + [c], h, id, t) ensures t < c.now + p.peerLease {
      LeasesOn(p, calls, c, h, id, t);
      if h < |calls| { assert (calls + [c])[h].now <= (calls + [c])[|calls|].now; }
    }
  }

  lemma PartTells(p: Policy, calls: seq<Call>, c: Call, j: nat, id: string, a: Agent)
    requires Tells(p, calls, j, id, a) && Timed(calls + [c]) && Parts(p, calls + [c], |calls|, id)
    requires IsLive(SweepAgent(a, c.now).state)
    ensures Tells(p, calls + [c], j, id, Part(SweepAgent(a, c.now), c.now))
  {
    hide SweepAgent, Enrols, Leases, AnswerOf, IsLive;
    var a' := Part(SweepAgent(a, c.now), c.now);
    assert !Revokes(calls + [c], |calls|, id) && !Beats(p, calls + [c], |calls|, id);
    EnrolmentBasics(p, calls, c, j, id);
    LatestOn(calls, c);
    SweptKeeps(a, c.now);
    assert Stands(p, calls, j, id, c.now);
    forall t | Latest(calls + [c], t)
      ensures IsLive(SweepAgent(a', t).state) <==> Stands(p, calls + [c], j, id, t)
      ensures SweepAgent(a', t).state.Online? <==> Online(p, calls + [c], j, id, t)
    {
      OnlineIsLive(a');
      AliveUntil(a', t);
      StandsOn(p, calls, c, j, id, t);
      forall h ensures !Leases(p, calls + [c], h, id, t) { LeasesOn(p, calls, c, h, id, t); }
    }
  }

  lemma RevokeTells(p: Policy, calls: seq<Call>, c: Call, j: nat, id: string, a: Agent, a': Agent)
    requires Tells(p, calls, j, id, a) && Timed(calls + [c]) && Revokes(calls + [c], |calls|, id)
    requires a'.state.Revoked? && SweptSame(a, a')
    ensures Tells(p, calls + [c], j, id, a')
  {
    hide SweepAgent, Enrols, Leases, AnswerOf;
    EnrolmentBasics(p, calls, c, j, id);
    forall t | Latest(calls + [c], t)
      ensures !IsLive(SweepAgent(a', t).state) && !SweepAgent(a', t).state.Online? && !Stands(p, calls + [c], j, id, t)
    {
      AliveUntil(a', t);
      StandsOn(p, calls, c, j, id, t);
    }
  }

  /** What registration answers with a token, and the agent it creates. */
  lemma Enrolment(p: Policy, r: Registry, c: Call)
    requires c.Call? && c.op.Register? && DrawsFresh(r, c)
    ensures var (r', a) := Do(p, r, c.now, c.op);
            if a.Issued? && a.token.Some? then
              a == Issued(c.op.newID, Some(c.op.newToken), c.now + p.registrationTTL) && r'.agents.Keys == r.agents.Keys + {c.op.newID} &&
              r'.agents[c.op.newID] == NewAgent(p, c.now, c.op)
            else r'.agents.Keys == r.agents.Keys
  {
    hide SweepAgent, Live;
    SweepFacts(r, c.now);
  }

  lemma NewTells(p: Policy, calls: seq<Call>, c: Call)
    requires Timed(calls + [c]) && c.Call? && c.op.Register? && Enrols(p, calls + [c], |calls|, c.op.newID)
    requires AnswerOf(p, calls + [c], |calls|).token == Some(c.op.newToken)
    ensures Tells(p, calls + [c], |calls|, c.op.newID, NewAgent(p, c.now, c.op))
  {
    hide SweepAgent, Enrols, AnswerOf;
    var n, id, a := |calls|, c.op.newID, NewAgent(p, c.now, c.op);
    LatestOn(calls, c);
    forall t | Latest(calls + [c], t)
      ensures IsLive(SweepAgent(a, t).state) <==> Stands(p, calls + [c], n, id, t)
      ensures SweepAgent(a, t).state.Online? <==> Online(p, calls + [c], n, id, t)
    {
      AliveUntil(a, t);
      forall h: nat | n < h ensures !Leases(p, calls + [c], h, id, t) { LeasesOn(p, calls, c, h, id, t); }
    }
  }

  // ---------- every run ----------

  ghost predicate AllTold(p: Policy, calls: seq<Call>) {
    && (forall id :: id in Run(p, calls).agents ==> exists j :: Tells(p, calls, j, id, Run(p, calls).agents[id]))
    && (forall j, id :: Enrols(p, calls, j, id) ==> id in Run(p, calls).agents)
  }

  lemma OldAgentTold(p: Policy, calls: seq<Call>, c: Call, id: string)
    requires Timed(calls + [c]) && DrawsFresh(Run(p, calls), c) && id in Run(p, calls).agents
    requires exists j :: Tells(p, calls, j, id, Run(p, calls).agents[id])
    ensures id in Run(p, calls + [c]).agents
    ensures exists j :: Tells(p, calls + [c], j, id, Run(p, calls + [c]).agents[id])
  {
    LastCall(p, calls, c);
    AgentStep(p, Run(p, calls), c, id);
    hide Run, After, SweepAgent, Do, Tells, Beat, Part, SweptSame, IsLive, Timed, DrawsFresh;
    var a := Run(p, calls).agents[id];
    var j :| Tells(p, calls, j, id, a);
    if Beats(p, calls + [c], |calls|, id) {
      BeatTells(p, calls, c, j, id, a);
    } else if Parts(p, calls + [c], |calls|, id) {
      PartTells(p, calls, c, j, id, a);
    } else if Revokes(calls + [c], |calls|, id) {
      RevokeTells(p, calls, c, j, id, a, Run(p, calls + [c]).agents[id]);
    } else {
      TellsOn(p, calls, c, j, id, a, Run(p, calls + [c]).agents[id]);
    }
  }

  lemma NewAgents(p: Policy, calls: seq<Call>, c: Call, id: string)
    requires Timed(calls + [c]) && DrawsFresh(Run(p, calls), c)
    requires id in Run(p, calls + [c]).agents && id !in Run(p, calls).agents
    ensures exists j :: Tells(p, calls + [c], j, id, Run(p, calls + [c]).agents[id])
  {
    LastCall(p, calls, c);
    NobodyElse(p, Run(p, calls), c, id);
    Enrolment(p, Run(p, calls), c);
    hide Run, SweepAgent, Do, Tells, Timed, DrawsFresh, AnswerOf;
    NewTells(p, calls, c);
  }

  lemma NobodyElse(p: Policy, r: Registry, c: Call, id: string)
    requires id in After(p, r, c).agents && id !in r.agents
    ensures c.Call? && c.op.Register?
  {
    hide SweepAgent, Enrol;
    SweepFacts(r, c.now);
  }

  lemma EnrolledAreKnown(p: Policy, calls: seq<Call>, c: Call, j: nat, id: string)
    requires DrawsFresh(Run(p, calls), c) && AllTold(p, calls) && Enrols(p, calls + [c], j, id)
    ensures id in Run(p, calls + [c]).agents
  {
    LastCall(p, calls, c);
    if j < |calls| {
      SameEvents(p, calls, c, j, id);
      AgentStep(p, Run(p, calls), c, id);
    } else {
      Enrolment(p, Run(p, calls), c);
      hide Run, Do;
    }
  }

  lemma RunBefore(p: Policy, calls: seq<Call>)
    requires calls != [] && FreshRun(p, calls) && Timed(calls)
    ensures var before, c := calls[..|calls| - 1], calls[|calls| - 1];
            calls == before + [c] && FreshRun(p, before) && Timed(before) && DrawsFresh(Run(p, before), c)
  {
    var before := calls[..|calls| - 1];
    assert forall k :: 0 <= k < |before| ==> before[..k] == calls[..k] && before[k] == calls[k];
    hide Run, DrawsFresh;
  }

  lemma {:induction false} EveryRunTold(p: Policy, calls: seq<Call>)
    requires FreshRun(p, calls) && Timed(calls)
    ensures AllTold(p, calls)
  {
    if calls == [] {
      NobodyEnrolled(p);
    } else {
      hide Run, FreshRun, DrawsFresh, Timed, AllTold;
      var before, c := calls[..|calls| - 1], calls[|calls| - 1];
      RunBefore(p, calls);
      EveryRunTold(p, before);
      AllToldOn(p, before, c);
    }
  }

  lemma NobodyEnrolled(p: Policy)
    ensures AllTold(p, [])
  {
  }

  lemma AllToldOn(p: Policy, calls: seq<Call>, c: Call)
    requires AllTold(p, calls) && Timed(calls + [c]) && DrawsFresh(Run(p, calls), c)
    ensures AllTold(p, calls + [c])
  {
    hide Run, Tells, Enrols, DrawsFresh, Timed;
    forall id | id in Run(p, calls + [c]).agents ensures exists j :: Tells(p, calls + [c], j, id, Run(p, calls + [c]).agents[id]) {
      if id in Run(p, calls).agents { OldAgentTold(p, calls, c, id); } else { NewAgents(p, calls, c, id); }
    }
    forall j, id | Enrols(p, calls + [c], j, id) ensures id in Run(p, calls + [c]).agents { EnrolledAreKnown(p, calls, c, j, id); }
  }

  // ---------- what a caller is told ----------

  lemma EnrolsItsId(p: Policy, calls: seq<Call>, j: nat, id: string)
    requires FreshRun(p, calls) && Enrols(p, calls, j, id)
    ensures id == calls[j].op.newID
    ensures AnswerOf(p, calls, j) == Issued(id, Some(calls[j].op.newToken), calls[j].now + p.registrationTTL)
  {
    assert DrawsFresh(Run(p, calls[..j]), calls[j]);
    Enrolment(p, Run(p, calls[..j]), calls[j]);
    hide Run, Do;
  }

  lemma Before(p: Policy, calls: seq<Call>, k: nat)
    requires FreshRun(p, calls) && Timed(calls) && k <= |calls|
    ensures FreshRun(p, calls[..k]) && Timed(calls[..k]) && AllTold(p, calls[..k])
    ensures forall j: nat :: j < k ==> calls[..k][..j] == calls[..j]
  {
    assert forall j: nat :: j < k ==> calls[..k][..j] == calls[..j] && calls[..k][j] == calls[j];
    hide Run, DrawsFresh, AllTold;
    EveryRunTold(p, calls[..k]);
  }

  lemma BeforeSame(p: Policy, calls: seq<Call>, k: nat, j: nat, id: string)
    requires k <= |calls|
    ensures Enrols(p, calls[..k], j, id) <==> j < k && Enrols(p, calls, j, id)
    ensures Beats(p, calls[..k], j, id) <==> j < k && Beats(p, calls, j, id)
    ensures Parts(p, calls[..k], j, id) <==> j < k && Parts(p, calls, j, id)
    ensures Revokes(calls[..k], j, id) <==> j < k && Revokes(calls, j, id)
  {
    if j < k { assert calls[..k][..j] == calls[..j] && calls[..k][j] == calls[j]; }
  }

  /** An id is enrolled once. */
  lemma EnrolledOnce(p: Policy, calls: seq<Call>, i: nat, j: nat, id: string)
    requires FreshRun(p, calls) && Timed(calls) && Enrols(p, calls, i, id) && Enrols(p, calls, j, id)
    ensures i == j
  {
    if i < j { NotTwice(p, calls, i, j, id); }
    if j < i { NotTwice(p, calls, j, i, id); }
  }

  lemma NotTwice(p: Policy, calls: seq<Call>, i: nat, j: nat, id: string)
    requires FreshRun(p, calls) && Timed(calls) && i < j && Enrols(p, calls, i, id)
    ensures !Enrols(p, calls, j, id)
  {
    if j < |calls| {
      Before(p, calls, j);
      BeforeSame(p, calls, j, i, id);
      assert DrawsFresh(Run(p, calls[..j]), calls[j]);
      hide Run, Timed, FreshRun;
      if Enrols(p, calls, j, id) { Enrolment(p, Run(p, calls[..j]), calls[j]); }
    }
  }

  /** The enrolment that an id has, if any, before call k. */
  lemma KnownBefore(p: Policy, calls: seq<Call>, k: nat, id: string)
    requires FreshRun(p, calls) && Timed(calls) && k < |calls|
    ensures id in Run(p, calls[..k]).agents <==> exists j: nat :: j < k && Enrols(p, calls, j, id)
    ensures forall j: nat :: j < k && Enrols(p, calls, j, id) ==>
              id in Run(p, calls[..k]).agents && Tells(p, calls[..k], j, id, Run(p, calls[..k]).agents[id])
    ensures Latest(calls[..k], calls[k].now)
  {
    Before(p, calls, k);
    hide Run, Enrols, FreshRun;
    forall j: nat | Enrols(p, calls[..k], j, id) ensures j < k && Enrols(p, calls, j, id) { BeforeSame(p, calls, k, j, id); }
    forall j: nat | j < k && Enrols(p, calls, j, id)
      ensures id in Run(p, calls[..k]).agents && Tells(p, calls[..k], j, id, Run(p, calls[..k]).agents[id])
    {
      BeforeSame(p, calls, k, j, id);
      var i :| Tells(p, calls[..k], i, id, Run(p, calls[..k]).agents[id]);
      EnrolledOnce(p, calls[..k], i, j, id);
    }
  }

  /** Enrolment j of an id with a token still counts when call k is made: it was answered with them, the id has not been
      revoked since, and its time is not over. */
  ghost predicate Valid(p: Policy, calls: seq<Call>, j: nat, k: nat, id: string, token: string)
    requires k < |calls|
  {
    && j < k && calls[j].Call? && calls[j].op.Register?
    && AnswerOf(p, calls, j) == Issued(id, Some(token), calls[j].now + p.registrationTTL)
    && (forall i :: j < i < k ==> !Revokes(calls, i, id))
    && calls[k].now < calls[j].now + p.registrationTTL
  }

  lemma ValidIsStanding(p: Policy, calls: seq<Call>, j: nat, k: nat, id: string)
    requires FreshRun(p, calls) && k < |calls| && j < k && Enrols(p, calls, j, id)
    ensures Stands(p, calls[..k], j, id, calls[k].now) <==> Valid(p, calls, j, k, id, calls[j].op.newToken)
  {
    EnrolsItsId(p, calls, j, id);
    BeforeSame(p, calls, k, j, id);
    hide Run, Enrols, Revokes, AnswerOf, FreshRun;
    forall i | j < i < k ensures Revokes(calls[..k], i, id) <==> Revokes(calls, i, id) { BeforeSame(p, calls, k, i, id); }
  }

  predicate Presents(op: Op, id: string, token: string) {
    op == Authenticate(id, token) || op == Heartbeat(id, token) || op == Disconnect(id, token)
  }

  lemma CredentialCheck(p: Policy, r: Registry, now: int, op: Op, id: string, token: string)
    requires Presents(op, id, token)
    ensures var a := Do(p, r, now, op).1;
            && (a.Metadata? || a == InvalidCredentials)
            && (a.Metadata? <==> id in r.agents && IsLive(SweepAgent(r.agents[id], now).state) && r.agents[id].token == token)
  {
    SweepFacts(r, now);
    if id in r.agents { SweptKeeps(r.agents[id], now); }
    hide SweepAgent, Clone;
  }

  /** In every run, an authentication, heartbeat or disconnect is accepted exactly when an earlier call was answered with that
      very id and token, the id has not been revoked since, and its registration has not run out. */
  lemma CredentialsIff(p: Policy, calls: seq<Call>, k: nat, id: string, token: string)
    requires FreshRun(p, calls) && Timed(calls) && k < |calls| && calls[k].Call? && Presents(calls[k].op, id, token)
    ensures AnswerOf(p, calls, k).Metadata? <==> exists j :: Valid(p, calls, j, k, id, token)
    ensures AnswerOf(p, calls, k).Metadata? || AnswerOf(p, calls, k) == InvalidCredentials
  {
    var r, now := Run(p, calls[..k]), calls[k].now;
    CredentialCheck(p, r, now, calls[k].op, id, token);
    KnownBefore(p, calls, k, id);
    hide Run, SweepAgent, FreshRun, Timed;
    if id in r.agents {
      var j: nat :| j < k && Enrols(p, calls, j, id);
      ValidIsStanding(p, calls, j, k, id);
      assert IsLive(SweepAgent(r.agents[id], now).state) <==> Stands(p, calls[..k], j, id, now);
    }
    forall i: nat | Valid(p, calls, i, k, id, token) ensures id in r.agents && i < k && Enrols(p, calls, i, id) {
      assert Enrols(p, calls, i, id);
    }
    forall i: nat | Valid(p, calls, i, k, id, token)
      ensures IsLive(SweepAgent(r.agents[id], now).state) && r.agents[id].token == token
    {
      ValidIsStanding(p, calls, i, k, id);
      EnrolsItsId(p, calls, i, id);
    }
  }

  /** What a lookup says: unknown is exactly who never enrolled; name and times are those of the enrolment; no secret is told;
      and the agent is ONLINE exactly from an accepted heartbeat on, until it disconnects, is revoked, or its lease or its
      registration runs out. */
  lemma LookupTells(p: Policy, calls: seq<Call>, k: nat, id: string)
    requires FreshRun(p, calls) && Timed(calls) && k < |calls| && calls[k].Call? && calls[k].op == Lookup(id)
    ensures AnswerOf(p, calls, k) == NotFound <==> forall j: nat :: j < k ==> !Enrols(p, calls, j, id)
    ensures forall j: nat :: j < k && Enrols(p, calls, j, id) ==>
              var a := AnswerOf(p, calls, k);
              && a.Metadata? && a.agent.token == "" && a.agent.registration == ""
              && a.agent.displayName == calls[j].op.displayName && a.agent.createdAt == calls[j].now
              && a.agent.expiresAt == calls[j].now + p.registrationTTL
              && (a.agent.state.Online? <==>
                    Valid(p, calls, j, k, id, calls[j].op.newToken) && exists h: nat :: j < h && Leased(p, calls, h, k, id))
  {
    var r, now := Run(p, calls[..k]), calls[k].now;
    LookupCheck(p, r, now, id);
    KnownBefore(p, calls, k, id);
    hide Run, SweepAgent, FreshRun, Timed;
    forall j: nat | j < k && Enrols(p, calls, j, id)
      ensures SweepAgent(r.agents[id], now).state.Online? <==>
              Valid(p, calls, j, k, id, calls[j].op.newToken) && exists h: nat :: j < h && Leased(p, calls, h, k, id)
    {
      ValidIsStanding(p, calls, j, k, id);
      forall h ensures Leases(p, calls[..k], h, id, now) <==> Leased(p, calls, h, k, id) { LeasedIsLease(p, calls, h, k, id); }
    }
    forall j: nat | j < k && Enrols(p, calls, j, id) ensures id in r.agents { }
    if id in r.agents { SweptKeeps(r.agents[id], now); }
  }

  /** Heartbeat h still counts when call k is made. */
  ghost predicate Leased(p: Policy, calls: seq<Call>, h: nat, k: nat, id: string)
    requires k < |calls|
  {
    h < k && Beats(p, calls, h, id) && (forall i :: h < i < k ==> !Parts(p, calls, i, id)) && calls[k].now < calls[h].now + p.peerLease
  }

  lemma LeasedIsLease(p: Policy, calls: seq<Call>, h: nat, k: nat, id: string)
    requires k < |calls|
    ensures Leases(p, calls[..k], h, id, calls[k].now) <==> Leased(p, calls, h, k, id)
  {
    BeforeSame(p, calls, k, h, id);
    hide Beats, Parts;
    forall i | h < i < k ensures Parts(p, calls[..k], i, id) <==> Parts(p, calls, i, id) { BeforeSame(p, calls, k, i, id); }
  }

  lemma LookupCheck(p: Policy, r: Registry, now: int, id: string)
    ensures var a := Do(p, r, now, Lookup(id)).1;
            if id in r.agents then a == Metadata(SweepAgent(r.agents[id], now).(registration := "", token := "")) else a == NotFound
  {
    SweepFacts(r, now);
    hide SweepAgent;
  }

  // ---------- who is let in ----------

  /** The enrolments that count when call k is made. */
  ghost function Current(p: Policy, calls: seq<Call>, k: nat): set<nat>
    requires k < |calls|
  {
    set j: nat | j < k && Counts(p, calls, j, k)
  }

  ghost predicate Counts(p: Policy, calls: seq<Call>, j: nat, k: nat)
    requires k < |calls|
  {
    j < k && calls[j].Call? && calls[j].op.Register? &&
    Valid(p, calls, j, k, calls[j].op.newID, calls[j].op.newToken)
  }

  lemma CountsIsLive(p: Policy, calls: seq<Call>, k: nat, j: nat)
    requires FreshRun(p, calls) && Timed(calls) && k < |calls| && Counts(p, calls, j, k)
    ensures var s, id := Sweep(Run(p, calls[..k]), calls[k].now), calls[j].op.newID;
            Enrols(p, calls, j, id) && id in Live(s) && s.agents[id].registration == calls[j].op.key &&
            s.agents[id].expiresAt == calls[j].now + p.registrationTTL
  {
    var id, r, now := calls[j].op.newID, Run(p, calls[..k]), calls[k].now;
    assert Enrols(p, calls, j, id);
    KnownBefore(p, calls, k, id);
    ValidIsStanding(p, calls, j, k, id);
    SweepFacts(r, now);
    hide Run, SweepAgent, FreshRun, Timed, AnswerOf;
    SweptKeeps(r.agents[id], now);
  }

  lemma LiveCounts(p: Policy, calls: seq<Call>, k: nat, id: string) returns (j: nat)
    requires FreshRun(p, calls) && Timed(calls) && k < |calls| && id in Live(Sweep(Run(p, calls[..k]), calls[k].now))
    ensures Counts(p, calls, j, k) && calls[j].op.newID == id
  {
    var r, now := Run(p, calls[..k]), calls[k].now;
    SweepFacts(r, now);
    KnownBefore(p, calls, k, id);
    hide Run, SweepAgent, FreshRun, Timed, AnswerOf;
    j :| j < k && Enrols(p, calls, j, id);
    EnrolsItsId(p, calls, j, id);
    ValidIsStanding(p, calls, j, k, id);
    assert IsLive(SweepAgent(r.agents[id], now).state);
  }

  lemma {:induction false} AsMany(p: Policy, calls: seq<Call>, js: set<nat>, ids: set<string>)
    requires forall j :: j in js ==> j < |calls| && calls[j].Call? && calls[j].op.Register? && calls[j].op.newID in ids
    requires forall i, j :: i in js && j in js && calls[i].op.newID == calls[j].op.newID ==> i == j
    requires forall id :: id in ids ==> exists j :: j in js && calls[j].op.newID == id
    ensures |js| == |ids|
  {
    if js == {} {
      assert ids == {};
    } else {
      var j :| j in js;
      forall id | id in ids - {calls[j].op.newID} ensures exists i :: i in js - {j} && calls[i].op.newID == id {
        var i :| i in js && calls[i].op.newID == id;
        assert i in js - {j};
      }
      AsMany(p, calls, js - {j}, ids - {calls[j].op.newID});
    }
  }

  /** The live agents are as many as the enrolments that count. */
  lemma LiveSize(p: Policy, calls: seq<Call>, k: nat)
    requires FreshRun(p, calls) && Timed(calls) && k < |calls|
    ensures |Live(Sweep(Run(p, calls[..k]), calls[k].now))| == |Current(p, calls, k)|
  {
    var s, js := Sweep(Run(p, calls[..k]), calls[k].now), Current(p, calls, k);
    hide Run, Sweep, Live, FreshRun, Timed, Valid, Enrols;
    forall j | j in js ensures calls[j].op.newID in Live(s) && Enrols(p, calls, j, calls[j].op.newID) { CountsIsLive(p, calls, k, j); }
    forall i, j | i in js && j in js && calls[i].op.newID == calls[j].op.newID ensures i == j {
      EnrolledOnce(p, calls, i, j, calls[i].op.newID);
    }
    forall id | id in Live(s) ensures exists j :: j in js && calls[j].op.newID == id {
      var j := LiveCounts(p, calls, k, id);
      assert j in js;
    }
    AsMany(p, calls, js, Live(s));
  }

  /** Each registration key leads to an agent that was registered under it. */
  ghost predicate KeysLead(r: Registry) {
    forall key :: key in r.byRegistration && r.byRegistration[key] in r.agents ==> r.agents[r.byRegistration[key]].registration == key
  }

  lemma KeysLeadStep(p: Policy, r: Registry, c: Call)
    requires KeysLead(r) && DrawsFresh(r, c) && forall key :: key in r.byRegistration ==> r.byRegistration[key] in r.agents
    ensures KeysLead(After(p, r, c))
    ensures forall key :: key in After(p, r, c).byRegistration ==> After(p, r, c).byRegistration[key] in After(p, r, c).agents
  {
    hide Clone, SweepAgent;
    SweepFacts(r, c.now);
    SweptRegistrations(r, c.now);
    hide Sweep, Live;
  }

  lemma SweptRegistrations(r: Registry, now: int)
    ensures forall id :: id in r.agents ==> Sweep(r, now).agents[id].registration == r.agents[id].registration
  {
    forall id | id in r.agents ensures Sweep(r, now).agents[id].registration == r.agents[id].registration {
      SweptKeeps(r.agents[id], now);
    }
  }

  lemma {:induction false} KeysLeadInEveryRun(p: Policy, calls: seq<Call>)
    requires FreshRun(p, calls)
    ensures KeysLead(Run(p, calls))
    ensures forall key :: key in Run(p, calls).byRegistration ==> Run(p, calls).byRegistration[key] in Run(p, calls).agents
  {
    if calls != [] {
      hide After;
      var before, c := calls[..|calls| - 1], calls[|calls| - 1];
      assert forall k :: 0 <= k < |before| ==> before[..k] == calls[..k] && before[k] == calls[k];
      KeysLeadInEveryRun(p, before);
      assert DrawsFresh(Run(p, before), c);
      KeysLeadStep(p, Run(p, before), c);
    }
  }

  /** What a registration is answered: it is refused when registration is off, the declaration is not valid, or an open hub is
      not given its bootstrap token; the holder of an enrolment that counts under the same key is told its id; and any other
      gets a token exactly while fewer enrolments count than the policy admits. */
  lemma RegistrationIff(p: Policy, calls: seq<Call>, k: nat)
    requires p.maxRegisteredAgents > 0 && FreshRun(p, calls) && Timed(calls) && k < |calls| && calls[k].Call? && calls[k].op.Register?
    ensures var op, a := calls[k].op, AnswerOf(p, calls, k);
            if p.mode == Closed || !p.registrationEnabled then a == RegistrationDisabled
            else if !op.declarationOk then a == InvalidDeclaration
            else if p.mode == Open && op.bootstrap != p.bootstrapToken then a == InvalidBootstrap
            else if exists j: nat :: CountsUnder(p, calls, j, k, op.key) then
              exists j: nat :: CountsUnder(p, calls, j, k, op.key) &&
                a == Issued(calls[j].op.newID, None, calls[j].now + p.registrationTTL)
            else if |Current(p, calls, k)| < p.maxRegisteredAgents then
              a == Issued(op.newID, Some(op.newToken), calls[k].now + p.registrationTTL)
            else a == LimitReached
  {
    var r, now, op := Run(p, calls[..k]), calls[k].now, calls[k].op;
    var s := Sweep(r, now);
    LiveSize(p, calls, k);
    UnderKey(p, calls, k);
    EnrolAnswer(p, s, now, op);
    hide Run, Sweep, Live, FreshRun, Timed, Current, Enrol, CountsUnder;
  }

  /** The answer of the enrolment proper, on a swept table. */
  lemma EnrolAnswer(p: Policy, s: Registry, now: int, op: Op)
    requires op.Register?
    ensures Enrol(p, s, now, op).1 ==
            if op.key in s.byRegistration && s.byRegistration[op.key] in Live(s) then
              Issued(s.byRegistration[op.key], None, s.agents[s.byRegistration[op.key]].expiresAt)
            else if |Live(s)| < p.maxRegisteredAgents then Issued(op.newID, Some(op.newToken), now + p.registrationTTL)
            else LimitReached
  {
  }

  /** Enrolment j counts when call k is made, and was made under this key. */
  ghost predicate CountsUnder(p: Policy, calls: seq<Call>, j: nat, k: nat, key: string)
    requires k < |calls|
  {
    Counts(p, calls, j, k) && calls[j].op.key == key
  }

  /** The key's entry leads to a live agent exactly when some enrolment under the key counts, and then it is that one. */
  lemma UnderKey(p: Policy, calls: seq<Call>, k: nat)
    requires p.maxRegisteredAgents > 0 && FreshRun(p, calls) && Timed(calls) && k < |calls| && calls[k].Call? && calls[k].op.Register?
    ensures var s, key := Sweep(Run(p, calls[..k]), calls[k].now), calls[k].op.key;
            && (key in s.byRegistration && s.byRegistration[key] in Live(s) ==>
                  exists j: nat :: CountsUnder(p, calls, j, k, key) && calls[j].op.newID == s.byRegistration[key] &&
                    s.agents[s.byRegistration[key]].expiresAt == calls[j].now + p.registrationTTL)
            && forall j: nat :: CountsUnder(p, calls, j, k, key) ==>
                  key in s.byRegistration && s.byRegistration[key] == calls[j].op.newID && calls[j].op.newID in Live(s)
  {
    var r, now, key := Run(p, calls[..k]), calls[k].now, calls[k].op.key;
    var s := Sweep(r, now);
    Before(p, calls, k);
    CapHoldsInEveryRun(p, calls[..k]);
    KeysLeadInEveryRun(p, calls[..k]);
    SweepInv(p, r, now);
    SweepFacts(r, now);
    SweptRegistrations(r, now);
    hide Run, Sweep, FreshRun, Timed, Valid;
    forall j: nat | Counts(p, calls, j, k)
      ensures calls[j].op.newID in Live(s) && s.agents[calls[j].op.newID].registration == calls[j].op.key
      ensures s.agents[calls[j].op.newID].expiresAt == calls[j].now + p.registrationTTL
    {
      CountsIsLive(p, calls, k, j);
    }
    if key in s.byRegistration && s.byRegistration[key] in Live(s) {
      var j := LiveCounts(p, calls, k, s.byRegistration[key]);
      assert CountsUnder(p, calls, j, k, key);
    }
    hide Counts, Live;
  }

  // ---------- the answers as a list ----------

  lemma FirstAnswer(p: Policy, before: seq<Call>, calls: seq<Call>)
    requires calls != [] && calls[0].Call?
    ensures Answers(p, Run(p, before), calls) ==
              [AnswerOf(p, before + calls, |before|)] + Answers(p, Run(p, before + [calls[0]]), calls[1..])
  {
    LastCall(p, before, calls[0]);
    assert (before + calls)[..|before|] == before && (before + calls)[|before|] == calls[0];
    hide Do;
  }

  lemma {:induction false} AnswersFrom(p: Policy, before: seq<Call>, calls: seq<Call>)
    requires forall k :: 0 <= k < |calls| ==> calls[k].Call?
    ensures |Answers(p, Run(p, before), calls)| == |calls|
    ensures forall k :: 0 <= k < |calls| ==> Answers(p, Run(p, before), calls)[k] == AnswerOf(p, before + calls, |before| + k)
    decreases |calls|
  {
    if calls != [] {
      hide Run, AnswerOf;
      FirstAnswer(p, before, calls);
      AnswersFrom(p, before + [calls[0]], calls[1..]);
      assert before + [calls[0]] + calls[1..] == before + calls;
      hide Answers;
    }
  }

  /** So the answers of a run from an empty hub, as a list, are these. */
  lemma AnswersAre(p: Policy, calls: seq<Call>)
    requires forall k :: 0 <= k < |calls| ==> calls[k].Call?
    ensures |Answers(p, EMPTY, calls)| == |calls|
    ensures forall k :: 0 <= k < |calls| ==> Answers(p, EMPTY, calls)[k] == AnswerOf(p, calls, k)
  {
    AnswersFrom(p, [], calls);
    assert [] + calls == calls;
    assert Run(p, []) == EMPTY;
  }
}
