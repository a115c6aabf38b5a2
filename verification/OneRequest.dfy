/** One request through the whole pipeline, as one function, and its place in the state machine. */
module OneRequest {
  import opened Wrappers
  import opened SlidingWindow
  import opened RateLimit
  import opened Pipeline
  import G = Guards

  /** What the outside world does with the commands of one pass. */
  datatype PassInputs = PassInputs(now: nat, at: Scope -> real, uuid: Scope -> nat, fate: Scope -> Fate)

  /** Everything the pipeline asks: sessions, memberships, the other guards' verdicts. */
  datatype World = World(
    sessions: string -> G.SessionResolution,
    resolve: (string, string) -> G.Tenancy,
    gate: (Stage, G.Written) -> Option<G.Refusal>,
    edge: PassInputs,
    tenant: PassInputs)

  datatype Served = Served(keys: Keys, refusal: Option<G.Refusal>, headers: Option<WindowDecision>)

  function PassCall(t: ClassTable, d: Derivation, route: Route, incoming: Incoming, w: G.Written, p: PassInputs): Call
    requires route.className in t
  {
    Call(route.className, t[route.className],
         Keyable(incoming.ip, incoming.remoteAddress, None, w.organizationId, incoming.body), d,
         p.now, p.at, p.uuid, p.fate)
  }

  /** What a finished pass answers, over a response so far. */
  function Passed(m: FailMode, ps: PassState, s: Served): Served {
    var r := Finish(m, ps);
    Served(ps.keys,
           if r.verdict.Pass? then None
           else Some(G.Refusal(G.RateLimited, 429, G.RetryAfter(r.verdict.retryAfterSeconds))),
           if r.headers.Some? then r.headers else s.headers)
  }

  /** One pass of the limiter over a response so far. */
  function Limit(t: ClassTable, d: Derivation, route: Route, incoming: Incoming, w: G.Written,
                 phase: Phase, p: PassInputs, s: Served): Served
    requires route.className in t
  {
    if route.exempt then s
    else Passed(t[route.className].failMode, PassOf(PassCall(t, d, route, incoming, w, p), phase, s.keys), s)
  }

  function SessionOf(world: World, incoming: Incoming): G.SessionResolution {
    world.sessions(if incoming.token.Some? then incoming.token.value else "")
  }

  function TenancyOf(world: World, w: G.Written): G.Tenancy {
    if w.principal.Some? && w.activeOrganizationId.Some? then
      world.resolve(w.principal.value.userId, w.activeOrganizationId.value)
    else G.Tenancy(None, false)
  }

  function InputsAt(world: World, stage: Stage): PassInputs {
    if stage.TenantLimit? then world.tenant else world.edge
  }

  predicate IsLimiter(stage: Stage) { stage.EdgeLimit? || stage.TenantLimit? }

  function GuardAt(world: World, stage: Stage, route: Route, incoming: Incoming, w: G.Written): G.Guarded {
    match stage
    case Authenticate =>
      G.Authenticate(route.access, route.allowsPendingMfa, incoming.token, w, SessionOf(world, incoming))
    case TenantResolve => G.ResolveContext(route.access, w, TenancyOf(world, w))
    case Authorize => G.Authorize(route.access, w)
    case _ => G.Guarded(w, world.gate(stage, w))
  }

  /** The guards from a stage on; no refusal means that the handler runs. */
  function ServeFrom(world: World, t: ClassTable, d: Derivation, route: Route, incoming: Incoming,
                     stage: Stage, w: G.Written, s: Served): Served
    requires route.className in t
    decreases Rank(Done) - Rank(stage)
  {
    if stage.Handler? || stage.Done? then s
    else if IsLimiter(stage) then
      var l := Limit(t, d, route, incoming, w, PhaseAt(stage), InputsAt(world, stage), s);
      if l.refusal.Some? then l else ServeFrom(world, t, d, route, incoming, NextStage(stage), w, l)
    else
      var g := GuardAt(world, stage, route, incoming, w);
      if g.refusal.Some? then s.(refusal := g.refusal)
      else ServeFrom(world, t, d, route, incoming, NextStage(stage), g.written, s)
  }

  /** All guards in order. */
  function Serve(world: World, t: ClassTable, d: Derivation, route: Route, incoming: Incoming, keys: Keys): Served
    requires route.className in t
  {
    ServeFrom(world, t, d, route, incoming, EdgeLimit, G.NOTHING_WRITTEN, Served(keys, None, None))
  }

  /** A limiter that does not let a request pass answers 429, with the retry time of its pass; an
      exempt route it leaves alone. */
  lemma LimiterAnswers(t: ClassTable, d: Derivation, route: Route, incoming: Incoming, w: G.Written, phase: Phase,
                       p: PassInputs, s: Served)
    requires route.className in t && s.refusal == None
    ensures var l := Limit(t, d, route, incoming, w, phase, p, s);
      var ps := PassOf(PassCall(t, d, route, incoming, w, p), phase, s.keys);
      var r := Finish(t[route.className].failMode, ps);
      if route.exempt then l == s
      else
        && l.keys == ps.keys
        && l.headers == (if r.headers.Some? then r.headers else s.headers)
        && (l.refusal == None <==> r.verdict == Pass)
        && (forall retry :: l.refusal == Some(G.Refusal(G.RateLimited, 429, G.RetryAfter(retry)))
             <==> r.verdict == Limited(retry))
  {
  }

  /** A pass keys on what the request carries: the address and the body that arrived, the
      organisation that the guards wrote, no principal; its windows are those of the route's class. */
  lemma PassKeysOnRequest(t: ClassTable, d: Derivation, route: Route, incoming: Incoming, w: G.Written, p: PassInputs)
    requires route.className in t
    ensures var c := PassCall(t, d, route, incoming, w, p);
      && c.request.ip == incoming.ip && c.request.remoteAddress == incoming.remoteAddress
      && c.request.body == incoming.body && c.request.principalId == None
      && c.request.organizationId == w.organizationId
      && c.className == route.className && c.config == t[route.className]
  {
  }

  // ----- every guard, in order ------------------------------------------------------------

  function FirstRefusal(refusals: seq<Option<G.Refusal>>): Option<G.Refusal> {
    if refusals == [] then None else if refusals[0].Some? then refusals[0] else FirstRefusal(refusals[1..])
  }

  lemma ConsRefusal(first: Option<G.Refusal>, rest: seq<Option<G.Refusal>>)
    ensures FirstRefusal([first] + rest) == if first.Some? then first else FirstRefusal(rest)
  {
    assert ([first] + rest)[1..] == rest;
  }

  /** What the guards after tenant resolution say of a request. */
  function LateRefusals(world: World, route: Route, w: G.Written, late: Served): seq<Option<G.Refusal>> {
    [world.gate(Csrf, w)] + ([world.gate(CrossSite, w)] + ([world.gate(EmailVerified, w)]
    + ([world.gate(MfaEnrolment, w)] + ([G.Authorize(route.access, w).refusal] + ([late.refusal]
    + [world.gate(Entitlement, w)])))))
  }

  lemma GateAnswers(world: World, t: ClassTable, d: Derivation, route: Route, incoming: Incoming, stage: Stage,
                    w: G.Written, s: Served)
    requires route.className in t
    requires stage in {Csrf, CrossSite, EmailVerified, MfaEnrolment, Entitlement}
    ensures ServeFrom(world, t, d, route, incoming, stage, w, s) ==
      if world.gate(stage, w).Some? then s.(refusal := world.gate(stage, w))
      else ServeFrom(world, t, d, route, incoming, NextStage(stage), w, s)
  {
  }

  lemma EntitlementAnswers(world: World, t: ClassTable, d: Derivation, route: Route, incoming: Incoming, w: G.Written,
                           s: Served)
    requires route.className in t
    ensures ServeFrom(world, t, d, route, incoming, Entitlement, w, s).refusal
      == if world.gate(Entitlement, w).Some? then world.gate(Entitlement, w) else s.refusal
  {
    GateAnswers(world, t, d, route, incoming, Entitlement, w, s);
  }

  lemma TenantLimitAnswers(world: World, t: ClassTable, d: Derivation, route: Route, incoming: Incoming, w: G.Written,
                           s: Served)
    requires route.className in t
    ensures var late := Limit(t, d, route, incoming, w, Tenant, world.tenant, s);
      ServeFrom(world, t, d, route, incoming, TenantLimit, w, s)
        == if late.refusal.Some? then late else ServeFrom(world, t, d, route, incoming, Entitlement, w, late)
  {
  }

  lemma AuthorizationAnswers(world: World, t: ClassTable, d: Derivation, route: Route, incoming: Incoming, w: G.Written,
                             s: Served)
    requires route.className in t
    ensures var a := G.Authorize(route.access, w);
      ServeFrom(world, t, d, route, incoming, Authorize, w, s)
        == if a.refusal.Some? then s.(refusal := a.refusal)
           else ServeFrom(world, t, d, route, incoming, TenantLimit, w, s)
  {
  }

  lemma LastGuards(world: World, t: ClassTable, d: Derivation, route: Route, incoming: Incoming, w: G.Written,
                   s: Served, late: Served)
    requires route.className in t && late == Limit(t, d, route, incoming, w, Tenant, world.tenant, s)
    ensures ServeFrom(world, t, d, route, incoming, Authorize, w, s).refusal ==
      if G.Authorize(route.access, w).refusal.Some? then G.Authorize(route.access, w).refusal
      else if late.refusal.Some? then late.refusal
      else world.gate(Entitlement, w)
  {
    AuthorizationAnswers(world, t, d, route, incoming, w, s);
    TenantLimitAnswers(world, t, d, route, incoming, w, s);
    EntitlementAnswers(world, t, d, route, incoming, w, late);
  }

  lemma LateRefusalsMean(world: World, route: Route, w: G.Written, late: Served)
    ensures FirstRefusal(LateRefusals(world, route, w, late)) ==
      if world.gate(Csrf, w).Some? then world.gate(Csrf, w)
      else if world.gate(CrossSite, w).Some? then world.gate(CrossSite, w)
      else if world.gate(EmailVerified, w).Some? then world.gate(EmailVerified, w)
      else if world.gate(MfaEnrolment, w).Some? then world.gate(MfaEnrolment, w)
      else if G.Authorize(route.access, w).refusal.Some? then G.Authorize(route.access, w).refusal
      else if late.refusal.Some? then late.refusal
      else world.gate(Entitlement, w)
  {
    var last := [world.gate(Entitlement, w)];
    ConsRefusal(late.refusal, last);
    ConsRefusal(G.Authorize(route.access, w).refusal, [late.refusal] + last);
    var four := [G.Authorize(route.access, w).refusal] + ([late.refusal] + last);
    ConsRefusal(world.gate(MfaEnrolment, w), four);
    ConsRefusal(world.gate(EmailVerified, w), [world.gate(MfaEnrolment, w)] + four);
    var six := [world.gate(EmailVerified, w)] + ([world.gate(MfaEnrolment, w)] + four);
    ConsRefusal(world.gate(CrossSite, w), six);
    ConsRefusal(world.gate(Csrf, w), [world.gate(CrossSite, w)] + six);
    assert last[1..] == [];
  }

  lemma LateGuards(world: World, t: ClassTable, d: Derivation, route: Route, incoming: Incoming, w: G.Written,
                   s: Served, late: Served)
    requires route.className in t && late == Limit(t, d, route, incoming, w, Tenant, world.tenant, s)
    ensures ServeFrom(world, t, d, route, incoming, Csrf, w, s).refusal
      == FirstRefusal(LateRefusals(world, route, w, late))
  {
    LateRefusalsMean(world, route, w, late);
    LastGuards(world, t, d, route, incoming, w, s, late);
    GateAnswers(world, t, d, route, incoming, MfaEnrolment, w, s);
    GateAnswers(world, t, d, route, incoming, EmailVerified, w, s);
    GateAnswers(world, t, d, route, incoming, CrossSite, w, s);
    GateAnswers(world, t, d, route, incoming, Csrf, w, s);
  }

  lemma FirstGuards(world: World, t: ClassTable, d: Derivation, route: Route, incoming: Incoming, keys: Keys,
                    edge: Served, auth: G.Guarded, tenant: G.Guarded)
    requires route.className in t
    requires edge == Limit(t, d, route, incoming, G.NOTHING_WRITTEN, Edge, world.edge, Served(keys, None, None))
    requires auth == GuardAt(world, Authenticate, route, incoming, G.NOTHING_WRITTEN)
    requires tenant == GuardAt(world, TenantResolve, route, incoming, auth.written)
    ensures Serve(world, t, d, route, incoming, keys).refusal ==
      if edge.refusal.Some? then edge.refusal
      else if auth.refusal.Some? then auth.refusal
      else if tenant.refusal.Some? then tenant.refusal
      else ServeFrom(world, t, d, route, incoming, Csrf, tenant.written, edge).refusal
  {
    assert Serve(world, t, d, route, incoming, keys)
      == if edge.refusal.Some? then edge
         else ServeFrom(world, t, d, route, incoming, Authenticate, G.NOTHING_WRITTEN, edge);
  }

  /** EVERY GUARD IS ASKED, IN THIS ORDER. A request is refused with the first refusal among the
      edge limiter, authentication, tenant resolution, the CSRF, cross-site, verified-email and
      MFA-enrolment gates, authorization, the tenant limiter and the entitlement gate; its
      handler runs exactly when none of them refuses. */
  lemma EveryGuardIsAsked(world: World, t: ClassTable, d: Derivation, route: Route, incoming: Incoming, keys: Keys)
    requires route.className in t
    ensures var edge := Limit(t, d, route, incoming, G.NOTHING_WRITTEN, Edge, world.edge, Served(keys, None, None));
      var auth := G.Authenticate(route.access, route.allowsPendingMfa, incoming.token, G.NOTHING_WRITTEN,
        SessionOf(world, incoming));
      var tenant := G.ResolveContext(route.access, auth.written, TenancyOf(world, auth.written));
      var late := Limit(t, d, route, incoming, tenant.written, Tenant, world.tenant, edge);
      Serve(world, t, d, route, incoming, keys).refusal ==
        FirstRefusal([edge.refusal] + ([auth.refusal] + ([tenant.refusal]
          + LateRefusals(world, route, tenant.written, late))))
  {
    var edge := Limit(t, d, route, incoming, G.NOTHING_WRITTEN, Edge, world.edge, Served(keys, None, None));
    var auth := GuardAt(world, Authenticate, route, incoming, G.NOTHING_WRITTEN);
    var tenant := GuardAt(world, TenantResolve, route, incoming, auth.written);
    var late := Limit(t, d, route, incoming, tenant.written, Tenant, world.tenant, edge);
    FirstGuards(world, t, d, route, incoming, keys, edge, auth, tenant);
    LateGuards(world, t, d, route, incoming, tenant.written, edge, late);
    InOrder(edge.refusal, auth.refusal, tenant.refusal, LateRefusals(world, route, tenant.written, late));
  }

  lemma InOrder(a: Option<G.Refusal>, b: Option<G.Refusal>, c: Option<G.Refusal>, rest: seq<Option<G.Refusal>>)
    ensures FirstRefusal([a] + ([b] + ([c] + rest))) ==
      if a.Some? then a else if b.Some? then b else if c.Some? then c else FirstRefusal(rest)
  {
    ConsRefusal(c, rest);
    ConsRefusal(b, [c] + rest);
    ConsRefusal(a, [b] + ([c] + rest));
  }

  // ----- alone in the state machine -----------------------------------------------------

  /** The input of a step is what the world says to the request as it stands. */
  ghost predicate Answers(world: World, r: RequestState, x: Input) {
    var p := InputsAt(world, r.stage);
    && x.session == SessionOf(world, r.incoming) && x.tenancy == TenancyOf(world, r.written)
    && x.gate == world.gate(r.stage, r.written)
    && (r.pass.None? ==> x.now == p.now)
    && (r.pass.Some? && r.pass.value.todo != [] ==>
          var scope := r.pass.value.todo[0];
          x.time == p.at(scope) && x.uuid == p.uuid(scope) && x.fate == p.fate(scope))
  }

  predicate Underway(t: ClassTable, r: RequestState) {
    && r.route.className in t
    && (!r.stage.Done? ==> r.refusal.None? && r.startedAt.None?)
    && (r.stage.Done? ==> (r.startedAt.Some? <==> r.refusal.None?))
    && (r.pass.Some? ==> IsLimiter(r.stage) && !r.route.exempt)
  }

  /** The rest of a pass under way. */
  function RestOfPass(world: World, t: ClassTable, d: Derivation, r: RequestState, keys: Keys): Served
    requires r.route.className in t && r.pass.Some?
  {
    var p := r.pass.value;
    Passed(t[r.route.className].failMode,
           RunScopes(CallUnderway(world, t, d, r), PassStateOf(p, keys), p.todo), Served(keys, None, r.headers))
  }

  /** What the request will have been answered, and the windows it will have left. */
  function Finishing(world: World, t: ClassTable, d: Derivation, r: RequestState, keys: Keys): Served
    requires r.route.className in t
  {
    if r.stage.Done? then Served(keys, r.refusal, r.headers)
    else if r.pass.Some? then
      var l := RestOfPass(world, t, d, r, keys);
      if l.refusal.Some? then l else ServeFrom(world, t, d, r.route, r.incoming, NextStage(r.stage), r.written, l)
    else ServeFrom(world, t, d, r.route, r.incoming, r.stage, r.written, Served(keys, r.refusal, r.headers))
  }

  /** The parts of a pass that decide its outcome. */
  predicate SamePass(a: PassState, b: PassState) {
    a.keys == b.keys && a.decisions == b.decisions && a.declared == b.declared && a.failed == b.failed
  }

  lemma {:induction false} SamePassRuns(c: Call, a: PassState, b: PassState, scopes: seq<Scope>)
    requires SamePass(a, b)
    ensures SamePass(RunScopes(c, a, scopes), RunScopes(c, b, scopes))
    decreases |scopes|
  {
    if scopes != [] && !Stopped(a) {
      SameStep(c, c, a, b, scopes[0]);
      SamePassRuns(c, ScopeStep(c, a, scopes[0]), ScopeStep(c, b, scopes[0]), scopes[1..]);
    }
  }

  /** Calls that agree on a scope. */
  ghost predicate SameOn(c: Call, e: Call, s: Scope) {
    && e == c.(at := e.at, uuid := e.uuid, fate := e.fate)
    && c.at(s) == e.at(s) && c.uuid(s) == e.uuid(s) && c.fate(s) == e.fate(s)
  }

  lemma SameStep(c: Call, e: Call, a: PassState, b: PassState, s: Scope)
    requires SamePass(a, b) && SameOn(c, e, s)
    ensures SamePass(ScopeStep(c, a, s), ScopeStep(e, b, s))
    ensures ScopeStep(c, a, s).charged == a.charged ==> ScopeStep(c, a, s).keys == a.keys
  {
  }

  lemma LimiterTurns(t: ClassTable, d: Derivation, s: State, id: nat, x: Input)
    requires id in s.requests && s.requests[id].route.className in t
    ensures LimiterStep(t, d, s, id, x) ==
      if TurnsOnly(s.requests[id]) then s.(requests := s.requests[id := Turned(t, s.requests[id], x)])
      else if exists c | c in s.charges :: c.uuid == x.uuid then s
      else TakeScope(t, d, s, id, x)
  {
  }

  /** What a limiter turn without a command makes of a request. */
  function Turned(t: ClassTable, r: RequestState, x: Input): RequestState
    requires r.route.className in t
  {
    if r.route.exempt then r.(stage := NextStage(r.stage))
    else if r.pass.None? then r.(pass := Some(InPass(x.now, ScopesOf(PhaseAt(r.stage)), [], 0, false)))
    else EndPass(t[r.route.className].failMode, r, r.pass.value)
  }

  predicate TurnsOnly(r: RequestState) {
    r.route.exempt || r.pass.None? || PassOver(r.pass.value)
  }

  lemma TurningKeepsOutcome(world: World, t: ClassTable, d: Derivation, r: RequestState, x: Input, keys: Keys)
    requires Underway(t, r) && IsLimiter(r.stage) && TurnsOnly(r) && Answers(world, r, x)
    ensures Underway(t, Turned(t, r, x))
    ensures Finishing(world, t, d, Turned(t, r, x), keys) == Finishing(world, t, d, r, keys)
  {
    var p := InputsAt(world, r.stage);
    if r.route.exempt {
    } else if r.pass.None? {
      assert p.(now := x.now) == p;
    } else {
      EndingKeepsOutcome(world, t, d, r, keys);
    }
  }

  lemma EndingKeepsOutcome(world: World, t: ClassTable, d: Derivation, r: RequestState, keys: Keys)
    requires Underway(t, r) && IsLimiter(r.stage) && r.pass.Some? && PassOver(r.pass.value)
    ensures var r' := EndPass(t[r.route.className].failMode, r, r.pass.value);
      Underway(t, r') && Finishing(world, t, d, r', keys) == Finishing(world, t, d, r, keys)
  {
    var m := t[r.route.className].failMode;
    assert Finish(m, PassStateOf(r.pass.value, keys)) == Finish(m, PassStateOf(r.pass.value, map[]));
  }

  lemma SamePassSameAnswer(m: FailMode, a: PassState, b: PassState, s: Served)
    requires SamePass(a, b)
    ensures Passed(m, a, s) == Passed(m, b, s)
  {
  }

  /** The call of a pass under way, as the world answers it. */
  function CallUnderway(world: World, t: ClassTable, d: Derivation, r: RequestState): Call
    requires r.route.className in t && r.pass.Some?
  {
    PassCall(t, d, r.route, r.incoming, r.written, InputsAt(world, r.stage).(now := r.pass.value.now))
  }

  /** One command of a pass under way is the next turn of the whole pass. */
  lemma TakenTurn(world: World, t: ClassTable, d: Derivation, s: State, id: nat, x: Input)
    requires id in s.requests && Underway(t, s.requests[id]) && Answers(world, s.requests[id], x)
    requires s.requests[id].pass.Some? && !PassOver(s.requests[id].pass.value)
    ensures var r, s' := s.requests[id], TakeScope(t, d, s, id, x);
      && id in s'.requests && s'.requests[id].pass.Some?
      && var p, p' := r.pass.value, s'.requests[id].pass.value;
         && p'.todo == p.todo[1..] && p'.now == p.now
         && SamePass(PassStateOf(p', s'.keys),
                     ScopeStep(CallUnderway(world, t, d, r), PassStateOf(p, s.keys), p.todo[0]))
  {
    var r := s.requests[id];
    var p := r.pass.value;
    var ps := PassStateOf(p, s.keys);
    SameStep(CallOf(t, d, r, p.now, x), CallUnderway(world, t, d, r), ps, ps, p.todo[0]);
  }

  lemma TakingMoves(t: ClassTable, d: Derivation, s: State, id: nat, x: Input)
    requires id in s.requests && Underway(t, s.requests[id])
    requires s.requests[id].pass.Some? && !PassOver(s.requests[id].pass.value)
    ensures var r, s' := s.requests[id], TakeScope(t, d, s, id, x);
      && id in s'.requests
      && var r' := s'.requests[id];
         Underway(t, r') && r' == r.(pass := r'.pass, admission := r'.admission)
  {
  }

  lemma TakingKeepsOutcome(world: World, t: ClassTable, d: Derivation, s: State, id: nat, x: Input)
    requires id in s.requests && Underway(t, s.requests[id]) && Answers(world, s.requests[id], x)
    requires s.requests[id].pass.Some? && !PassOver(s.requests[id].pass.value)
    ensures var s' := TakeScope(t, d, s, id, x);
      && id in s'.requests && Underway(t, s'.requests[id])
      && Finishing(world, t, d, s'.requests[id], s'.keys) == Finishing(world, t, d, s.requests[id], s.keys)
  {
    TakenTurn(world, t, d, s, id, x);
    TakingMoves(t, d, s, id, x);
    var s' := TakeScope(t, d, s, id, x);
    RestIsTheSame(world, t, d, s.requests[id], s.keys, s'.requests[id], s'.keys);
  }

  lemma RestIsTheSame(world: World, t: ClassTable, d: Derivation, r: RequestState, keys: Keys,
                      r': RequestState, keys': Keys)
    requires Underway(t, r) && Underway(t, r') && r' == r.(pass := r'.pass, admission := r'.admission)
    requires r.pass.Some? && !PassOver(r.pass.value) && r'.pass.Some?
    requires var p, p' := r.pass.value, r'.pass.value;
      && p'.todo == p.todo[1..] && p'.now == p.now
      && SamePass(PassStateOf(p', keys'), ScopeStep(CallUnderway(world, t, d, r), PassStateOf(p, keys), p.todo[0]))
    ensures RestOfPass(world, t, d, r', keys') == RestOfPass(world, t, d, r, keys)
    ensures Finishing(world, t, d, r', keys') == Finishing(world, t, d, r, keys)
  {
    var p, p', call := r.pass.value, r'.pass.value, CallUnderway(world, t, d, r);
    var ps, next := PassStateOf(p, keys), ScopeStep(call, PassStateOf(p, keys), p.todo[0]);
    assert RunScopes(call, ps, p.todo) == RunScopes(call, next, p.todo[1..]);
    SamePassRuns(call, PassStateOf(p', keys'), next, p.todo[1..]);
    var m := t[r.route.className].failMode;
    SamePassSameAnswer(m, RunScopes(call, PassStateOf(p', keys'), p'.todo), RunScopes(call, ps, p.todo),
                       Served(keys, None, r.headers));
    assert RestOfPass(world, t, d, r', keys') == RestOfPass(world, t, d, r, keys);
  }

  lemma GuardKeepsOutcome(world: World, t: ClassTable, d: Derivation, r: RequestState, x: Input, keys: Keys)
    requires Underway(t, r) && Answers(world, r, x)
    requires !IsLimiter(r.stage) && !r.stage.Handler? && !r.stage.Done?
    ensures var r' := AfterGuard(r, GuardStep(r, x));
      Underway(t, r') && Finishing(world, t, d, r', keys) == Finishing(world, t, d, r, keys)
  {
    assert GuardStep(r, x) == GuardAt(world, r.stage, r.route, r.incoming, r.written);
  }

  /** A step that the world answers changes nothing about how the request will end. */
  lemma StepKeepsOutcome(world: World, t: ClassTable, d: Derivation, s: State, id: nat, x: Input)
    requires id in s.requests && Underway(t, s.requests[id]) && Answers(world, s.requests[id], x)
    ensures var s' := Step(t, d, s, Advance(id, x));
      && id in s'.requests && Underway(t, s'.requests[id])
      && Finishing(world, t, d, s'.requests[id], s'.keys) == Finishing(world, t, d, s.requests[id], s.keys)
  {
    var r := s.requests[id];
    if x.time >= s.clock && !r.stage.Done? {
      var s1 := s.(clock := x.time);
      if IsLimiter(r.stage) {
        LimiterTurns(t, d, s1, id, x);
        assert Step(t, d, s, Advance(id, x)) == LimiterStep(t, d, s1, id, x);
        if TurnsOnly(r) {
          TurningKeepsOutcome(world, t, d, r, x, s.keys);
        } else {
          TakingKeepsOutcome(world, t, d, s1, id, x);
        }
      } else if !r.stage.Handler? {
        GuardKeepsOutcome(world, t, d, r, x, s.keys);
      }
    }
  }

  function RunFrom(t: ClassTable, d: Derivation, s: State, es: seq<Event>): State {
    if es == [] then s else Step(t, d, RunFrom(t, d, s, es[..|es| - 1]), es[|es| - 1])
  }

  /** A run of one request alone, every step answered by the world. */
  ghost predicate Alone(world: World, t: ClassTable, d: Derivation, s: State, id: nat, es: seq<Event>) {
    es == [] ||
    (var prev, e := es[..|es| - 1], es[|es| - 1];
     && Alone(world, t, d, s, id, prev) && e.Advance? && e.id == id
     && id in RunFrom(t, d, s, prev).requests && Answers(world, RunFrom(t, d, s, prev).requests[id], e.input))
  }

  lemma {:induction false} AloneKeepsOutcome(world: World, t: ClassTable, d: Derivation, s: State, id: nat,
                                             es: seq<Event>)
    requires id in s.requests && Underway(t, s.requests[id]) && Alone(world, t, d, s, id, es)
    ensures var s' := RunFrom(t, d, s, es);
      && id in s'.requests && Underway(t, s'.requests[id])
      && Finishing(world, t, d, s'.requests[id], s'.keys) == Finishing(world, t, d, s.requests[id], s.keys)
  {
    if es != [] {
      var prev, e := es[..|es| - 1], es[|es| - 1];
      AloneKeepsOutcome(world, t, d, s, id, prev);
      StepKeepsOutcome(world, t, d, RunFrom(t, d, s, prev), id, e.input);
    }
  }

  /** THE FUNCTION IS THE MACHINE. Whatever state a request arrives in, if it then runs alone
      and its guards are done, it has been answered as `Serve` says and has left the windows
      that `Serve` leaves; its handler has been started exactly when nothing refused. */
  lemma AloneIsServed(world: World, t: ClassTable, d: Derivation, s: State, id: nat,
                      route: Route, incoming: Incoming, es: seq<Event>)
    requires id !in s.requests && route.className in t
    requires var s0 := Step(t, d, s, Arrive(id, route, incoming)); Alone(world, t, d, s0, id, es)
    ensures var s' := RunFrom(t, d, Step(t, d, s, Arrive(id, route, incoming)), es);
      && id in s'.requests
      && var r := s'.requests[id];
         (r.stage.Done? ==>
            && Serve(world, t, d, route, incoming, s.keys) == Served(s'.keys, r.refusal, r.headers)
            && (r.startedAt.Some? <==> r.refusal.None?))
  {
    AloneKeepsOutcome(world, t, d, Step(t, d, s, Arrive(id, route, incoming)), id, es);
  }

  // ----- a lone request gets there ------------------------------------------------------

  /** How many steps a request can still take. */
  function StepsLeft(r: RequestState): nat {
    (Rank(Done) - Rank(r.stage)) * 4 + if r.pass.Some? then |r.pass.value.todo| else 3
  }

  /** The step comes in time, and a command it issues is a new one. */
  ghost predicate Timely(s: State, x: Input) {
    x.time >= s.clock && forall c | c in s.charges :: c.uuid != x.uuid
  }

  lemma TurningProgresses(t: ClassTable, r: RequestState, x: Input)
    requires Underway(t, r) && IsLimiter(r.stage) && TurnsOnly(r)
    ensures StepsLeft(Turned(t, r, x)) < StepsLeft(r)
  {
  }

  lemma GuardProgresses(t: ClassTable, r: RequestState, x: Input)
    requires Underway(t, r) && !IsLimiter(r.stage) && !r.stage.Handler? && !r.stage.Done?
    ensures StepsLeft(AfterGuard(r, GuardStep(r, x))) < StepsLeft(r)
  {
  }

  lemma StepProgresses(t: ClassTable, d: Derivation, s: State, id: nat, x: Input)
    requires id in s.requests && Underway(t, s.requests[id]) && !s.requests[id].stage.Done? && Timely(s, x)
    ensures var s' := Step(t, d, s, Advance(id, x));
      id in s'.requests && StepsLeft(s'.requests[id]) < StepsLeft(s.requests[id])
  {
    var r := s.requests[id];
    var s1 := s.(clock := x.time);
    if IsLimiter(r.stage) {
      LimiterTurns(t, d, s1, id, x);
      assert Step(t, d, s, Advance(id, x)) == LimiterStep(t, d, s1, id, x);
      if TurnsOnly(r) { TurningProgresses(t, r, x); }
    } else if !r.stage.Handler? {
      GuardProgresses(t, r, x);
    }
  }

  /** A run of one request alone whose steps are all timely. */
  ghost predicate AllTimely(t: ClassTable, d: Derivation, s: State, es: seq<Event>) {
    es == [] ||
    (var prev, e := es[..|es| - 1], es[|es| - 1];
     AllTimely(t, d, s, prev) && e.Advance? && Timely(RunFrom(t, d, s, prev), e.input))
  }

  lemma DoneStaysDone(t: ClassTable, d: Derivation, s: State, id: nat, x: Input)
    requires id in s.requests && s.requests[id].stage.Done?
    ensures Step(t, d, s, Advance(id, x)) == s
  {
  }

  lemma {:induction false} TimelyRunsProgress(world: World, t: ClassTable, d: Derivation, s: State, id: nat,
                                              es: seq<Event>)
    requires id in s.requests && Underway(t, s.requests[id])
    requires Alone(world, t, d, s, id, es) && AllTimely(t, d, s, es)
    ensures var s' := RunFrom(t, d, s, es);
      && id in s'.requests
      && (s'.requests[id].stage.Done? || StepsLeft(s'.requests[id]) + |es| <= StepsLeft(s.requests[id]))
  {
    if es != [] {
      var prev, e := es[..|es| - 1], es[|es| - 1];
      var s' := RunFrom(t, d, s, prev);
      TimelyRunsProgress(world, t, d, s, id, prev);
      AloneKeepsOutcome(world, t, d, s, id, prev);
      if s'.requests[id].stage.Done? {
        DoneStaysDone(t, d, s', id, e.input);
      } else {
        StepProgresses(t, d, s', id, e.input);
      }
    }
  }

  const LONGEST: nat := 48

  lemma ArrivedIsUnderway(t: ClassTable, d: Derivation, s: State, id: nat, route: Route, incoming: Incoming)
    requires id !in s.requests && route.className in t
    ensures var s0 := Step(t, d, s, Arrive(id, route, incoming));
      id in s0.requests && Underway(t, s0.requests[id]) && StepsLeft(s0.requests[id]) < LONGEST
  {
  }

  /** A request that runs alone and in time is done after at most 48 steps, answered as `Serve`
      says, its handler started exactly when nothing refused. */
  lemma AloneGetsThere(world: World, t: ClassTable, d: Derivation, s: State, id: nat,
                       route: Route, incoming: Incoming, es: seq<Event>)
    requires id !in s.requests && route.className in t && |es| >= LONGEST
    requires var s0 := Step(t, d, s, Arrive(id, route, incoming));
      Alone(world, t, d, s0, id, es) && AllTimely(t, d, s0, es)
    ensures var s' := RunFrom(t, d, Step(t, d, s, Arrive(id, route, incoming)), es);
      && id in s'.requests
      && var r := s'.requests[id];
         && r.stage.Done?
         && Serve(world, t, d, route, incoming, s.keys) == Served(s'.keys, r.refusal, r.headers)
         && (r.startedAt.Some? <==> r.refusal.None?)
  {
    var s0 := Step(t, d, s, Arrive(id, route, incoming));
    assert RunFrom(t, d, s0, es).requests[id].stage.Done? by {
      ArrivedIsUnderway(t, d, s, id, route, incoming);
      TimelyRunsProgress(world, t, d, s0, id, es);
    }
    AloneIsServed(world, t, d, s, id, route, incoming, es);
  }
}
