/** What a caller who is no active member of the organisation can learn from the pipeline. */
module NonInterference {
  import opened Wrappers
  import opened SlidingWindow
  import opened RateLimit
  import opened Pipeline
  import opened OneRequest
  import G = Guards

  predicate ActiveMember(t: G.Tenancy) {
    t.membership.Some? && t.membership.value.isActive
  }

  /** The credential is no active member of the organisation it names, or names none. */
  predicate NotActiveMember(world: World, incoming: Incoming) {
    var s := SessionOf(world, incoming);
    s.Resolved? && s.session.activeOrganizationId.Some? ==>
      !ActiveMember(world.resolve(s.session.userId, s.session.activeOrganizationId.value))
  }

  /** The same credential, except for the organisation it names. */
  predicate SameCaller(a: G.SessionResolution, b: G.SessionResolution) {
    if a.Resolved? then
      b.Resolved? && b.session == a.session.(activeOrganizationId := b.session.activeOrganizationId)
    else a == b
  }

  /** NON-INTERFERENCE. On a route that names a permission, a caller without an active
      membership gets the same response, headers included, and leaves the same limiter
      state in any two worlds, whatever they say about the organisation, its roles, its
      grants or the later guards; and the same again when the session names another
      organisation, or none. */
  lemma NonMembersLearnNothing(a: World, b: World, t: ClassTable, d: Derivation, route: Route, incoming: Incoming,
                               keys: Keys)
    requires route.className in t
    requires route.access.Some? && route.access.value.RequirePermission?
    requires a.edge == b.edge && SameCaller(SessionOf(a, incoming), SessionOf(b, incoming))
    requires NotActiveMember(a, incoming) && NotActiveMember(b, incoming)
    ensures Serve(a, t, d, route, incoming, keys) == Serve(b, t, d, route, incoming, keys)
  {
    NonMemberIsRefusedAtResolution(a, t, d, route, incoming, keys);
    NonMemberIsRefusedAtResolution(b, t, d, route, incoming, keys);
  }

  /** What such a caller gets: the edge limiter's answer, else the authentication
      refusal, else a plain 404; and the edge limiter's state. */
  lemma NonMemberIsRefusedAtResolution(world: World, t: ClassTable, d: Derivation, route: Route, incoming: Incoming,
                                       keys: Keys)
    requires route.className in t
    requires route.access.Some? && route.access.value.RequirePermission?
    requires NotActiveMember(world, incoming)
    ensures var edge := Limit(t, d, route, incoming, G.NOTHING_WRITTEN, Edge, world.edge, Served(keys, None, None));
      var auth := G.Authenticate(route.access, route.allowsPendingMfa, incoming.token, G.NOTHING_WRITTEN,
        SessionOf(world, incoming));
      Serve(world, t, d, route, incoming, keys) ==
        if edge.refusal.Some? then edge
        else if auth.refusal.Some? then edge.(refusal := auth.refusal)
        else edge.(refusal := Some(G.NOT_FOUND))
  {
  }

  /** An active member of a suspended organisation is told so, with 403, when the edge
      limiter passes and the credential is accepted: membership is what buys the answer. */
  lemma SuspensionIsToldToMembers(world: World, t: ClassTable, d: Derivation, route: Route, incoming: Incoming,
                                  keys: Keys)
    requires route.className in t
    requires route.access.Some? && route.access.value.RequirePermission?
    requires Limit(t, d, route, incoming, G.NOTHING_WRITTEN, Edge, world.edge, Served(keys, None, None)).refusal.None?
    requires GuardAt(world, Authenticate, route, incoming, G.NOTHING_WRITTEN).refusal.None?
    ensures var s := SessionOf(world, incoming);
      s.Resolved? && (s.session.activeOrganizationId.Some? ==>
        var tenancy := world.resolve(s.session.userId, s.session.activeOrganizationId.value);
        !tenancy.organizationIsActive ==>
          (Serve(world, t, d, route, incoming, keys).refusal == Some(G.SUSPENDED) <==> ActiveMember(tenancy)))
  {
    var edge := Limit(t, d, route, incoming, G.NOTHING_WRITTEN, Edge, world.edge, Served(keys, None, None));
    var w := GuardAt(world, Authenticate, route, incoming, G.NOTHING_WRITTEN).written;
    assert Serve(world, t, d, route, incoming, keys) == ServeFrom(world, t, d, route, incoming, TenantResolve, w, edge);
  }

  lemma LimiterPassed(world: World, t: ClassTable, d: Derivation, route: Route, incoming: Incoming, stage: Stage,
                      w: G.Written, s: Served)
    returns (l: Served)
    requires route.className in t && IsLimiter(stage)
    requires ServeFrom(world, t, d, route, incoming, stage, w, s).refusal.None?
    ensures ServeFrom(world, t, d, route, incoming, NextStage(stage), w, l).refusal.None?
  {
    l := Limit(t, d, route, incoming, w, PhaseAt(stage), InputsAt(world, stage), s);
  }

  lemma GuardPassed(world: World, t: ClassTable, d: Derivation, route: Route, incoming: Incoming, stage: Stage,
                    w: G.Written, s: Served)
    requires route.className in t && !IsLimiter(stage) && !stage.Handler? && !stage.Done?
    requires ServeFrom(world, t, d, route, incoming, stage, w, s).refusal.None?
    ensures var g := GuardAt(world, stage, route, incoming, w);
      g.refusal.None? && ServeFrom(world, t, d, route, incoming, NextStage(stage), g.written, s).refusal.None?
  {
  }

  lemma GatesPassed(world: World, t: ClassTable, d: Derivation, route: Route, incoming: Incoming, w: G.Written,
                    s: Served)
    requires route.className in t
    requires ServeFrom(world, t, d, route, incoming, Csrf, w, s).refusal.None?
    ensures ServeFrom(world, t, d, route, incoming, Authorize, w, s).refusal.None?
  {
    GuardPassed(world, t, d, route, incoming, Csrf, w, s);
    GuardPassed(world, t, d, route, incoming, CrossSite, w, s);
    GuardPassed(world, t, d, route, incoming, EmailVerified, w, s);
    GuardPassed(world, t, d, route, incoming, MfaEnrolment, w, s);
  }

  /** A handler behind a permission runs only for an active member of an active
      organisation who holds that permission. */
  lemma HandlersRunForEntitledMembersOnly(world: World, t: ClassTable, d: Derivation, route: Route, incoming: Incoming,
                                          keys: Keys)
    requires route.className in t
    requires route.access.Some? && route.access.value.RequirePermission?
    requires Serve(world, t, d, route, incoming, keys).refusal.None?
    ensures incoming.token.Some? && SessionOf(world, incoming).Resolved?
    ensures var s := SessionOf(world, incoming).session;
      && s.activeOrganizationId.Some?
      && var tenancy := world.resolve(s.userId, s.activeOrganizationId.value);
         && ActiveMember(tenancy) && tenancy.organizationIsActive
         && route.access.value.permission in tenancy.membership.value.permissions
  {
    var s := LimiterPassed(world, t, d, route, incoming, EdgeLimit, G.NOTHING_WRITTEN, Served(keys, None, None));
    GuardPassed(world, t, d, route, incoming, Authenticate, G.NOTHING_WRITTEN, s);
    var w := GuardAt(world, Authenticate, route, incoming, G.NOTHING_WRITTEN).written;
    GuardPassed(world, t, d, route, incoming, TenantResolve, w, s);
    var w' := GuardAt(world, TenantResolve, route, incoming, w).written;
    GatesPassed(world, t, d, route, incoming, w', s);
    GuardPassed(world, t, d, route, incoming, Authorize, w', s);
  }

  // ----- who reaches a handler in any run -------------------------------------------------

  /** The database said so to a step of the request: an active member of the active
      organisation, with these permissions. */
  ghost predicate Granted(es: seq<Event>, id: nat, context: G.TenantContext) {
    exists i | 0 <= i < |es| ::
      es[i].Advance? && es[i].id == id && Grants(es[i].input.tenancy, context)
  }

  predicate Grants(t: G.Tenancy, context: G.TenantContext) {
    && ActiveMember(t) && t.organizationIsActive
    && forall p | p in context.permissions :: p in t.membership.value.permissions
  }

  predicate HoldsPermission(r: RequestState) {
    r.route.access.Some? && r.route.access.value.RequirePermission? ==>
      r.written.tenant.Some? && r.route.access.value.permission in r.written.tenant.value.permissions
  }

  predicate Cleared(r: RequestState) {
    && (r.startedAt.Some? ==> r.stage.Done? && HoldsPermission(r))
    && (Rank(r.stage) > Rank(Authorize) && !r.stage.Done? ==> HoldsPermission(r))
  }

  /** What one step may do to a request: move it on, write a context that was granted. */
  ghost predicate Moved(r: RequestState, r': RequestState, x: Input) {
    && (r'.written.tenant == r.written.tenant
        || (r'.written.tenant.Some? && Grants(x.tenancy, r'.written.tenant.value)))
    && (Cleared(r) ==> Cleared(r'))
  }

  lemma LimiterMoves(t: ClassTable, d: Derivation, s: State, id: nat, x: Input)
    requires id in s.requests && s.requests[id].route.className in t && IsLimiter(s.requests[id].stage)
    ensures var s' := LimiterStep(t, d, s, id, x);
      && s'.requests.Keys == s.requests.Keys && Moved(s.requests[id], s'.requests[id], x)
      && forall k | k in s.requests && k != id :: s'.requests[k] == s.requests[k]
  {
    LimiterTurns(t, d, s, id, x);
  }

  lemma GuardMoves(r: RequestState, x: Input)
    requires !IsLimiter(r.stage) && !r.stage.Handler? && !r.stage.Done?
    ensures Moved(r, AfterGuard(r, GuardStep(r, x)), x)
  {
  }

  lemma StepMoves(t: ClassTable, d: Derivation, s: State, id: nat, x: Input)
    requires id in s.requests
    ensures var s' := Step(t, d, s, Advance(id, x));
      && s'.requests.Keys == s.requests.Keys && Moved(s.requests[id], s'.requests[id], x)
      && forall k | k in s.requests && k != id :: s'.requests[k] == s.requests[k]
  {
    var r := s.requests[id];
    if x.time >= s.clock && r.route.className in t && !r.stage.Done? {
      if IsLimiter(r.stage) {
        LimiterMoves(t, d, s.(clock := x.time), id, x);
        assert Step(t, d, s, Advance(id, x)) == LimiterStep(t, d, s.(clock := x.time), id, x);
      } else if !r.stage.Handler? {
        GuardMoves(r, x);
      }
    }
  }

  lemma {:induction false} RequestsAreCleared(t: ClassTable, d: Derivation, es: seq<Event>, id: nat)
    requires id in Run(t, d, es).requests
    ensures var r := Run(t, d, es).requests[id];
      Cleared(r) && (r.written.tenant.Some? ==> Granted(es, id, r.written.tenant.value))
  {
    if es != [] {
      var n := |es| - 1;
      var s, e := Run(t, d, es[..n]), es[n];
      if id in s.requests {
        RequestsAreCleared(t, d, es[..n], id);
        GrantsStay(es, id, s.requests[id]);
        if e.Advance? && e.id in s.requests { StepMoves(t, d, s, e.id, e.input); }
      }
    }
  }

  lemma GrantsStay(es: seq<Event>, id: nat, r: RequestState)
    requires es != [] && (r.written.tenant.Some? ==> Granted(es[..|es| - 1], id, r.written.tenant.value))
    ensures r.written.tenant.Some? ==> Granted(es, id, r.written.tenant.value)
  {
    if r.written.tenant.Some? {
      var c := r.written.tenant.value;
      var i :| 0 <= i < |es| - 1 && es[..|es| - 1][i].Advance? && es[..|es| - 1][i].id == id
        && Grants(es[..|es| - 1][i].input.tenancy, c);
      assert es[i] == es[..|es| - 1][i];
    }
  }

  /** In any interleaved run, a handler behind a permission has started only for a request to
      which the database once said: an active member of an active organisation, with that
      permission. */
  lemma HandlersStartForEntitledMembersOnly(t: ClassTable, d: Derivation, es: seq<Event>, id: nat)
    requires id in Run(t, d, es).requests && Run(t, d, es).requests[id].startedAt.Some?
    requires var a := Run(t, d, es).requests[id].route.access; a.Some? && a.value.RequirePermission?
    ensures exists i | 0 <= i < |es| ::
      && es[i].Advance? && es[i].id == id
      && var tenancy := es[i].input.tenancy;
         && ActiveMember(tenancy) && tenancy.organizationIsActive
         && Run(t, d, es).requests[id].route.access.value.permission in tenancy.membership.value.permissions
  {
    RequestsAreCleared(t, d, es, id);
    var context := Run(t, d, es).requests[id].written.tenant.value;
    var i :| 0 <= i < |es| && es[i].Advance? && es[i].id == id && Grants(es[i].input.tenancy, context);
  }

  /** The session service vouches for the request: there is a token, its session is resolved, and
      it is active or the route does with a pending second factor. */
  predicate Vouches(route: Route, incoming: Incoming, s: G.SessionResolution) {
    incoming.token.Some? && s.Resolved? && (s.session.status == G.Active || route.allowsPendingMfa)
  }

  ghost predicate Vouched(es: seq<Event>, id: nat, r: RequestState) {
    exists i | 0 <= i < |es| ::
      es[i].Advance? && es[i].id == id && Vouches(r.route, r.incoming, es[i].input.session)
  }

  predicate PastAuthentication(r: RequestState) {
    r.startedAt.Some? || (r.stage != EdgeLimit && r.stage != Authenticate && r.stage != Done)
  }

  /** One step takes a request past authentication only when the session service vouches. */
  ghost predicate Admits(r: RequestState, r': RequestState, x: Input) {
    && r'.route == r.route && r'.incoming == r.incoming
    && (PastAuthentication(r') ==>
          PastAuthentication(r) || r.route.access == Some(G.Public) || Vouches(r.route, r.incoming, x.session))
  }

  lemma LimiterAdmits(t: ClassTable, d: Derivation, s: State, id: nat, x: Input)
    requires id in s.requests && s.requests[id].route.className in t && IsLimiter(s.requests[id].stage)
    ensures var s' := LimiterStep(t, d, s, id, x);
      id in s'.requests && Admits(s.requests[id], s'.requests[id], x)
  {
    LimiterTurns(t, d, s, id, x);
  }

  lemma GuardAdmits(r: RequestState, x: Input)
    requires !IsLimiter(r.stage) && !r.stage.Handler? && !r.stage.Done?
    ensures Admits(r, AfterGuard(r, GuardStep(r, x)), x)
  {
    if r.stage.Authenticate? {
      G.AuthenticatesExactly(r.route.access, r.route.allowsPendingMfa, r.incoming.token, r.written, x.session);
    }
  }

  lemma StepAdmits(t: ClassTable, d: Derivation, s: State, id: nat, x: Input)
    requires id in s.requests
    ensures var s' := Step(t, d, s, Advance(id, x));
      id in s'.requests && Admits(s.requests[id], s'.requests[id], x)
  {
    var r := s.requests[id];
    if x.time >= s.clock && r.route.className in t && !r.stage.Done? {
      if IsLimiter(r.stage) {
        LimiterAdmits(t, d, s.(clock := x.time), id, x);
        assert Step(t, d, s, Advance(id, x)) == LimiterStep(t, d, s.(clock := x.time), id, x);
      } else if !r.stage.Handler? {
        GuardAdmits(r, x);
      }
    }
  }

  lemma VouchedStays(es: seq<Event>, id: nat, r: RequestState, r': RequestState)
    requires es != [] && Vouched(es[..|es| - 1], id, r) && r'.route == r.route && r'.incoming == r.incoming
    ensures Vouched(es, id, r')
  {
    var i :| 0 <= i < |es| - 1 && es[..|es| - 1][i].Advance? && es[..|es| - 1][i].id == id
      && Vouches(r.route, r.incoming, es[..|es| - 1][i].input.session);
    assert es[i] == es[..|es| - 1][i];
  }

  lemma {:induction false} RequestsAreVouched(t: ClassTable, d: Derivation, es: seq<Event>, id: nat)
    requires id in Run(t, d, es).requests
    ensures var r := Run(t, d, es).requests[id];
      PastAuthentication(r) && r.route.access != Some(G.Public) ==> Vouched(es, id, r)
  {
    if es != [] {
      var n := |es| - 1;
      var s, e := Run(t, d, es[..n]), es[n];
      if id in s.requests {
        RequestsAreVouched(t, d, es[..n], id);
        var r, r' := s.requests[id], Run(t, d, es).requests[id];
        if e.Advance? && e.id in s.requests {
          StepMoves(t, d, s, e.id, e.input);
          StepAdmits(t, d, s, e.id, e.input);
        }
        if PastAuthentication(r') && r.route.access != Some(G.Public) {
          if PastAuthentication(r) { VouchedStays(es, id, r, r'); } else { assert e.Advance? && e.id == id; }
        }
      }
    }
  }

  /** In any interleaved run, on a route that is not public a handler has started only for a
      request with a token whose session was once resolved, and was active then, or of a route
      that does with a pending second factor. */
  lemma HandlersStartForAuthenticatedOnly(t: ClassTable, d: Derivation, es: seq<Event>, id: nat)
    requires id in Run(t, d, es).requests && Run(t, d, es).requests[id].startedAt.Some?
    requires Run(t, d, es).requests[id].route.access != Some(G.Public)
    ensures var r := Run(t, d, es).requests[id];
      && r.incoming.token.Some?
      && exists i | 0 <= i < |es| ::
           && es[i].Advance? && es[i].id == id && es[i].input.session.Resolved?
           && (es[i].input.session.session.status == G.Active || r.route.allowsPendingMfa)
  {
    RequestsAreVouched(t, d, es, id);
    var r := Run(t, d, es).requests[id];
    var i :| 0 <= i < |es| && es[i].Advance? && es[i].id == id
      && Vouches(r.route, r.incoming, es[i].input.session);
  }

  // ----- nothing leaks in any run -----------------------------------------------------------------------

  /** A request on a permission route whose caller is turned away at tenant resolution. */
  predicate TurnedAway(r: RequestState) {
    && r.route.access.Some? && r.route.access.value.RequirePermission?
    && r.written.tenant.None? && r.written.organizationId.None?
    && (Rank(r.stage) <= Rank(TenantResolve) || r.stage.Done?)
    && (r.stage.TenantResolve? ==> r.written.principal.Some?)
  }

  predicate SameButOrganization(r: RequestState, r': RequestState) {
    r' == r.(written := r.written.(activeOrganizationId := r'.written.activeOrganizationId))
  }

  /** Two states nobody can tell apart: windows, clock, history and every other request are
      the same, and an outsider's request differs in the organisation its session names. */
  ghost predicate Indistinguishable(s: State, s': State, outsiders: set<nat>) {
    && s' == s.(requests := s'.requests) && s'.requests.Keys == s.requests.Keys
    && forall id | id in s.requests ::
         if id in outsiders then TurnedAway(s.requests[id]) && SameButOrganization(s.requests[id], s'.requests[id])
         else s'.requests[id] == s.requests[id]
  }

  /** Inputs of an outsider's step: whatever its session names, it is no active member there. */
  predicate OutsiderInputs(x: Input, y: Input) {
    && y == x.(session := y.session, tenancy := y.tenancy)
    && SameCaller(x.session, y.session) && !ActiveMember(x.tenancy) && !ActiveMember(y.tenancy)
  }

  predicate EventsAlike(e: Event, e': Event, outsiders: set<nat>) {
    match e
    case Arrive(id, route, _) =>
      e' == e && (id in outsiders ==> route.access.Some? && route.access.value.RequirePermission?)
    case Advance(id, x) =>
      if id in outsiders then e'.Advance? && e'.id == id && OutsiderInputs(x, e'.input) else e' == e
  }

  lemma OutsiderGuard(r: RequestState, r': RequestState, x: Input, y: Input)
    requires TurnedAway(r) && SameButOrganization(r, r') && OutsiderInputs(x, y)
    requires r.stage.Authenticate? || r.stage.TenantResolve?
    ensures var q, q' := AfterGuard(r, GuardStep(r, x)), AfterGuard(r', GuardStep(r', y));
      TurnedAway(q) && SameButOrganization(q, q')
  {
  }

  lemma OutsiderLimiter(t: ClassTable, d: Derivation, s: State, s': State, id: nat, x: Input, y: Input,
                        outsiders: set<nat>)
    requires Indistinguishable(s, s', outsiders) && id in outsiders && id in s.requests
    requires s.requests[id].stage.EdgeLimit? && s.requests[id].route.className in t && OutsiderInputs(x, y)
    ensures Indistinguishable(LimiterStep(t, d, s, id, x), LimiterStep(t, d, s', id, y), outsiders)
  {
    LimiterTurns(t, d, s, id, x);
    LimiterTurns(t, d, s', id, y);
    if TurnsOnly(s.requests[id]) {
      OutsiderTurns(t, s.requests[id], s'.requests[id], x, y);
    } else {
      OutsiderScope(t, d, s, s', id, x, y, outsiders);
    }
  }

  lemma OutsiderTurns(t: ClassTable, r: RequestState, r': RequestState, x: Input, y: Input)
    requires TurnedAway(r) && SameButOrganization(r, r') && OutsiderInputs(x, y)
    requires r.stage.EdgeLimit? && r.route.className in t && TurnsOnly(r)
    ensures TurnedAway(Turned(t, r, x)) && SameButOrganization(Turned(t, r, x), Turned(t, r', y))
  {
  }

  lemma OutsiderScope(t: ClassTable, d: Derivation, s: State, s': State, id: nat, x: Input, y: Input,
                      outsiders: set<nat>)
    requires Indistinguishable(s, s', outsiders) && id in outsiders && id in s.requests
    requires s.requests[id].stage.EdgeLimit? && s.requests[id].route.className in t && OutsiderInputs(x, y)
    requires s.requests[id].pass.Some? && s.requests[id].pass.value.todo != []
    ensures Indistinguishable(TakeScope(t, d, s, id, x), TakeScope(t, d, s', id, y), outsiders)
  {
    var r, r' := s.requests[id], s'.requests[id];
    var p := r.pass.value;
    SameCalls(t, d, r, r', p.now, x, y);
    var call, call' := CallOf(t, d, r, p.now, x), CallOf(t, d, r', p.now, y);
    assert ScopeStep(call, PassStateOf(p, s.keys), p.todo[0]) == ScopeStep(call', PassStateOf(p, s'.keys), p.todo[0]);
    assert ChargeOf(id, call, p.todo[0], x) == ChargeOf(id, call', p.todo[0], y);
    var next := ScopeStep(call, PassStateOf(p, s.keys), p.todo[0]);
    OutsiderTakes(s, s', id, next, ChargeOf(id, call, p.todo[0], x), outsiders);
  }

  /** Rewriting one request, and what all requests share, in both states alike. */
  lemma RewritingStaysIndistinguishable(s: State, s': State, id: nat, q: RequestState, q': RequestState,
                                        outsiders: set<nat>,
                                        n: State, n': State)
    requires Indistinguishable(s, s', outsiders) && id in s.requests
    requires if id in outsiders then TurnedAway(q) && SameButOrganization(q, q') else q == q'
    requires n == n.(requests := s.requests[id := q]) && n' == n.(requests := s'.requests[id := q'])
    ensures Indistinguishable(n, n', outsiders)
  {
  }

  lemma OutsiderTakes(s: State, s': State, id: nat, next: PassState, charge: Charge, outsiders: set<nat>)
    requires Indistinguishable(s, s', outsiders) && id in outsiders && id in s.requests
    requires s.requests[id].stage.EdgeLimit? && s.requests[id].pass.Some? && s.requests[id].pass.value.todo != []
    ensures Indistinguishable(ScopeTaken(s, id, next, charge), ScopeTaken(s', id, next, charge), outsiders)
  {
    var n, n' := ScopeTaken(s, id, next, charge), ScopeTaken(s', id, next, charge);
    RewritingStaysIndistinguishable(s, s', id, n.requests[id], n'.requests[id], outsiders, n, n');
  }

  lemma SameCalls(t: ClassTable, d: Derivation, r: RequestState, r': RequestState, now: nat, x: Input, y: Input)
    requires r.route.className in t && SameButOrganization(r, r') && OutsiderInputs(x, y)
    ensures CallOf(t, d, r, now, x) == CallOf(t, d, r', now, y)
  {
  }

  lemma StepsStayIndistinguishable(t: ClassTable, d: Derivation, s: State, s': State, e: Event, e': Event,
                                   outsiders: set<nat>)
    requires Indistinguishable(s, s', outsiders) && EventsAlike(e, e', outsiders)
    ensures Indistinguishable(Step(t, d, s, e), Step(t, d, s', e'), outsiders)
  {
    if e.Advance? && e.id in s.requests && e.input.time >= s.clock && s.requests[e.id].route.className in t
       && !s.requests[e.id].stage.Done? {
      if e.id in outsiders {
        OutsiderAdvances(t, d, s, s', e.id, e.input, e'.input, outsiders);
      } else {
        OthersAdvance(t, d, s, s', e.id, e.input, outsiders);
      }
    }
  }

  lemma OutsiderAdvances(t: ClassTable, d: Derivation, s: State, s': State, id: nat, x: Input, y: Input,
                         outsiders: set<nat>)
    requires Indistinguishable(s, s', outsiders) && id in outsiders && id in s.requests && OutsiderInputs(x, y)
    requires x.time >= s.clock && s.requests[id].route.className in t && !s.requests[id].stage.Done?
    ensures Indistinguishable(Step(t, d, s, Advance(id, x)), Step(t, d, s', Advance(id, y)), outsiders)
  {
    var s1, s1' := s.(clock := x.time), s'.(clock := x.time);
    if s.requests[id].stage.EdgeLimit? {
      OutsiderLimiter(t, d, s1, s1', id, x, y, outsiders);
      assert Step(t, d, s, Advance(id, x)) == LimiterStep(t, d, s1, id, x);
      assert Step(t, d, s', Advance(id, y)) == LimiterStep(t, d, s1', id, y);
    } else {
      OutsiderGuard(s.requests[id], s'.requests[id], x, y);
    }
  }

  lemma OthersAdvance(t: ClassTable, d: Derivation, s: State, s': State, id: nat, x: Input, outsiders: set<nat>)
    requires Indistinguishable(s, s', outsiders) && id !in outsiders && id in s.requests
    requires x.time >= s.clock && s.requests[id].route.className in t && !s.requests[id].stage.Done?
    ensures Indistinguishable(Step(t, d, s, Advance(id, x)), Step(t, d, s', Advance(id, x)), outsiders)
  {
    var s1, s1' := s.(clock := x.time), s'.(clock := x.time);
    var r := s.requests[id];
    if r.stage.EdgeLimit? || r.stage.TenantLimit? {
      OthersLimiter(t, d, s1, s1', id, x, outsiders);
      assert Step(t, d, s, Advance(id, x)) == LimiterStep(t, d, s1, id, x);
      assert Step(t, d, s', Advance(id, x)) == LimiterStep(t, d, s1', id, x);
    } else {
      var n, n' := Step(t, d, s, Advance(id, x)), Step(t, d, s', Advance(id, x));
      RewritingStaysIndistinguishable(s, s', id, n.requests[id], n'.requests[id], outsiders, n, n');
    }
  }

  lemma OthersLimiter(t: ClassTable, d: Derivation, s: State, s': State, id: nat, x: Input, outsiders: set<nat>)
    requires Indistinguishable(s, s', outsiders) && id !in outsiders && id in s.requests
    requires s.requests[id].route.className in t
    ensures Indistinguishable(LimiterStep(t, d, s, id, x), LimiterStep(t, d, s', id, x), outsiders)
  {
    LimiterTurns(t, d, s, id, x);
    LimiterTurns(t, d, s', id, x);
    if !TurnsOnly(s.requests[id]) { OthersScope(t, d, s, s', id, x, outsiders); }
  }

  lemma OthersScope(t: ClassTable, d: Derivation, s: State, s': State, id: nat, x: Input, outsiders: set<nat>)
    requires Indistinguishable(s, s', outsiders) && id !in outsiders && id in s.requests
    requires s.requests[id].route.className in t && s.requests[id].pass.Some? && s.requests[id].pass.value.todo != []
    ensures Indistinguishable(TakeScope(t, d, s, id, x), TakeScope(t, d, s', id, x), outsiders)
  {
    var n, n' := TakeScope(t, d, s, id, x), TakeScope(t, d, s', id, x);
    RewritingStaysIndistinguishable(s, s', id, n.requests[id], n'.requests[id], outsiders, n, n');
  }

  /** NON-INTERFERENCE OVER WHOLE RUNS. Take outsiders whose routes name a permission. However
      requests are interleaved, change at will what the database says about the organisations
      that they name, their roles and their grants, or which organisation they name, as long as
      they are active members of none: every response, every window and every other request
      stays the same. */
  lemma {:induction false} OutsidersLearnNothing(t: ClassTable, d: Derivation, es: seq<Event>, es': seq<Event>,
                                                 outsiders: set<nat>)
    requires |es| == |es'| && forall i | 0 <= i < |es| :: EventsAlike(es[i], es'[i], outsiders)
    ensures Indistinguishable(Run(t, d, es), Run(t, d, es'), outsiders)
  {
    if es != [] {
      var n := |es| - 1;
      OutsidersLearnNothing(t, d, es[..n], es'[..n], outsiders);
      StepsStayIndistinguishable(t, d, Run(t, d, es[..n]), Run(t, d, es'[..n]), es[n], es'[n], outsiders);
    }
  }

  /** Events that differ in what the database says of an organisation to somebody who is no
      active member of it. */
  predicate SameButForeignTenancy(e: Event, e': Event) {
    e == e' ||
    (e.Advance? && e'.Advance? && e'.id == e.id && e'.input == e.input.(tenancy := e'.input.tenancy)
     && !ActiveMember(e.input.tenancy) && !ActiveMember(e'.input.tenancy))
  }

  lemma ForeignTenancyChangesNoGuard(r: RequestState, x: Input, y: Input)
    requires y == x.(tenancy := y.tenancy) && !ActiveMember(x.tenancy) && !ActiveMember(y.tenancy)
    ensures GuardStep(r, x) == GuardStep(r, y)
  {
  }

  lemma ForeignTenancyChangesNoStep(t: ClassTable, d: Derivation, s: State, e: Event, e': Event)
    requires SameButForeignTenancy(e, e')
    ensures Step(t, d, s, e) == Step(t, d, s, e')
  {
    if e != e' && e.id in s.requests && e.input.time >= s.clock && s.requests[e.id].route.className in t {
      var r, x, y := s.requests[e.id], e.input, e'.input;
      var s1 := s.(clock := x.time);
      ForeignTenancyChangesNoGuard(r, x, y);
      if IsLimiter(r.stage) {
        LimiterTurns(t, d, s1, e.id, x);
        LimiterTurns(t, d, s1, e.id, y);
        if !TurnsOnly(r) { assert CallOf(t, d, r, r.pass.value.now, x) == CallOf(t, d, r, r.pass.value.now, y); }
      }
    }
  }

  /** On any routes at all, a run does not depend on what the database says of organisations to
      those who are no active members of them. */
  lemma {:induction false} ForeignTenancyChangesNothing(t: ClassTable, d: Derivation, es: seq<Event>, es': seq<Event>)
    requires |es| == |es'| && forall i | 0 <= i < |es| :: SameButForeignTenancy(es[i], es'[i])
    ensures Run(t, d, es) == Run(t, d, es')
  {
    if es != [] {
      var n := |es| - 1;
      ForeignTenancyChangesNothing(t, d, es[..n], es'[..n]);
      ForeignTenancyChangesNoStep(t, d, Run(t, d, es[..n]), es[n], es'[n]);
    }
  }
}
