/** The organisation's limit over whole runs of the pipeline, and who may spend it. */
module PipelineLimit {
  import opened Wrappers
  import opened SlidingWindow
  import opened RateLimit
  import opened Pipeline
  import Charging
  import G = Guards

  ghost predicate TableOk(t: ClassTable) {
    forall k | k in t :: ':' !in k
  }

  /** The permission the route names, if it names one, is held in the resolved tenant. */
  predicate Entitled(r: RequestState) {
    r.route.access.Some? && r.route.access.value.RequirePermission? ==>
      r.written.tenant.Some? && r.route.access.value.permission in r.written.tenant.value.permissions
  }

  /** Requests whose class must not pass the tenant limiter unadmitted. */
  predicate Bounded(t: ClassTable, r: RequestState) {
    && !r.route.exempt && r.route.className in t
    && t[r.route.className].failMode.Closed? && t[r.route.className].perOrganization.Some?
  }

  predicate PastAuthorize(r: RequestState) {
    r.stage.TenantLimit? || PastLimiter(r)
  }

  predicate PastLimiter(r: RequestState) {
    r.stage.Entitlement? || r.stage.Handler? || r.startedAt.Some?
  }

  /** A tenant pass has taken its one scope or has not; having taken it without being
      admitted it failed, resolved nothing or was refused. */
  ghost predicate TenantPassOk(t: ClassTable, r: RequestState, p: InPass)
    requires r.route.className in t
  {
    if p.todo == [] then
      && p.declared == (if t[r.route.className].perOrganization.Some? then 1 else 0)
      && |p.decisions| <= 1
      && (r.admission.None? ==> p.failed || p.decisions == [] || !p.decisions[0].allowed)
    else p.todo == [PerOrganization] && p.decisions == [] && p.declared == 0 && !p.failed
  }

  ghost predicate LocalOk(t: ClassTable, r: RequestState) {
    && r.route.className in t
    && r.written.organizationId
         == (if r.written.tenant.Some? then Some(r.written.tenant.value.organizationId) else None)
    && (Rank(r.stage) <= 2 ==> r.written.tenant.None?)
    && (PastAuthorize(r) ==> Entitled(r))
    && (r.stage.TenantLimit? && r.pass.Some? ==> TenantPassOk(t, r, r.pass.value))
    && (r.stage.EdgeLimit? && r.pass.Some? ==> forall scope | scope in r.pass.value.todo :: PhaseOf(scope) == Edge)
    && (r.pass.Some? ==> r.stage.EdgeLimit? || r.stage.TenantLimit?)
    && (Bounded(t, r) && PastLimiter(r) ==> r.admission.Some?)
    && (r.route.exempt ==> r.pass.None?)
    && (r.startedAt.Some? ==> r.stage.Done?)
    && (r.admission.Some? ==> r.written.organizationId.Some? && (PastAuthorize(r) || r.stage.Done?))
  }

  // ----- one request --------------------------------------------------------------

  lemma GuardKeepsLocal(t: ClassTable, r: RequestState, x: Input)
    requires LocalOk(t, r) && !r.stage.EdgeLimit? && !r.stage.TenantLimit? && !r.stage.Handler? && !r.stage.Done?
    ensures LocalOk(t, AfterGuard(r, GuardStep(r, x)))
    ensures AfterGuard(r, GuardStep(r, x)).startedAt == r.startedAt
    ensures r.written.tenant.Some? ==> AfterGuard(r, GuardStep(r, x)).written == r.written
  {
  }

  lemma EndPassKeepsLocal(t: ClassTable, r: RequestState)
    requires LocalOk(t, r) && (r.stage.EdgeLimit? || r.stage.TenantLimit?) && r.pass.Some? && PassOver(r.pass.value)
    ensures LocalOk(t, EndPass(t[r.route.className].failMode, r, r.pass.value))
  {
    var p := r.pass.value;
    var ps := PassStateOf(p, map[]);
    if r.stage.TenantLimit? && Finish(t[r.route.className].failMode, ps).verdict.Pass? && Bounded(t, r) {
      assert !p.failed;
      if p.decisions != [] { assert Tightest(p.decisions) == p.decisions[0]; }
    }
  }

  // ----- the history ----------------------------------------------------------------

  function AttemptOf(c: Charge, starts: map<nat, real>): Attempt {
    Attempt(c.at, c.now, SlidingWindow.Member(c.now, c.uuid), if c.uuid in starts then starts[c.uuid] else c.at)
  }

  /** The attempts a window saw, in the order Redis executed them. */
  function OnKey(key: string, cs: seq<Charge>, starts: map<nat, real>): seq<Attempt> {
    if cs == [] then []
    else
      var last := cs[|cs| - 1];
      OnKey(key, cs[..|cs| - 1], starts) + if last.key == key then [AttemptOf(last, starts)] else []
  }

  ghost predicate HistoryOk(s: State) {
    && (forall i, j | 0 <= i < j < |s.charges| ::
         s.charges[i].at <= s.charges[j].at && s.charges[i].uuid != s.charges[j].uuid)
    && (forall c | c in s.charges :: c.at <= s.clock)
  }

  /** A start is recorded under the command that admitted it, which came before. */
  ghost predicate StartsOk(s: State) {
    && (forall c | c in s.charges && c.uuid in s.starts :: c.at <= s.starts[c.uuid])
    && (forall u | u in s.starts :: Issued(s, u))
  }

  ghost predicate Issued(s: State, uuid: nat) {
    exists c :: c in s.charges && c.uuid == uuid
  }

  /** Who made a charge, and on whose window. */
  ghost predicate ChargeOk(s: State, c: Charge) {
    && c.request in s.requests
    && var r := s.requests[c.request];
       && c.key == SlidingWindowKey(r.route.className, c.scope, c.identifier)
       && (c.scope.PerOrganization? ==>
             Entitled(r) && r.written.tenant.Some? && c.identifier == r.written.tenant.value.organizationId)
  }

  ghost predicate AdmittedBy(s: State, id: nat, uuid: nat) {
    exists c :: c in s.charges && c.request == id && c.uuid == uuid && c.scope.PerOrganization?
  }

  ghost predicate AdmissionOk(s: State, id: nat, r: RequestState) {
    r.admission.Some? ==>
      && AdmittedBy(s, id, r.admission.value)
      && (r.startedAt.Some? ==> r.admission.value in s.starts && s.starts[r.admission.value] == r.startedAt.value)
  }

  /** The window of one organisation holds exactly what its history leaves in it, and a
      request that counts as admitted was. */
  ghost predicate WindowOk(s: State, key: string, w: Window) {
    && SlotOf(s.keys, key) == After(w, OnKey(key, s.charges, map[]))
    && forall c | c in s.charges && c.key == key && c.request in s.requests
         && s.requests[c.request].admission == Some(c.uuid)
         :: AttemptOf(c, map[]) in SlidingWindow.Admitted(w, OnKey(key, s.charges, map[]))
  }

  ghost predicate Inv(t: ClassTable, s: State, key: string, w: Window) {
    && HistoryOk(s) && StartsOk(s)
    && (forall c | c in s.charges :: ChargeOk(s, c))
    && (forall id | id in s.requests :: LocalOk(t, s.requests[id]) && AdmissionOk(s, id, s.requests[id]))
    && WindowOk(s, key, w)
  }

  /** A step that only moves one request on. */
  ghost predicate Moves(s: State, s': State, id: nat, r': RequestState) {
    && id in s.requests
    && s' == s.(clock := s'.clock, requests := s.requests[id := r'])
    && s.clock <= s'.clock
    && var r := s.requests[id];
       && r'.route == r.route && r'.admission == r.admission && r'.startedAt == r.startedAt
       && (r.written.tenant.Some? ==> r'.written == r.written)
  }

  lemma MovingKeepsInv(t: ClassTable, s: State, s': State, id: nat, r': RequestState, key: string, w: Window)
    requires Inv(t, s, key, w) && Moves(s, s', id, r') && LocalOk(t, r')
    ensures Inv(t, s', key, w)
  {
    MovingKeepsHistory(s, s', id, r');
    forall i | i in s'.requests ensures LocalOk(t, s'.requests[i]) && AdmissionOk(s', i, s'.requests[i]) {
      assert LocalOk(t, s.requests[i]) && AdmissionOk(s, i, s.requests[i]);
      AdmissionStays(s, s', i);
    }
    SameAdmissionsKeepWindow(s, s', key, w);
  }

  lemma MovingKeepsHistory(s: State, s': State, id: nat, r': RequestState)
    requires HistoryOk(s) && StartsOk(s) && Moves(s, s', id, r')
    requires forall c | c in s.charges :: ChargeOk(s, c)
    ensures HistoryOk(s') && StartsOk(s') && forall c | c in s'.charges :: ChargeOk(s', c)
  {
    forall c | c in s'.charges ensures ChargeOk(s', c) { assert ChargeOk(s, c); }
    forall u | u in s'.starts ensures Issued(s', u) { assert Issued(s, u); }
  }

  lemma AdmissionStays(s: State, s': State, i: nat)
    requires i in s.requests && i in s'.requests && AdmissionOk(s, i, s.requests[i])
    requires s'.charges == s.charges && s'.starts == s.starts
    requires s'.requests[i].admission == s.requests[i].admission && s'.requests[i].startedAt == s.requests[i].startedAt
    ensures AdmissionOk(s', i, s'.requests[i])
  {
    if s.requests[i].admission.Some? { assert AdmittedBy(s', i, s.requests[i].admission.value); }
  }

  lemma SameAdmissionsKeepWindow(s: State, s': State, key: string, w: Window)
    requires WindowOk(s, key, w) && s'.keys == s.keys && s'.charges == s.charges
    requires forall c | c in s.charges :: c.request in s.requests
    requires forall i | i in s.requests :: i in s'.requests && s'.requests[i].admission == s.requests[i].admission
    ensures WindowOk(s', key, w)
  {
    forall c | c in s'.charges && c.key == key && c.request in s'.requests
      && s'.requests[c.request].admission == Some(c.uuid)
      ensures AttemptOf(c, map[]) in SlidingWindow.Admitted(w, OnKey(key, s'.charges, map[]))
    {
      assert s.requests[c.request].admission == Some(c.uuid);
    }
  }

  lemma ArrivingKeepsInv(t: ClassTable, s: State, id: nat, route: Route, incoming: Incoming, key: string, w: Window)
    requires Inv(t, s, key, w) && id !in s.requests && route.className in t
    ensures Inv(t, s.(requests := s.requests[id := NewRequest(route, incoming)]), key, w)
  {
    var s' := s.(requests := s.requests[id := NewRequest(route, incoming)]);
    ArrivingKeepsHistory(s, s', id, route, incoming);
    forall i | i in s'.requests ensures LocalOk(t, s'.requests[i]) && AdmissionOk(s', i, s'.requests[i]) {
      if i != id { AdmissionStays(s, s', i); }
    }
    SameAdmissionsKeepWindow(s, s', key, w);
  }

  lemma ArrivingKeepsHistory(s: State, s': State, id: nat, route: Route, incoming: Incoming)
    requires s' == s.(requests := s.requests[id := NewRequest(route, incoming)]) && id !in s.requests
    requires HistoryOk(s) && StartsOk(s) && forall c | c in s.charges :: ChargeOk(s, c)
    ensures HistoryOk(s') && StartsOk(s') && forall c | c in s'.charges :: ChargeOk(s', c) && c.request in s.requests
  {
    forall c | c in s'.charges ensures ChargeOk(s', c) && c.request in s.requests { assert ChargeOk(s, c); }
    forall u | u in s'.starts ensures Issued(s', u) { assert Issued(s, u); }
  }

  lemma StartingKeepsInv(t: ClassTable, s: State, id: nat, x: Input, key: string, w: Window)
    requires Inv(t, s, key, w) && id in s.requests && s.requests[id].stage.Handler? && s.clock <= x.time
    ensures Inv(t, HandlerStep(s.(clock := x.time), id, x), key, w)
  {
    var s' := HandlerStep(s.(clock := x.time), id, x);
    forall c | c in s'.charges ensures ChargeOk(s', c) { assert ChargeOk(s, c); }
    assert AdmissionOk(s, id, s.requests[id]);
    StartKeepsStarts(s, s', id, x);
    forall i | i in s'.requests ensures LocalOk(t, s'.requests[i]) && AdmissionOk(s', i, s'.requests[i]) {
      assert LocalOk(t, s.requests[i]) && AdmissionOk(s, i, s.requests[i]);
      StartKeepsAdmission(t, s, s', id, x, i);
    }
    SameAdmissionsKeepWindow(s, s', key, w);
  }

  lemma StartKeepsAdmission(t: ClassTable, s: State, s': State, id: nat, x: Input, i: nat)
    requires HistoryOk(s) && id in s.requests && i in s.requests && s.requests[id].stage.Handler?
    requires LocalOk(t, s.requests[i]) && AdmissionOk(s, i, s.requests[i]) && AdmissionOk(s, id, s.requests[id])
    requires s' == HandlerStep(s.(clock := x.time), id, x)
    ensures LocalOk(t, s'.requests[i]) && AdmissionOk(s', i, s'.requests[i])
  {
    if s.requests[i].admission.Some? {
      assert AdmittedBy(s', i, s.requests[i].admission.value);
      if i != id { AdmissionsDiffer(s, i, id); }
    }
  }

  lemma StartKeepsStarts(s: State, s': State, id: nat, x: Input)
    requires HistoryOk(s) && StartsOk(s) && id in s.requests && AdmissionOk(s, id, s.requests[id])
    requires s.clock <= x.time && s' == HandlerStep(s.(clock := x.time), id, x)
    ensures StartsOk(s')
  {
    forall u | u in s'.starts ensures Issued(s', u) {
      if u in s.starts { assert Issued(s, u); } else { assert AdmittedBy(s, id, u); }
    }
  }

  /** Two requests are never admitted by the same command. */
  lemma AdmissionsDiffer(s: State, a: nat, b: nat)
    requires HistoryOk(s) && a in s.requests && b in s.requests && a != b
    requires AdmissionOk(s, a, s.requests[a]) && AdmissionOk(s, b, s.requests[b])
    requires s.requests[a].admission.Some?
    ensures s.requests[a].admission != s.requests[b].admission
  {
    if s.requests[b].admission.Some? {
      var c :| c in s.charges && c.request == a && c.uuid == s.requests[a].admission.value;
      var e :| e in s.charges && e.request == b && e.uuid == s.requests[b].admission.value;
      var i :| 0 <= i < |s.charges| && s.charges[i] == c;
      var j :| 0 <= j < |s.charges| && s.charges[j] == e;
      assert i != j;
    }
  }

  lemma OnKeySnoc(key: string, cs: seq<Charge>, c: Charge, starts: map<nat, real>)
    ensures OnKey(key, cs + [c], starts) == OnKey(key, cs, starts) + if c.key == key then [AttemptOf(c, starts)] else []
  {
    assert (cs + [c])[..|cs|] == cs;
  }

  lemma SnocRun(w: Window, es: seq<Attempt>, a: Attempt)
    ensures var c := Consume(After(w, es), a.at, a.now, w, a.member);
      && After(w, es + [a]) == c.slot
      && SlidingWindow.Admitted(w, es + [a]) == SlidingWindow.Admitted(w, es) + if c.reply.allowed then [a] else []
  {
    assert (es + [a])[..|es|] == es;
  }

  /** One more command, which is the one in question or another. */
  ghost predicate Charges(s: State, s': State, c: Charge, admitted: bool, key: string, w: Window) {
    && c.request in s.requests && s'.requests.Keys == s.requests.Keys
    && (forall e | e in s.charges :: e.uuid != c.uuid)
    && s'.charges == s.charges + [c]
    && (forall i | i in s.requests && i != c.request :: s'.requests[i].admission == s.requests[i].admission)
    && s'.requests[c.request].admission == (if admitted then Some(c.uuid) else s.requests[c.request].admission)
    && s.requests[c.request].admission != Some(c.uuid)
    && (if c.key != key then SlotOf(s'.keys, key) == SlotOf(s.keys, key)
        else var consumed := Consume(SlotOf(s.keys, key), c.at, c.now, w, SlidingWindow.Member(c.now, c.uuid));
          SlotOf(s'.keys, key) == consumed.slot && (admitted ==> consumed.reply.allowed))
  }

  lemma ChargeKeepsSlot(s: State, s': State, c: Charge, admitted: bool, key: string, w: Window)
    requires Charges(s, s', c, admitted, key, w) && WindowOk(s, key, w)
    ensures SlotOf(s'.keys, key) == After(w, OnKey(key, s'.charges, map[]))
    ensures var es, es' := OnKey(key, s.charges, map[]), OnKey(key, s'.charges, map[]);
      && (forall a | a in SlidingWindow.Admitted(w, es) :: a in SlidingWindow.Admitted(w, es'))
      && (c.key == key && admitted ==> AttemptOf(c, map[]) in SlidingWindow.Admitted(w, es'))
  {
    var es, es', a := OnKey(key, s.charges, map[]), OnKey(key, s'.charges, map[]), AttemptOf(c, map[]);
    OnKeySnoc(key, s.charges, c, map[]);
    SnocRun(w, es, a);
    assert es' == if c.key == key then es + [a] else es;
  }

  lemma ChargeKeepsWindow(s: State, s': State, c: Charge, admitted: bool, key: string, w: Window)
    requires Charges(s, s', c, admitted, key, w) && WindowOk(s, key, w)
    ensures WindowOk(s', key, w)
  {
    ChargeKeepsSlot(s, s', c, admitted, key, w);
    forall e | e in s'.charges && e.key == key && e.request in s'.requests
      && s'.requests[e.request].admission == Some(e.uuid)
      ensures AttemptOf(e, map[]) in SlidingWindow.Admitted(w, OnKey(key, s'.charges, map[]))
    {
      if e in s.charges {
        assert e.uuid != c.uuid;
        assert s.requests[e.request].admission == Some(e.uuid);
      } else {
        assert e == c;
      }
    }
  }

  lemma ScopeStepCases(t: ClassTable, d: Derivation, s: State, id: nat, x: Input)
    requires id in s.requests && s.requests[id].route.className in t
    requires s.requests[id].pass.Some? && s.requests[id].pass.value.todo != []
    ensures var r := s.requests[id];
      var p := r.pass.value;
      var call, scope := CallOf(t, d, r, p.now, x), p.todo[0];
      var next := ScopeStep(call, PassStateOf(p, s.keys), scope);
      next.charged != [] ==>
        && WindowOf(t[r.route.className], scope).Some? && Identifier(call, scope).Some?
        && next.declared == p.declared + 1
        && var c, window := ChargeOf(id, call, scope, x), WindowOf(t[r.route.className], scope).value;
           var consumed := Consume(SlotOf(s.keys, c.key), c.at, c.now, window, SlidingWindow.Member(c.now, c.uuid));
           && next.keys == PutSlot(s.keys, c.key, consumed.slot)
           && (next.failed || next.decisions == p.decisions + [Decide(consumed.reply, window, p.now)])
           && (!next.failed && !Stopped(next) ==> consumed.reply.allowed)
  {
  }

  /** The window key of one organisation for one class. */
  function OrgKey(className: string, organizationId: string): string {
    SlidingWindowKey(className, PerOrganization, organizationId)
  }

  ghost predicate Target(t: ClassTable, className: string, organizationId: string, key: string, w: Window) {
    && TableOk(t) && className in t && w.windowSeconds >= 1
    && t[className].perOrganization == Some(w)
    && key == OrgKey(className, organizationId)
  }

  lemma UnchargedScopeKeepsLocal(t: ClassTable, d: Derivation, s: State, id: nat, x: Input)
    requires id in s.requests && LocalOk(t, s.requests[id])
    requires s.requests[id].pass.Some? && !PassOver(s.requests[id].pass.value)
    ensures var r := s.requests[id];
      var p := r.pass.value;
      var next := ScopeStep(CallOf(t, d, r, p.now, x), PassStateOf(p, s.keys), p.todo[0]);
      next.charged == [] ==>
        var p' := InPass(p.now, p.todo[1..], next.decisions, next.declared, next.failed);
        next.keys == s.keys && LocalOk(t, r.(pass := Some(p')))
  {
  }

  lemma ChargedScopeKeepsLocal(t: ClassTable, d: Derivation, s: State, id: nat, x: Input)
    requires id in s.requests && LocalOk(t, s.requests[id])
    requires s.requests[id].pass.Some? && !PassOver(s.requests[id].pass.value)
    ensures var r := s.requests[id];
      var p := r.pass.value;
      var next := ScopeStep(CallOf(t, d, r, p.now, x), PassStateOf(p, s.keys), p.todo[0]);
      var admitted := r.stage.TenantLimit? && !next.failed && !Stopped(next);
      next.charged != [] ==>
        && LocalOk(t, r.(pass := Some(InPass(p.now, p.todo[1..], next.decisions, next.declared, next.failed)),
                         admission := if admitted then Some(x.uuid) else r.admission))
        && (r.stage.TenantLimit? ==> p.todo == [PerOrganization] && r.written.organizationId.Some?)
        && (r.stage.EdgeLimit? ==> PhaseOf(p.todo[0]) == Edge)
  {
    ScopeStepCases(t, d, s, id, x);
  }

  /** A request in the middle of a pass, about to take its next scope. */
  ghost predicate Taking(t: ClassTable, s: State, id: nat, x: Input) {
    && id in s.requests && LocalOk(t, s.requests[id])
    && s.requests[id].pass.Some? && !PassOver(s.requests[id].pass.value)
    && s.clock == x.time
    && forall c | c in s.charges :: c.uuid != x.uuid
  }

  function Issues(t: ClassTable, d: Derivation, s: State, id: nat, x: Input): bool
    requires id in s.requests && s.requests[id].route.className in t
    requires s.requests[id].pass.Some? && s.requests[id].pass.value.todo != []
  {
    var r := s.requests[id];
    ScopeStep(CallOf(t, d, r, r.pass.value.now, x), PassStateOf(r.pass.value, s.keys),
      r.pass.value.todo[0]).charged != []
  }

  lemma TakingMoves(t: ClassTable, d: Derivation, s: State, id: nat, x: Input, key: string, w: Window)
    requires Inv(t, s, key, w) && Taking(t, s, id, x) && !Issues(t, d, s, id, x)
    ensures Inv(t, TakeScope(t, d, s, id, x), key, w)
  {
    UnchargedScopeKeepsLocal(t, d, s, id, x);
    var s' := TakeScope(t, d, s, id, x);
    MovingKeepsInv(t, s, s', id, s'.requests[id], key, w);
  }

  /** Whether the command in question, if one is issued, admits its request for good. */
  function Admits(t: ClassTable, d: Derivation, s: State, id: nat, x: Input): bool
    requires id in s.requests && s.requests[id].route.className in t
    requires s.requests[id].pass.Some? && s.requests[id].pass.value.todo != []
  {
    var r := s.requests[id];
    var next := ScopeStep(CallOf(t, d, r, r.pass.value.now, x), PassStateOf(r.pass.value, s.keys),
      r.pass.value.todo[0]);
    r.stage.TenantLimit? && !next.failed && !Stopped(next)
  }

  function TakenCharge(t: ClassTable, d: Derivation, s: State, id: nat, x: Input): Charge
    requires id in s.requests && s.requests[id].route.className in t
    requires s.requests[id].pass.Some? && s.requests[id].pass.value.todo != []
  {
    var r := s.requests[id];
    ChargeOf(id, CallOf(t, d, r, r.pass.value.now, x), r.pass.value.todo[0], x)
  }

  lemma TakingCharges(t: ClassTable, d: Derivation, s: State, id: nat, x: Input,
                      className: string, org: string, key: string, w: Window)
    requires Target(t, className, org, key, w) && HistoryOk(s)
    requires Taking(t, s, id, x) && Issues(t, d, s, id, x) && AdmissionOk(s, id, s.requests[id])
    ensures Charges(s, TakeScope(t, d, s, id, x), TakenCharge(t, d, s, id, x), Admits(t, d, s, id, x), key, w)
  {
    var r := s.requests[id];
    var call, scope := CallOf(t, d, r, r.pass.value.now, x), r.pass.value.todo[0];
    ScopeStepCases(t, d, s, id, x);
    ChargeHitsTarget(t, call, ChargeOf(id, call, scope, x), className, org, key, w);
    FreshCommand(s, id, r, x.uuid);
  }

  lemma FreshCommand(s: State, id: nat, r: RequestState, uuid: nat)
    requires AdmissionOk(s, id, r) && forall c | c in s.charges :: c.uuid != uuid
    ensures r.admission != Some(uuid)
  {
    if r.admission.Some? { assert AdmittedBy(s, id, r.admission.value); }
  }

  lemma TakingMovesRequest(t: ClassTable, d: Derivation, s: State, id: nat, x: Input)
    requires Taking(t, s, id, x) && Issues(t, d, s, id, x)
    ensures MovesCharging(t, s, TakeScope(t, d, s, id, x), TakenCharge(t, d, s, id, x), Admits(t, d, s, id, x))
  {
    ScopeStepCases(t, d, s, id, x);
    ChargedScopeKeepsLocal(t, d, s, id, x);
    assert PastAuthorize(s.requests[id]) || s.requests[id].pass.value.todo[0] != PerOrganization;
  }

  lemma ChargingKeepsInv(t: ClassTable, d: Derivation, s: State, id: nat, x: Input,
                         className: string, org: string, key: string, w: Window)
    requires Target(t, className, org, key, w) && Inv(t, s, key, w)
    requires Taking(t, s, id, x)
    ensures Inv(t, TakeScope(t, d, s, id, x), key, w)
  {
    if Issues(t, d, s, id, x) {
      var s' := TakeScope(t, d, s, id, x);
      var c, admitted := TakenCharge(t, d, s, id, x), Admits(t, d, s, id, x);
      TakingCharges(t, d, s, id, x, className, org, key, w);
      TakingMovesRequest(t, d, s, id, x);
      ChargeKeepsWindow(s, s', c, admitted, key, w);
      ChargeKeepsHistory(s, s', c);
      ChargeKeepsCharges(t, s, s', c, admitted);
      ChargeKeepsAdmissions(t, s, s', c, admitted);
    } else {
      TakingMoves(t, d, s, id, x, key, w);
    }
  }

  /** A command on the target window is one of its class, its scope and its limit. */
  lemma ChargeHitsTarget(t: ClassTable, call: Call, c: Charge, className: string, org: string, key: string, w: Window)
    requires Target(t, className, org, key, w)
    requires call.className in t && call.config == t[call.className]
    requires Identifier(call, c.scope).Some? && c.key == KeyOf(call, c.scope, Identifier(call, c.scope).value)
    requires WindowOf(call.config, c.scope).Some?
    ensures c.key == key ==> WindowOf(call.config, c.scope).value == w
  {
    var identifier := Identifier(call, c.scope).value;
    Charging.KeysAreInjective(call.className, c.scope, identifier, className, PerOrganization, org);
  }

  lemma ChargeKeepsHistory(s: State, s': State, c: Charge)
    requires HistoryOk(s) && StartsOk(s) && s'.charges == s.charges + [c] && s'.starts == s.starts
    requires s.clock <= s'.clock == c.at && forall e | e in s.charges :: e.uuid != c.uuid
    ensures HistoryOk(s') && StartsOk(s')
  {
    forall i, j | 0 <= i < j < |s'.charges|
      ensures s'.charges[i].at <= s'.charges[j].at && s'.charges[i].uuid != s'.charges[j].uuid {
      assert s.charges[i] in s.charges;
    }
    forall u | u in s'.starts ensures Issued(s', u) && u != c.uuid {
      assert Issued(s, u);
      var e :| e in s.charges && e.uuid == u;
      assert e in s'.charges;
    }
  }

  /** The request that made charge `c`, before and after it. */
  ghost predicate MovesCharging(t: ClassTable, s: State, s': State, c: Charge, admitted: bool) {
    && c.request in s.requests && s'.requests.Keys == s.requests.Keys && s'.starts == s.starts
    && s'.charges == s.charges + [c]
    && (forall i | i in s.requests && i != c.request :: s'.requests[i] == s.requests[i])
    && var r, r' := s.requests[c.request], s'.requests[c.request];
       && r' == r.(pass := r'.pass, admission := if admitted then Some(c.uuid) else r.admission)
       && LocalOk(t, r') && r.startedAt.None?
       && (admitted ==> c.scope.PerOrganization?)
       && c.key == SlidingWindowKey(r.route.className, c.scope, c.identifier)
       && (c.scope.PerOrganization? ==> Entitled(r) && r.written.organizationId == Some(c.identifier))
  }

  lemma ChargeKeepsCharges(t: ClassTable, s: State, s': State, c: Charge, admitted: bool)
    requires MovesCharging(t, s, s', c, admitted) && LocalOk(t, s.requests[c.request])
    requires forall e | e in s.charges :: ChargeOk(s, e)
    ensures forall e | e in s'.charges :: ChargeOk(s', e)
  {
    forall e | e in s'.charges ensures ChargeOk(s', e) {
      if e in s.charges { assert ChargeOk(s, e); }
    }
  }

  lemma ChargeKeepsAdmissions(t: ClassTable, s: State, s': State, c: Charge, admitted: bool)
    requires MovesCharging(t, s, s', c, admitted)
    requires forall i | i in s.requests :: LocalOk(t, s.requests[i]) && AdmissionOk(s, i, s.requests[i])
    ensures forall i | i in s'.requests :: LocalOk(t, s'.requests[i]) && AdmissionOk(s', i, s'.requests[i])
  {
    forall i | i in s'.requests ensures AdmissionOk(s', i, s'.requests[i]) {
      assert AdmissionOk(s, i, s.requests[i]);
      if i == c.request && admitted {
        assert c in s'.charges && AdmittedBy(s', i, c.uuid);
      } else if s.requests[i].admission.Some? {
        var u := s.requests[i].admission.value;
        var e :| e in s.charges && e.request == i && e.uuid == u && e.scope.PerOrganization?;
        assert e in s'.charges && AdmittedBy(s', i, u);
      }
    }
  }

  // ----- every run --------------------------------------------------------------------

  lemma ClockKeepsInv(t: ClassTable, s: State, id: nat, time: real, key: string, w: Window)
    requires Inv(t, s, key, w) && s.clock <= time && id in s.requests
    ensures Inv(t, s.(clock := time), key, w)
  {
    MovingKeepsInv(t, s, s.(clock := time), id, s.requests[id], key, w);
  }

  lemma StepKeepsInv(t: ClassTable, d: Derivation, s: State, e: Event, className: string, org: string, key: string,
                     w: Window)
    requires Target(t, className, org, key, w) && Inv(t, s, key, w)
    ensures Inv(t, Step(t, d, s, e), key, w)
  {
    match e
    case Arrive(id, route, incoming) =>
      if id !in s.requests && route.className in t { ArrivingKeepsInv(t, s, id, route, incoming, key, w); }
    case Advance(id, x) =>
      if id in s.requests && x.time >= s.clock && !s.requests[id].stage.Done? {
        AdvanceKeepsInv(t, d, s, id, x, className, org, key, w);
      }
  }

  lemma AdvanceKeepsInv(t: ClassTable, d: Derivation, s: State, id: nat, x: Input,
                        className: string, org: string, key: string, w: Window)
    requires Target(t, className, org, key, w) && Inv(t, s, key, w)
    requires id in s.requests && x.time >= s.clock && !s.requests[id].stage.Done?
    ensures Inv(t, Step(t, d, s, Advance(id, x)), key, w)
  {
    var r := s.requests[id];
    assert LocalOk(t, r);
    if r.stage.Handler? {
      StartingKeepsInv(t, s, id, x, key, w);
      assert Step(t, d, s, Advance(id, x)) == HandlerStep(s.(clock := x.time), id, x);
    } else if r.stage.EdgeLimit? || r.stage.TenantLimit? {
      LimiterTurnKeepsInv(t, d, s, id, x, className, org, key, w);
    } else {
      GuardKeepsInv(t, s, id, x, key, w);
    }
  }

  lemma LimiterTurnKeepsInv(t: ClassTable, d: Derivation, s: State, id: nat, x: Input,
                            className: string, org: string, key: string, w: Window)
    requires Target(t, className, org, key, w) && Inv(t, s, key, w)
    requires id in s.requests && x.time >= s.clock
      && (s.requests[id].stage.EdgeLimit? || s.requests[id].stage.TenantLimit?)
    ensures s.requests[id].route.className in t
    ensures Inv(t, LimiterStep(t, d, s.(clock := x.time), id, x), key, w)
  {
    assert LocalOk(t, s.requests[id]);
    ClockKeepsInv(t, s, id, x.time, key, w);
    LimiterKeepsInv(t, d, s.(clock := x.time), id, x, className, org, key, w);
  }

  lemma GuardKeepsInv(t: ClassTable, s: State, id: nat, x: Input, key: string, w: Window)
    requires Inv(t, s, key, w) && id in s.requests && s.clock <= x.time
    requires !s.requests[id].stage.EdgeLimit? && !s.requests[id].stage.TenantLimit?
    requires !s.requests[id].stage.Handler? && !s.requests[id].stage.Done?
    ensures var r' := AfterGuard(s.requests[id], GuardStep(s.requests[id], x));
      Inv(t, s.(clock := x.time, requests := s.requests[id := r']), key, w)
  {
    var r := s.requests[id];
    var r' := AfterGuard(r, GuardStep(r, x));
    GuardKeepsLocal(t, r, x);
    MovingKeepsInv(t, s, s.(clock := x.time, requests := s.requests[id := r']), id, r', key, w);
  }

  lemma LimiterKeepsInv(t: ClassTable, d: Derivation, s: State, id: nat, x: Input,
                        className: string, org: string, key: string, w: Window)
    requires Target(t, className, org, key, w) && Inv(t, s, key, w)
    requires id in s.requests && s.clock == x.time
      && (s.requests[id].stage.EdgeLimit? || s.requests[id].stage.TenantLimit?)
    ensures Inv(t, LimiterStep(t, d, s, id, x), key, w)
  {
    var r := s.requests[id];
    assert LocalOk(t, r);
    if r.route.exempt || r.pass.None? || PassOver(r.pass.value) {
      LimiterMoves(t, d, s, id, x);
      MovingKeepsInv(t, s, LimiterStep(t, d, s, id, x), id, LimiterStep(t, d, s, id, x).requests[id], key, w);
    } else if forall c | c in s.charges :: c.uuid != x.uuid {
      ChargingKeepsInv(t, d, s, id, x, className, org, key, w);
    }
  }

  lemma LimiterMoves(t: ClassTable, d: Derivation, s: State, id: nat, x: Input)
    requires id in s.requests && LocalOk(t, s.requests[id])
      && (s.requests[id].stage.EdgeLimit? || s.requests[id].stage.TenantLimit?)
    requires var r := s.requests[id]; r.route.exempt || r.pass.None? || PassOver(r.pass.value)
    ensures var s' := LimiterStep(t, d, s, id, x);
      id in s'.requests && Moves(s, s', id, s'.requests[id]) && LocalOk(t, s'.requests[id])
  {
    var r := s.requests[id];
    if !r.route.exempt && r.pass.Some? { EndPassKeepsLocal(t, r); }
  }

  lemma {:induction false} RunKeepsInv(t: ClassTable, d: Derivation, es: seq<Event>, className: string, org: string,
                                       key: string, w: Window)
    requires Target(t, className, org, key, w)
    ensures Inv(t, Run(t, d, es), key, w)
  {
    if es != [] {
      RunKeepsInv(t, d, es[..|es| - 1], className, org, key, w);
      StepKeepsInv(t, d, Run(t, d, es[..|es| - 1]), es[|es| - 1], className, org, key, w);
    }
  }

  lemma SpenderIsEntitled(s: State, c: Charge, className: string, org: string, key: string)
    requires ChargeOk(s, c) && ':' !in s.requests[c.request].route.className && ':' !in className
    requires c.key == key == OrgKey(className, org)
    ensures Spender(s, c, className, org)
  {
    SameKeySameNames(key, s.requests[c.request].route.className, c.scope, c.identifier, className, org);
  }

  lemma SameKeySameNames(key: string, name: string, scope: Scope, identifier: string, className: string, org: string)
    requires ':' !in name && ':' !in className
    requires key == SlidingWindowKey(name, scope, identifier) && key == OrgKey(className, org)
    ensures name == className && scope == PerOrganization && identifier == org
  {
    Charging.KeysAreInjective(name, scope, identifier, className, PerOrganization, org);
  }

  /** The charge is of a request of the class, resolved to that organisation and past
      authorization where its route names a permission. */
  ghost predicate Spender(s: State, c: Charge, className: string, org: string) {
    && c.request in s.requests
    && var r := s.requests[c.request];
       && r.route.className == className
       && r.written.tenant.Some? && r.written.tenant.value.organizationId == org
       && Entitled(r)
  }

  /** Only requests past tenant resolution, and past authorization where the route names a
      permission, ever add to an organisation's window, and only to their own's. */
  lemma OnlyEntitledRequestsSpend(t: ClassTable, d: Derivation, es: seq<Event>, className: string, org: string,
                                  w: Window)
    requires Target(t, className, org, OrgKey(className, org), w)
    ensures forall c | c in Run(t, d, es).charges && c.key == OrgKey(className, org) ::
      Spender(Run(t, d, es), c, className, org)
  {
    RunKeepsInv(t, d, es, className, org, OrgKey(className, org), w);
    SpendersAreEntitled(t, Run(t, d, es), className, org, OrgKey(className, org), w);
  }

  lemma SpendersAreEntitled(t: ClassTable, s: State, className: string, org: string, key: string, w: Window)
    requires Target(t, className, org, key, w) && Inv(t, s, key, w)
    ensures forall c | c in s.charges && c.key == key :: Spender(s, c, className, org)
  {
    forall c | c in s.charges && c.key == key ensures Spender(s, c, className, org) {
      assert ChargeOk(s, c) && LocalOk(t, s.requests[c.request]);
      SpenderIsEntitled(s, c, className, org, key);
    }
  }

  // ----- the limit --------------------------------------------------------------------

  lemma {:induction false} OnKeyFrom(key: string, cs: seq<Charge>, starts: map<nat, real>, a: Attempt)
    requires a in OnKey(key, cs, starts)
    ensures exists c :: c in cs && c.key == key && a == AttemptOf(c, starts)
  {
    var last, prev := cs[|cs| - 1], cs[..|cs| - 1];
    if a in OnKey(key, prev, starts) {
      OnKeyFrom(key, prev, starts, a);
      var c :| c in prev && c.key == key && a == AttemptOf(c, starts);
      assert c in cs;
    } else {
      assert last in cs && a == AttemptOf(last, starts);
    }
  }

  ghost predicate Ordered(cs: seq<Charge>) {
    forall i, j | 0 <= i < j < |cs| :: cs[i].at <= cs[j].at && cs[i].uuid != cs[j].uuid
  }

  lemma {:induction false} OnKeyInOrder(key: string, cs: seq<Charge>, starts: map<nat, real>)
    requires Ordered(cs)
    ensures InOrder(OnKey(key, cs, starts))
  {
    if cs != [] {
      var n := |cs| - 1;
      OnKeyInOrder(key, cs[..n], starts);
      var es := OnKey(key, cs[..n], starts);
      forall i | 0 <= i < |es| ensures es[i].at <= cs[n].at && es[i].member.uuid != cs[n].uuid {
        OnKeyFrom(key, cs[..n], starts, es[i]);
        var c :| c in cs[..n] && c.key == key && es[i] == AttemptOf(c, starts);
        var k :| 0 <= k < n && cs[k] == c;
      }
    }
  }

  /** When handlers start has no effect on what the window does. */
  lemma {:induction false} StartsDoNotMatter(w: Window, key: string, cs: seq<Charge>, starts: map<nat, real>)
    ensures After(w, OnKey(key, cs, map[])) == After(w, OnKey(key, cs, starts))
  {
    if cs != [] {
      var last, prev := cs[|cs| - 1], cs[..|cs| - 1];
      StartsDoNotMatter(w, key, prev, starts);
      SnocRun(w, OnKey(key, prev, map[]), AttemptOf(last, map[]));
      SnocRun(w, OnKey(key, prev, starts), AttemptOf(last, starts));
      assert OnKey(key, prev, map[]) + [] == OnKey(key, prev, map[])
        && OnKey(key, prev, starts) + [] == OnKey(key, prev, starts);
    }
  }

  /** Nor on which of its charges it admits. */
  lemma {:induction false} AdmittedWhateverStarts(w: Window, key: string, cs: seq<Charge>, starts: map<nat, real>,
                                                  c: Charge)
    requires AttemptOf(c, map[]) in SlidingWindow.Admitted(w, OnKey(key, cs, map[]))
    ensures AttemptOf(c, starts) in SlidingWindow.Admitted(w, OnKey(key, cs, starts))
  {
    var last, prev := cs[|cs| - 1], cs[..|cs| - 1];
    var es, es' := OnKey(key, prev, map[]), OnKey(key, prev, starts);
    assert es + [] == es && es' + [] == es';
    StartsDoNotMatter(w, key, prev, starts);
    SnocRun(w, es, AttemptOf(last, map[]));
    SnocRun(w, es', AttemptOf(last, starts));
    if AttemptOf(c, map[]) in SlidingWindow.Admitted(w, es) {
      AdmittedWhateverStarts(w, key, prev, starts, c);
    } else {
      assert AttemptOf(c, map[]) == AttemptOf(last, map[]);
    }
  }

  /** Timestamps run at most `ahead` before Redis's clock, and neither the command nor the
      handler it admits comes more than `behind` after the timestamp. */
  ghost predicate ClocksAgree(s: State, key: string, behind: real, ahead: real) {
    forall c | c in s.charges && c.key == key ::
      && c.now as real <= c.at + ahead && c.at <= c.now as real + behind
      && (c.uuid in s.starts ==> s.starts[c.uuid] <= c.now as real + behind)
  }

  /** The requests of a class and an organisation whose handler started in the span. */
  ghost function Started(s: State, className: string, org: string, span: real -> bool): set<nat> {
    set id | id in s.requests
      && s.requests[id].route.className == className && !s.requests[id].route.exempt
      && s.requests[id].written.organizationId == Some(org)
      && s.requests[id].startedAt.Some? && span(s.requests[id].startedAt.value)
  }

  ghost predicate Has(es: seq<Attempt>, uuid: nat) {
    exists i | 0 <= i < |es| :: es[i].member.uuid == uuid
  }

  lemma {:induction false} FitsIn(ids: set<nat>, uuidOf: map<nat, nat>, es: seq<Attempt>)
    requires ids <= uuidOf.Keys
    requires forall a, b | a in ids && b in ids && a != b :: uuidOf[a] != uuidOf[b]
    requires forall id | id in ids :: Has(es, uuidOf[id])
    ensures |ids| <= |es|
    decreases |es|
  {
    if id :| id in ids {
      assert Has(es, uuidOf[id]);
      var n := |es| - 1;
      if h :| h in ids && uuidOf[h] == es[n].member.uuid {
        FitsInRest(ids - {h}, uuidOf, es);
        FitsIn(ids - {h}, uuidOf, es[..n]);
      } else {
        FitsInRest(ids, uuidOf, es);
        FitsIn(ids, uuidOf, es[..n]);
      }
    }
  }

  lemma FitsInRest(ids: set<nat>, uuidOf: map<nat, nat>, es: seq<Attempt>)
    requires ids <= uuidOf.Keys && es != []
    requires forall id | id in ids :: Has(es, uuidOf[id]) && uuidOf[id] != es[|es| - 1].member.uuid
    ensures forall id | id in ids :: Has(es[..|es| - 1], uuidOf[id])
  {
    forall id | id in ids ensures Has(es[..|es| - 1], uuidOf[id]) {
      var i :| 0 <= i < |es| && es[i].member.uuid == uuidOf[id];
      assert es[..|es| - 1][i] == es[i];
    }
  }

  /** THE LIMIT OVER WHOLE RUNS. However the requests of all tenants are interleaved and
      whatever Redis loses, a fail-closed class that declares a per-organisation window
      starts at most `limit` handlers per organisation in any span of instants no two of
      which are `windowMs - (behind + ahead)` apart. */
  lemma HandlersPerOrganizationAreBounded(t: ClassTable, d: Derivation, es: seq<Event>, className: string, org: string,
                                          w: Window, span: real -> bool, behind: real, ahead: real)
    requires Target(t, className, org, OrgKey(className, org), w) && t[className].failMode.Closed?
    requires behind + ahead >= 0.0 && ClocksAgree(Run(t, d, es), OrgKey(className, org), behind, ahead)
    requires forall x, y | span(x) && span(y) :: y - x < w.Ms() as real - (behind + ahead)
    ensures |Started(Run(t, d, es), className, org, span)| <= w.limit
  {
    RunKeepsInv(t, d, es, className, org, OrgKey(className, org), w);
    StartsAreBounded(t, Run(t, d, es), className, org, OrgKey(className, org), w, span, behind, ahead);
  }

  lemma StartsAreBounded(t: ClassTable, s: State, className: string, org: string, key: string,
                         w: Window, span: real -> bool, behind: real, ahead: real)
    requires Target(t, className, org, key, w) && t[className].failMode.Closed? && Inv(t, s, key, w)
    requires behind + ahead >= 0.0 && ClocksAgree(s, key, behind, ahead)
    requires forall x, y | span(x) && span(y) :: y - x < w.Ms() as real - (behind + ahead)
    ensures |Started(s, className, org, span)| <= w.limit
  {
    var counted := Within(SlidingWindow.Admitted(w, OnKey(key, s.charges, s.starts)), span);
    var ids := Started(s, className, org, span);
    forall id | id in ids ensures s.requests[id].admission.Some? && Has(counted, s.requests[id].admission.value) {
      assert LocalOk(t, s.requests[id]);
      var a := StartIsCounted(t, s, id, className, org, key, w, span);
      var i :| 0 <= i < |counted| && counted[i] == a;
    }
    StartsHaveTheirOwnAdmissions(s, ids);
    FitsIn(ids, map id | id in ids :: s.requests[id].admission.value, counted);
    CountedAreBounded(s, key, w, span, behind, ahead);
  }

  lemma StartsHaveTheirOwnAdmissions(s: State, ids: set<nat>)
    requires HistoryOk(s) && ids <= s.requests.Keys
    requires forall id | id in ids :: AdmissionOk(s, id, s.requests[id]) && s.requests[id].admission.Some?
    ensures forall a, b | a in ids && b in ids && a != b :: s.requests[a].admission != s.requests[b].admission
  {
    forall a, b | a in ids && b in ids && a != b ensures s.requests[a].admission != s.requests[b].admission {
      AdmissionsDiffer(s, a, b);
    }
  }

  lemma CountedAreBounded(s: State, key: string, w: Window, span: real -> bool, behind: real, ahead: real)
    requires HistoryOk(s) && StartsOk(s) && w.windowSeconds >= 1
    requires behind + ahead >= 0.0 && ClocksAgree(s, key, behind, ahead)
    requires forall x, y | span(x) && span(y) :: y - x < w.Ms() as real - (behind + ahead)
    ensures |Within(SlidingWindow.Admitted(w, OnKey(key, s.charges, s.starts)), span)| <= w.limit
  {
    OnKeyInOrder(key, s.charges, s.starts);
    AttemptsAreSkewed(s, key, w, behind, ahead);
    AtMostLimitPerWindow(w, OnKey(key, s.charges, s.starts), span, behind, ahead);
  }

  lemma AttemptsAreSkewed(s: State, key: string, w: Window, behind: real, ahead: real)
    requires HistoryOk(s) && StartsOk(s) && ClocksAgree(s, key, behind, ahead)
    ensures Skewed(w, OnKey(key, s.charges, s.starts), behind, ahead)
  {
    var attempts := OnKey(key, s.charges, s.starts);
    forall i | 0 <= i < |attempts| ensures attempts[i].now as real <= attempts[i].at + ahead {
      OnKeyFrom(key, s.charges, s.starts, attempts[i]);
    }
    AdmittedAreAttempts(w, attempts);
    forall a | a in SlidingWindow.Admitted(w, attempts) ensures a.at <= a.event <= a.now as real + behind {
      OnKeyFrom(key, s.charges, s.starts, a);
    }
  }

  lemma {:induction false} WithinHas(es: seq<Attempt>, span: real -> bool, a: Attempt)
    requires a in es && span(a.event)
    ensures a in Within(es, span)
  {
    if a != es[|es| - 1] {
      assert a in es[..|es| - 1];
      WithinHas(es[..|es| - 1], span, a);
    }
  }

  /** A handler's start is one of the admissions counted. */
  lemma StartIsCounted(t: ClassTable, s: State, id: nat, className: string, org: string, key: string, w: Window,
                       span: real -> bool)
    returns (a: Attempt)
    requires Target(t, className, org, key, w) && Inv(t, s, key, w)
    requires id in Started(s, className, org, span) && s.requests[id].admission.Some?
    ensures a in Within(SlidingWindow.Admitted(w, OnKey(key, s.charges, s.starts)), span)
    ensures a.member.uuid == s.requests[id].admission.value
  {
    var r := s.requests[id];
    assert AdmissionOk(s, id, r) && LocalOk(t, r);
    var c :| c in s.charges && c.request == id && c.uuid == r.admission.value && c.scope.PerOrganization?;
    assert ChargeOk(s, c);
    AdmittedWhateverStarts(w, key, s.charges, s.starts, c);
    a := AttemptOf(c, s.starts);
    WithinHas(SlidingWindow.Admitted(w, OnKey(key, s.charges, s.starts)), span, a);
  }
}
