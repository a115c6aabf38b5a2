/** The guard pipeline as a state machine. Requests are served concurrently; every guard,
    and within a limiter pass every command, is one step of one request. */
module Pipeline {
  import opened Wrappers
  import opened SlidingWindow
  import opened RateLimit
  import G = Guards

  type ClassTable = map<string, ClassConfig>

  /** What a route declares. */
  datatype Route = Route(access: Option<G.Access>, className: string, exempt: bool, allowsPendingMfa: bool)

  /** What arrives: the credential read from the cookie header, the address and the body. */
  datatype Incoming = Incoming(token: Option<string>, ip: Option<string>, remoteAddress: Option<string>, body: Body)

  /** The guards in the order they are registered, then the handler. */
  datatype Stage =
    | EdgeLimit | Authenticate | TenantResolve | Csrf | CrossSite | EmailVerified | MfaEnrolment
    | Authorize | TenantLimit | Entitlement | Handler | Done

  function Rank(s: Stage): nat {
    match s
    case EdgeLimit => 0
    case Authenticate => 1
    case TenantResolve => 2
    case Csrf => 3
    case CrossSite => 4
    case EmailVerified => 5
    case MfaEnrolment => 6
    case Authorize => 7
    case TenantLimit => 8
    case Entitlement => 9
    case Handler => 10
    case Done => 11
  }

  function NextStage(s: Stage): (next: Stage)
    ensures Rank(next) == if s.Done? then Rank(s) else Rank(s) + 1
  {
    match s
    case EdgeLimit => Authenticate
    case Authenticate => TenantResolve
    case TenantResolve => Csrf
    case Csrf => CrossSite
    case CrossSite => EmailVerified
    case EmailVerified => MfaEnrolment
    case MfaEnrolment => Authorize
    case Authorize => TenantLimit
    case TenantLimit => Entitlement
    case Entitlement => Handler
    case Handler => Done
    case Done => Done
  }

  /** The order in which a request meets the guards. */
  const ORDER := [EdgeLimit, Authenticate, TenantResolve, Csrf, CrossSite, EmailVerified, MfaEnrolment,
                  Authorize, TenantLimit, Entitlement, Handler, Done]

  lemma StagesInOrder(i: nat)
    requires i < 12
    ensures Rank(ORDER[i]) == i && (i < 11 ==> NextStage(ORDER[i]) == ORDER[i + 1])
  {
  }

  /** A limiter pass under way: the timestamp it read and the scopes it has yet to take. */
  datatype InPass = InPass(now: nat, todo: seq<Scope>, decisions: seq<WindowDecision>, declared: nat, failed: bool)

  datatype RequestState = RequestState(
    route: Route,
    incoming: Incoming,
    stage: Stage,
    pass: Option<InPass>,
    written: G.Written,
    headers: Option<WindowDecision>,
    refusal: Option<G.Refusal>,
    admission: Option<nat>,      // the command that admitted it to its organisation's window
    startedAt: Option<real>)     // when its handler started

  /** A command the limiter issued that Redis executed. */
  datatype Charge = Charge(request: nat, scope: Scope, identifier: string, key: string, at: real, now: nat, uuid: nat)

  datatype State = State(
    keys: Keys,
    clock: real,
    requests: map<nat, RequestState>,
    charges: seq<Charge>,
    starts: map<nat, real>)      // handler starts, by the command that admitted them

  const INITIAL := State(map[], 0.0, map[], [], map[])

  /** Everything a step learns from outside the process. */
  datatype Input = Input(
    time: real,
    now: nat,
    uuid: nat,
    fate: Fate,
    session: G.SessionResolution,
    tenancy: G.Tenancy,
    gate: Option<G.Refusal>)

  datatype Event =
    | Arrive(id: nat, route: Route, incoming: Incoming)
    | Advance(id: nat, input: Input)

  function NewRequest(route: Route, incoming: Incoming): RequestState {
    RequestState(route, incoming, EdgeLimit, None, G.NOTHING_WRITTEN, None, None, None, None)
  }

  function KeyableOf(r: RequestState): Keyable {
    Keyable(r.incoming.ip, r.incoming.remoteAddress, None, r.written.organizationId, r.incoming.body)
  }

  function CallOf(t: ClassTable, d: Derivation, r: RequestState, now: nat, x: Input): Call
    requires r.route.className in t
  {
    Call(r.route.className, t[r.route.className], KeyableOf(r), d, now, _ => x.time, _ => x.uuid, _ => x.fate)
  }

  /** The guards other than the limiter. */
  function GuardStep(r: RequestState, x: Input): G.Guarded {
    match r.stage
    case Authenticate =>
      G.Authenticate(r.route.access, r.route.allowsPendingMfa, r.incoming.token, r.written, x.session)
    case TenantResolve => G.ResolveContext(r.route.access, r.written, x.tenancy)
    case Authorize => G.Authorize(r.route.access, r.written)
    case _ => G.Guarded(r.written, x.gate)
  }

  function AfterGuard(r: RequestState, g: G.Guarded): RequestState {
    if g.refusal.Some? then r.(written := g.written, refusal := g.refusal, stage := Done)
    else r.(written := g.written, stage := NextStage(r.stage))
  }

  function PhaseAt(s: Stage): Phase {
    if s.TenantLimit? then Tenant else Edge
  }

  function PassStateOf(p: InPass, keys: Keys): PassState {
    PassState(keys, p.decisions, [], [], p.declared, p.failed)
  }

  predicate PassOver(p: InPass) {
    p.todo == [] || Stopped(PassStateOf(p, map[]))
  }

  /** The end of a pass: headers, and the verdict. */
  function EndPass(m: FailMode, r: RequestState, p: InPass): RequestState {
    var result := Finish(m, PassStateOf(p, map[]));
    var headers := if result.headers.Some? then result.headers else r.headers;
    if result.verdict.Pass? then r.(pass := None, headers := headers, stage := NextStage(r.stage))
    else r.(pass := None, headers := headers, stage := Done,
            refusal := Some(G.Refusal(G.RateLimited, 429, G.RetryAfter(result.verdict.retryAfterSeconds))))
  }

  /** The record of the command that a scope step issued. */
  function ChargeOf(id: nat, call: Call, scope: Scope, x: Input): Charge
    requires call.now >= 0
  {
    var identifier := Identifier(call, scope);
    var name := if identifier.Some? then identifier.value else "";
    Charge(id, scope, name, KeyOf(call, scope, name), x.time, call.now, x.uuid)
  }

  function LimiterStep(t: ClassTable, d: Derivation, s: State, id: nat, x: Input): State
    requires id in s.requests && s.requests[id].route.className in t
  {
    var r := s.requests[id];
    var config := t[r.route.className];
    if r.route.exempt then s.(requests := s.requests[id := r.(stage := NextStage(r.stage))])
    else if r.pass.None? then
      s.(requests := s.requests[id := r.(pass := Some(InPass(x.now, ScopesOf(PhaseAt(r.stage)), [], 0, false)))])
    else if PassOver(r.pass.value) then
      s.(requests := s.requests[id := EndPass(config.failMode, r, r.pass.value)])
    else if exists c | c in s.charges :: c.uuid == x.uuid then s
    else TakeScope(t, d, s, id, x)
  }

  /** One turn of the limiter's loop: at most one command. */
  function TakeScope(t: ClassTable, d: Derivation, s: State, id: nat, x: Input): State
    requires id in s.requests && s.requests[id].route.className in t
    requires s.requests[id].pass.Some? && s.requests[id].pass.value.todo != []
  {
    var r := s.requests[id];
    var p := r.pass.value;
    var call := CallOf(t, d, r, p.now, x);
    var scope := p.todo[0];
    ScopeTaken(s, id, ScopeStep(call, PassStateOf(p, s.keys), scope), ChargeOf(id, call, scope, x))
  }

  /** The state after a turn, given what the turn did and the record of its command, if any. */
  function ScopeTaken(s: State, id: nat, next: PassState, charge: Charge): State
    requires id in s.requests && s.requests[id].pass.Some? && s.requests[id].pass.value.todo != []
  {
    var r := s.requests[id];
    var p' := InPass(r.pass.value.now, r.pass.value.todo[1..], next.decisions, next.declared, next.failed);
    if next.charged == [] then s.(requests := s.requests[id := r.(pass := Some(p'))])
    else
      var admitted := r.stage.TenantLimit? && !next.failed && !Stopped(next);
      State(next.keys,
            s.clock,
            s.requests[id := r.(pass := Some(p'), admission := if admitted then Some(charge.uuid) else r.admission)],
            s.charges + [charge],
            s.starts)
  }

  function HandlerStep(s: State, id: nat, x: Input): State
    requires id in s.requests
  {
    var r := s.requests[id];
    s.(requests := s.requests[id := r.(stage := Done, startedAt := Some(x.time))],
       starts := if r.admission.Some? then s.starts[r.admission.value := x.time] else s.starts)
  }

  /** One step; an event that cannot happen changes nothing. */
  function Step(t: ClassTable, d: Derivation, s: State, e: Event): State {
    match e
    case Arrive(id, route, incoming) =>
      if id in s.requests || route.className !in t then s
      else s.(requests := s.requests[id := NewRequest(route, incoming)])
    case Advance(id, x) =>
      if id !in s.requests || x.time < s.clock then s
      else if s.requests[id].stage.Done? || s.requests[id].route.className !in t then s
      else
        var s1 := s.(clock := x.time);
        var r := s.requests[id];
        if r.stage.EdgeLimit? || r.stage.TenantLimit? then LimiterStep(t, d, s1, id, x)
        else if r.stage.Handler? then HandlerStep(s1, id, x)
        else s1.(requests := s1.requests[id := AfterGuard(r, GuardStep(r, x))])
  }

  function Run(t: ClassTable, d: Derivation, es: seq<Event>): State {
    if es == [] then INITIAL else Step(t, d, Run(t, d, es[..|es| - 1]), es[|es| - 1])
  }
}
