/** The rate-limit guard: one pass over the scopes of its phase. */
module RateLimit {
  import opened Wrappers
  import opened SlidingWindow
  import JsText

  datatype Scope = PerIp | PerPrincipal | PerOrganization

  datatype Phase = Edge | Tenant

  /** In the order the guard evaluates them. */
  const SCOPES := [PerIp, PerPrincipal, PerOrganization]

  function PhaseOf(s: Scope): Phase {
    if s.PerOrganization? then Tenant else Edge
  }

  function InPhase(p: Phase, scopes: seq<Scope>): seq<Scope> {
    if scopes == [] then []
    else if PhaseOf(scopes[0]) == p then [scopes[0]] + InPhase(p, scopes[1..])
    else InPhase(p, scopes[1..])
  }

  /** The scopes a pass owns. */
  function ScopesOf(p: Phase): (scopes: seq<Scope>)
    ensures scopes == match p { case Edge => [PerIp, PerPrincipal] case Tenant => [PerOrganization] }
  {
    assert SCOPES[1..] == [PerPrincipal, PerOrganization] && SCOPES[1..][1..] == [PerOrganization];
    InPhase(p, SCOPES)
  }

  datatype PrincipalSource = Authenticated | BodyField(field: string)

  datatype FailMode = Open | Closed

  datatype ClassConfig = ClassConfig(
    perIp: Option<Window>,
    perPrincipal: Option<Window>,
    perOrganization: Option<Window>,
    principalSource: Option<PrincipalSource>,
    failMode: FailMode)

  function WindowOf(c: ClassConfig, s: Scope): Option<Window> {
    match s
    case PerIp => c.perIp
    case PerPrincipal => c.perPrincipal
    case PerOrganization => c.perOrganization
  }

  datatype BodyValue = Text(s: string) | NotText

  datatype Body = NotAnObject | Fields(m: map<string, BodyValue>)

  /** The request properties the guard keys on. */
  datatype Keyable = Keyable(
    ip: Option<string>,
    remoteAddress: Option<string>,
    principalId: Option<string>,
    organizationId: Option<string>,
    body: Body)

  /** How identifiers are derived: the address bucket and the account digest. */
  datatype Derivation = Derivation(normaliseIp: string -> string, hashIdentifier: string -> string)

  function ResolveIdentifier(s: Scope, r: Keyable, c: ClassConfig, d: Derivation): Option<string> {
    match s
    case PerIp =>
      if r.ip.Some? then Some(d.normaliseIp(r.ip.value))
      else if r.remoteAddress.Some? then Some(d.normaliseIp(r.remoteAddress.value))
      else None
    case PerPrincipal =>
      if c.principalSource.None? || c.principalSource.value.Authenticated? then r.principalId
      else
        var field := c.principalSource.value.field;
        if r.body.NotAnObject? || field !in r.body.m || r.body.m[field].NotText? then None
        else if JsText.Trim(r.body.m[field].s) == "" then None
        else Some(d.hashIdentifier(r.body.m[field].s))
    case PerOrganization => r.organizationId
  }

  function ScopeName(s: Scope): string {
    match s
    case PerIp => "perIp"
    case PerPrincipal => "perPrincipal"
    case PerOrganization => "perOrganization"
  }

  function SlidingWindowKey(className: string, s: Scope, identifier: string): string {
    "ratelimit:" + (className + ":" + (ScopeName(s) + ":" + identifier))
  }

  /** What becomes of one command: answered, never executed, or executed with the answer lost. */
  datatype Fate = Answered | Unreachable | ReplyLost

  /** One pass of one request: its class, the timestamp the pass read, and what the outside
      world does with the command each scope issues. */
  datatype Call = Call(
    className: string,
    config: ClassConfig,
    request: Keyable,
    derivation: Derivation,
    now: int,
    at: Scope -> real,
    uuid: Scope -> nat,
    fate: Scope -> Fate)

  datatype PassState = PassState(
    keys: Keys,
    decisions: seq<WindowDecision>,
    charged: seq<Scope>,
    unresolved: seq<Scope>,
    declared: nat,
    failed: bool)

  function Start(keys: Keys): PassState {
    PassState(keys, [], [], [], 0, false)
  }

  function KeyOf(c: Call, s: Scope, id: string): string {
    SlidingWindowKey(c.className, s, id)
  }

  function Identifier(c: Call, s: Scope): Option<string> {
    ResolveIdentifier(s, c.request, c.config, c.derivation)
  }

  /** One turn of the loop. */
  function ScopeStep(c: Call, ps: PassState, s: Scope): PassState {
    if WindowOf(c.config, s).None? then ps
    else if Identifier(c, s).None? then ps.(declared := ps.declared + 1, unresolved := ps.unresolved + [s])
    else if c.fate(s).Unreachable? then ps.(declared := ps.declared + 1, failed := true)
    else
      var window, key := WindowOf(c.config, s).value, KeyOf(c, s, Identifier(c, s).value);
      var consumed := Consume(SlotOf(ps.keys, key), c.at(s), c.now, window, Member(c.now, c.uuid(s)));
      var next := ps.(keys := PutSlot(ps.keys, key, consumed.slot), charged := ps.charged + [s],
                      declared := ps.declared + 1);
      if c.fate(s).ReplyLost? then next.(failed := true)
      else next.(decisions := ps.decisions + [Decide(consumed.reply, window, c.now)])
  }

  predicate Stopped(ps: PassState) {
    ps.failed || (ps.decisions != [] && !ps.decisions[|ps.decisions| - 1].allowed)
  }

  function RunScopes(c: Call, ps: PassState, scopes: seq<Scope>): PassState
    decreases |scopes|
  {
    if scopes == [] || Stopped(ps) then ps else RunScopes(c, ScopeStep(c, ps, scopes[0]), scopes[1..])
  }

  datatype Verdict = Pass | Limited(retryAfterSeconds: Option<nat>)

  datatype GuardResult = GuardResult(verdict: Verdict, headers: Option<WindowDecision>)

  function ApplyFailMode(m: FailMode): GuardResult {
    GuardResult(if m.Open? then Pass else Limited(None), None)
  }

  /** The refusal if there is one, otherwise the window with the least room left. */
  function Tighter(a: WindowDecision, b: WindowDecision): WindowDecision {
    if b.allowed != a.allowed then (if b.allowed then a else b)
    else if b.remaining < a.remaining then b else a
  }

  function Tightest(ds: seq<WindowDecision>): WindowDecision
    requires ds != []
  {
    if |ds| == 1 then ds[0] else Tighter(Tightest(ds[..|ds| - 1]), ds[|ds| - 1])
  }

  function Finish(m: FailMode, ps: PassState): GuardResult {
    if ps.failed then ApplyFailMode(m)
    else if ps.decisions == [] then (if ps.declared > 0 then ApplyFailMode(m) else GuardResult(Pass, None))
    else
      var worst := Tightest(ps.decisions);
      GuardResult(if worst.allowed then Pass else Limited(Some(worst.resetSeconds)), Some(worst))
  }

  /** What one pass does to the keys and what it answers. */
  function PassOf(c: Call, phase: Phase, keys: Keys): PassState {
    RunScopes(c, Start(keys), ScopesOf(phase))
  }

  datatype LogLine =
    | BackendUnavailable | BackendRecovered | LimitNotApplied(scopes: seq<Scope>) | NothingResolved(warn: bool)

  function NotApplied(unreported: seq<Scope>): seq<LogLine> {
    if unreported == [] then [] else [LimitNotApplied(unreported)]
  }

  class RateLimitGuard {
    const redis: Redis
    const phase: Phase
    var backendDown: bool
    var unresolvedWarned: set<(string, Scope)>
    var log: seq<LogLine>

    constructor (redis: Redis, phase: Phase)
      ensures this.redis == redis && this.phase == phase
      ensures !backendDown && unresolvedWarned == {} && log == []
    {
      this.redis := redis;
      this.phase := phase;
      backendDown, unresolvedWarned, log := false, {}, [];
    }

    /** The loop over the scopes of this phase, up to the first refusal or failure. */
    method ConsumeScopes(c: Call)
      returns (decisions: seq<WindowDecision>, unresolved: seq<Scope>, declared: nat, failed: bool,
        ghost charged: seq<Scope>)
      modifies redis
      ensures PassOf(c, phase, old(redis.keys))
        == PassState(redis.keys, decisions, charged, unresolved, declared, failed)
    {
      var scopes := ScopesOf(phase);
      decisions, unresolved, declared, failed, charged := [], [], 0, false, [];
      var i := 0;
      while i < |scopes|
        invariant 0 <= i <= |scopes|
        invariant var ps := PassState(redis.keys, decisions, charged, unresolved, declared, failed);
          !Stopped(ps) && RunScopes(c, ps, scopes[i..]) == RunScopes(c, Start(old(redis.keys)), scopes)
      {
        var s := scopes[i];
        assert scopes[i..][0] == s && scopes[i..][1..] == scopes[i + 1..];
        i := i + 1;
        if WindowOf(c.config, s).None? {
          continue;
        }
        var window := WindowOf(c.config, s).value;
        declared := declared + 1;
        var identifier := Identifier(c, s);
        if identifier.None? {
          unresolved := unresolved + [s];
          continue;
        }
        if c.fate(s).Unreachable? {
          failed := true;
          return;
        }
        var decision := ConsumeSlidingWindow(redis, KeyOf(c, s, identifier.value), c.at(s), c.now, window, c.uuid(s));
        charged := charged + [s];
        if c.fate(s).ReplyLost? {
          failed := true;
          return;
        }
        decisions := decisions + [decision];
        if !decision.allowed {
          return;
        }
      }
    }

    /** The unresolved scopes of a fail-closed class are reported once per process. */
    method WarnUnresolved(className: string, unresolved: seq<Scope>)
      modifies this`unresolvedWarned, this`log
      ensures unresolvedWarned == old(unresolvedWarned) + set s | s in unresolved :: (className, s)
      ensures var unreported := old(Unreported(className, unresolved));
        log == old(log) + NotApplied(unreported)
    {
      var unreported := Unreported(className, unresolved);
      if unreported != [] {
        unresolvedWarned := unresolvedWarned + set s | s in unreported :: (className, s);
        log := log + [LimitNotApplied(unreported)];
      }
      assert forall s | s in unresolved :: s in unreported || (className, s) in old(unresolvedWarned);
    }

    /** The last observed state of the backend changes only when a command was issued: it
        goes down on a failure and up on an answer, and only a change is logged. */
    method CanActivate(c: Call, exempt: bool) returns (r: GuardResult)
      modifies this, redis
      ensures exempt ==> r == GuardResult(Pass, None) && unchanged(this) && unchanged(redis)
      ensures !exempt ==>
        var ps := PassOf(c, phase, old(redis.keys));
        && r == Finish(c.config.failMode, ps)
        && redis.keys == ps.keys
        && backendDown == (ps.failed || (old(backendDown) && ps.decisions == []))
        && (ps.failed ==> log == old(log) + if old(backendDown) then [] else [BackendUnavailable])
        && (!ps.failed && ps.decisions == [] ==>
              log == old(log) + if ps.declared > 0 then [NothingResolved(c.config.failMode.Closed?)] else [])
        && (!ps.failed && ps.decisions != [] ==>
              log == old(log) + (if old(backendDown) then [BackendRecovered] else [])
                + if c.config.failMode.Closed? then NotApplied(old(Unreported(c.className, ps.unresolved))) else [])
        && unresolvedWarned == old(unresolvedWarned) +
             (if !ps.failed && ps.decisions != [] && c.config.failMode.Closed?
              then set s | s in ps.unresolved :: (c.className, s) else {})
    {
      if exempt {
        return GuardResult(Pass, None);
      }
      var decisions, unresolved, declared, failed, charged := ConsumeScopes(c);
      if failed {
        if !backendDown {
          backendDown := true;
          log := log + [BackendUnavailable];
        }
        return ApplyFailMode(c.config.failMode);
      }
      if backendDown && decisions != [] {
        backendDown := false;
        log := log + [BackendRecovered];
      }
      ghost var before := log;
      if unresolved != [] && decisions != [] && c.config.failMode.Closed? {
        WarnUnresolved(c.className, unresolved);
      }
      assert log == before + if decisions != [] && c.config.failMode.Closed?
                             then NotApplied(old(Unreported(c.className, unresolved))) else [];
      if declared > 0 && decisions == [] {
        log := log + [NothingResolved(c.config.failMode.Closed?)];
        return ApplyFailMode(c.config.failMode);
      }
      if decisions == [] {
        return GuardResult(Pass, None);
      }
      var worst := Tightest(decisions);
      r := GuardResult(if worst.allowed then Pass else Limited(Some(worst.resetSeconds)), Some(worst));
    }

    function Unreported(className: string, scopes: seq<Scope>): (r: seq<Scope>)
      reads this`unresolvedWarned
      ensures forall s :: s in r <==> s in scopes && (className, s) !in unresolvedWarned
    {
      if scopes == [] then []
      else (if (className, scopes[0]) in unresolvedWarned then [] else [scopes[0]]) + Unreported(className, scopes[1..])
    }
  }
}
