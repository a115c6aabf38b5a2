/** What one pass of the limiter answers, from what a request carries and what Redis says. */
module LimiterLaws {
  import opened Wrappers
  import opened SlidingWindow
  import opened RateLimit
  import opened Charging
  import JsText

  // ----- who is counted -----------------------------------------------------------

  /** An address is the client's as the framework sees it, or else the socket's. */
  lemma AddressIdentifies(r: Keyable, c: ClassConfig, d: Derivation, id: string)
    ensures ResolveIdentifier(PerIp, r, c, d) == Some(id) <==>
      || (r.ip.Some? && id == d.normaliseIp(r.ip.value))
      || (r.ip.None? && r.remoteAddress.Some? && id == d.normaliseIp(r.remoteAddress.value))
  {
  }

  /** The body names an account by a text that is not blank. */
  predicate NamesAccount(b: Body, field: string, text: string) {
    b.Fields? && field in b.m && b.m[field] == Text(text) && exists i | 0 <= i < |text| :: !JsText.IsBlank(text[i])
  }

  /** An account is the digest of the body field that the class names, when that is a text and
      not blank, and the authenticated principal when the class names no field. */
  lemma AccountIdentifies(r: Keyable, c: ClassConfig, d: Derivation, id: string)
    ensures ResolveIdentifier(PerPrincipal, r, c, d) == Some(id) <==>
      match c.principalSource
      case Some(BodyField(f)) => exists text | NamesAccount(r.body, f, text) :: id == d.hashIdentifier(text)
      case _ => r.principalId == Some(id)
  {
    if c.principalSource.Some? && c.principalSource.value.BodyField? {
      var f := c.principalSource.value.field;
      if r.body.Fields? && f in r.body.m && r.body.m[f].Text? {
        var text := r.body.m[f].s;
        var before, after := JsText.TrimParts(text);
        assert NamesAccount(r.body, f, text) <==> JsText.Trim(text) != "" by {
          if !JsText.AllBlank(text) { var ch :| ch in text && !JsText.IsBlank(ch); }
        }
      }
    }
  }

  /** An organisation is the one that tenant resolution wrote. */
  lemma OrganizationIdentifies(r: Keyable, c: ClassConfig, d: Derivation)
    ensures ResolveIdentifier(PerOrganization, r, c, d) == r.organizationId
  {
  }

  // ----- what a scope says ---------------------------------------------------------

  /** The class declares this window for the scope. */
  predicate Declares(c: ClassConfig, s: Scope, w: Window) {
    || (s == PerIp && c.perIp == Some(w))
    || (s == PerPrincipal && c.perPrincipal == Some(w))
    || (s == PerOrganization && c.perOrganization == Some(w))
  }

  /** What a scope contributes to a pass: nothing, no answer, or a decision. */
  datatype Said = Silent | Unanswered | Decided(d: WindowDecision)

  /** The command of a scope on the windows as the pass found them. */
  function CommandOf(c: Call, keys: Keys, s: Scope): Consumed
    requires Resolves(c, s)
  {
    Consume(SlotOf(keys, KeyOf(c, s, Identifier(c, s).value)), c.at(s), c.now, WindowOf(c.config, s).value,
            Member(c.now, c.uuid(s)))
  }

  function Says(c: Call, keys: Keys, s: Scope): Said {
    if !Resolves(c, s) then Silent
    else if c.fate(s) != Answered then Unanswered
    else Decided(Decide(CommandOf(c, keys, s).reply, WindowOf(c.config, s).value, c.now))
  }

  /** The next scope is asked only after silence or an admission. */
  predicate GoesOn(said: Said) {
    said.Silent? || (said.Decided? && said.d.allowed)
  }

  /** The scopes that a pass gets to: the organisation's in the tenant phase; in the edge phase
      the address's, and after it the account's. */
  predicate Asked(c: Call, keys: Keys, phase: Phase, s: Scope) {
    match s
    case PerIp => phase == Edge
    case PerPrincipal => phase == Edge && GoesOn(Says(c, keys, PerIp))
    case PerOrganization => phase == Tenant
  }

  /** Redis executes the command of this scope. */
  predicate Executed(c: Call, s: Scope) {
    Resolves(c, s) && c.fate(s) != Unreachable
  }

  // ----- one pass ------------------------------------------------------------------

  /** The window of the scope is as the pass found it. */
  predicate Unspent(c: Call, ps: PassState, keys: Keys, s: Scope) {
    Resolves(c, s) ==>
      var key := KeyOf(c, s, Identifier(c, s).value);
      SlotOf(ps.keys, key) == SlotOf(keys, key)
  }

  /** What one turn adds to a pass. */
  predicate Adds(c: Call, ps: PassState, keys: Keys, s: Scope, next: PassState) {
    var said := Says(c, keys, s);
    && next.failed == (ps.failed || said.Unanswered?)
    && next.decisions == (if said.Decided? then ps.decisions + [said.d] else ps.decisions)
    && next.declared == (if WindowOf(c.config, s).Some? then ps.declared + 1 else ps.declared)
    && next.unresolved == (if WindowOf(c.config, s).Some? && Identifier(c, s).None? then ps.unresolved + [s]
                           else ps.unresolved)
    && next.charged == (if Executed(c, s) then ps.charged + [s] else ps.charged)
  }

  lemma StepSays(c: Call, ps: PassState, keys: Keys, s: Scope)
    requires Unspent(c, ps, keys, s)
    ensures Adds(c, ps, keys, s, ScopeStep(c, ps, s))
  {
  }

  lemma StepSpends(c: Call, ps: PassState, keys: Keys, s: Scope)
    requires Unspent(c, ps, keys, s)
    ensures Executed(c, s) ==>
      SlotOf(ScopeStep(c, ps, s).keys, KeyOf(c, s, Identifier(c, s).value)) == CommandOf(c, keys, s).slot
    ensures !Executed(c, s) ==> ScopeStep(c, ps, s).keys == ps.keys
  {
  }

  lemma EdgePass(c: Call, keys: Keys)
    ensures var one := ScopeStep(c, Start(keys), PerIp);
      PassOf(c, Edge, keys) == if Stopped(one) then one else ScopeStep(c, one, PerPrincipal)
  {
    var one := ScopeStep(c, Start(keys), PerIp);
    assert ScopesOf(Edge)[1..] == [PerPrincipal] && [PerPrincipal][1..] == [];
    assert PassOf(c, Edge, keys) == RunScopes(c, one, [PerPrincipal]);
    assert RunScopes(c, ScopeStep(c, one, PerPrincipal), []) == ScopeStep(c, one, PerPrincipal);
  }

  lemma TenantPass(c: Call, keys: Keys)
    ensures PassOf(c, Tenant, keys) == ScopeStep(c, Start(keys), PerOrganization)
  {
    assert [PerOrganization][1..] == [];
  }

  /** The windows of one class differ by their scope. */
  lemma ScopesDiffer(className: string, a: Scope, x: string, b: Scope, y: string)
    requires a != b
    ensures SlidingWindowKey(className, a, x) != SlidingWindowKey(className, b, y)
  {
    if SlidingWindowKey(className, a, x) == SlidingWindowKey(className, b, y) {
      var p, q := ScopeName(a) + ":" + x, ScopeName(b) + ":" + y;
      var before := "ratelimit:" + (className + ":");
      assert before + p == SlidingWindowKey(className, a, x) && before + q == SlidingWindowKey(className, b, y);
      assert p == (before + p)[|before|..] == (before + q)[|before|..] == q;
      JsText.SplitsAtFirst(ScopeName(a), x, ScopeName(b), y, ':');
      ScopeNamesDiffer(a, b);
    }
  }

  lemma AccountUnspent(c: Call, keys: Keys)
    ensures Unspent(c, ScopeStep(c, Start(keys), PerIp), keys, PerPrincipal)
  {
    if Resolves(c, PerPrincipal) && Resolves(c, PerIp) {
      ScopesDiffer(c.className, PerIp, Identifier(c, PerIp).value, PerPrincipal, Identifier(c, PerPrincipal).value);
    }
  }

  function DecisionsOf(said: Said): seq<WindowDecision> {
    if said.Decided? then [said.d] else []
  }

  function If(b: bool, s: Scope): seq<Scope> {
    if b then [s] else []
  }

  ghost predicate HasWindow(c: Call, s: Scope) { exists w :: Declares(c.config, s, w) }

  lemma HasWindowMeans(c: Call, s: Scope)
    ensures HasWindow(c, s) <==> WindowOf(c.config, s).Some?
  {
    if WindowOf(c.config, s).Some? { assert Declares(c.config, s, WindowOf(c.config, s).value); }
  }

  ghost predicate Unresolved(c: Call, s: Scope) { HasWindow(c, s) && Identifier(c, s).None? }

  /** A pass that asks one scope. */
  ghost predicate OneAsked(c: Call, keys: Keys, a: Scope, ps: PassState) {
    && ps.failed == (Says(c, keys, a) == Unanswered) && ps.decisions == DecisionsOf(Says(c, keys, a))
    && ps.declared == (if HasWindow(c, a) then 1 else 0)
    && ps.unresolved == If(Unresolved(c, a), a) && ps.charged == If(Executed(c, a), a)
  }

  /** A pass that asks two scopes. */
  ghost predicate TwoAsked(c: Call, keys: Keys, a: Scope, b: Scope, ps: PassState) {
    && ps.failed == (Says(c, keys, a) == Unanswered || Says(c, keys, b) == Unanswered)
    && ps.decisions == DecisionsOf(Says(c, keys, a)) + DecisionsOf(Says(c, keys, b))
    && ps.declared == (if HasWindow(c, a) then 1 else 0) + (if HasWindow(c, b) then 1 else 0)
    && ps.unresolved == If(Unresolved(c, a), a) + If(Unresolved(c, b), b)
    && ps.charged == If(Executed(c, a), a) + If(Executed(c, b), b)
  }

  lemma FirstAsked(c: Call, keys: Keys, a: Scope)
    ensures var one := ScopeStep(c, Start(keys), a);
      OneAsked(c, keys, a, one) && (Stopped(one) <==> !GoesOn(Says(c, keys, a)))
  {
    StepSays(c, Start(keys), keys, a);
    HasWindowMeans(c, a);
  }

  lemma SecondAsked(c: Call, keys: Keys, ps: PassState, a: Scope, b: Scope)
    requires OneAsked(c, keys, a, ps) && Unspent(c, ps, keys, b)
    ensures TwoAsked(c, keys, a, b, ScopeStep(c, ps, b))
  {
    StepSays(c, ps, keys, b);
    SecondAdds(c, keys, ps, a, b, ScopeStep(c, ps, b));
  }

  lemma SecondAdds(c: Call, keys: Keys, ps: PassState, a: Scope, b: Scope, next: PassState)
    requires OneAsked(c, keys, a, ps) && Adds(c, ps, keys, b, next)
    ensures TwoAsked(c, keys, a, b, next)
  {
    HasWindowMeans(c, b);
  }

  ghost predicate AsksPhase(c: Call, keys: Keys, phase: Phase, ps: PassState) {
    if phase.Tenant? then OneAsked(c, keys, PerOrganization, ps)
    else if GoesOn(Says(c, keys, PerIp)) then TwoAsked(c, keys, PerIp, PerPrincipal, ps)
    else OneAsked(c, keys, PerIp, ps)
  }

  lemma PassAsks(c: Call, phase: Phase, keys: Keys)
    ensures AsksPhase(c, keys, phase, PassOf(c, phase, keys))
  {
    if phase.Tenant? {
      TenantPass(c, keys);
      FirstAsked(c, keys, PerOrganization);
    } else {
      EdgePass(c, keys);
      FirstAsked(c, keys, PerIp);
      AccountUnspent(c, keys);
      SecondAsked(c, keys, ScopeStep(c, Start(keys), PerIp), PerIp, PerPrincipal);
    }
  }

  ghost predicate DecidesAsAsked(c: Call, keys: Keys, phase: Phase, ps: PassState) {
    && (ps.failed <==> exists s :: Asked(c, keys, phase, s) && Says(c, keys, s) == Unanswered)
    && (forall d :: d in ps.decisions <==> exists s :: Asked(c, keys, phase, s) && Says(c, keys, s) == Decided(d))
  }

  ghost predicate CountsAsAsked(c: Call, keys: Keys, phase: Phase, ps: PassState) {
    && (ps.declared > 0 <==> exists s :: Asked(c, keys, phase, s) && HasWindow(c, s))
    && (forall s :: s in ps.unresolved <==> Asked(c, keys, phase, s) && Unresolved(c, s))
  }

  ghost predicate ChargesAsAsked(c: Call, keys: Keys, phase: Phase, ps: PassState) {
    forall s :: s in ps.charged <==> Asked(c, keys, phase, s) && Executed(c, s)
  }

  lemma DecisionsOfTwo(a: Said, b: Said, d: WindowDecision)
    ensures d in DecisionsOf(a) + DecisionsOf(b) <==> a == Decided(d) || b == Decided(d)
  {
    assert d in DecisionsOf(a) + DecisionsOf(b) <==> d in DecisionsOf(a) || d in DecisionsOf(b);
  }

  lemma AskedOne(c: Call, keys: Keys, phase: Phase, a: Scope, ps: PassState, d: WindowDecision)
    requires OneAsked(c, keys, a, ps) && forall s :: Asked(c, keys, phase, s) <==> s == a
    ensures ps.failed <==> exists s :: Asked(c, keys, phase, s) && Says(c, keys, s) == Unanswered
    ensures d in ps.decisions <==> exists s :: Asked(c, keys, phase, s) && Says(c, keys, s) == Decided(d)
  {
    var said := Says(c, keys, a);
    assert Asked(c, keys, phase, a);
    assert d in DecisionsOf(said) <==> said == Decided(d);
  }

  lemma AskedTwo(c: Call, keys: Keys, phase: Phase, a: Scope, b: Scope, ps: PassState, d: WindowDecision)
    requires TwoAsked(c, keys, a, b, ps) && forall s :: Asked(c, keys, phase, s) <==> s == a || s == b
    ensures ps.failed <==> exists s :: Asked(c, keys, phase, s) && Says(c, keys, s) == Unanswered
    ensures d in ps.decisions <==> exists s :: Asked(c, keys, phase, s) && Says(c, keys, s) == Decided(d)
  {
    assert Asked(c, keys, phase, a) && Asked(c, keys, phase, b);
    DecisionsOfTwo(Says(c, keys, a), Says(c, keys, b), d);
  }

  lemma AskedScopes(c: Call, keys: Keys, phase: Phase, ps: PassState)
    requires AsksPhase(c, keys, phase, ps)
    ensures DecidesAsAsked(c, keys, phase, ps)
  {
    forall d ensures d in ps.decisions <==> exists s :: Asked(c, keys, phase, s) && Says(c, keys, s) == Decided(d) {
      if phase.Tenant? { AskedOne(c, keys, phase, PerOrganization, ps, d); }
      else if GoesOn(Says(c, keys, PerIp)) { AskedTwo(c, keys, phase, PerIp, PerPrincipal, ps, d); }
      else { AskedOne(c, keys, phase, PerIp, ps, d); }
    }
    var any := WindowDecision(false, 0, 0, 0);
    if phase.Tenant? { AskedOne(c, keys, phase, PerOrganization, ps, any); }
    else if GoesOn(Says(c, keys, PerIp)) { AskedTwo(c, keys, phase, PerIp, PerPrincipal, ps, any); }
    else { AskedOne(c, keys, phase, PerIp, ps, any); }
  }

  lemma CountedScopes(c: Call, keys: Keys, phase: Phase, ps: PassState)
    requires AsksPhase(c, keys, phase, ps)
    ensures CountsAsAsked(c, keys, phase, ps)
  {
    assert Asked(c, keys, phase, if phase.Tenant? then PerOrganization else PerIp);
    assert phase.Edge? && GoesOn(Says(c, keys, PerIp)) ==> Asked(c, keys, phase, PerPrincipal);
  }

  /** A PASS, SCOPE BY SCOPE. It fails exactly when a scope it gets to is not answered, and its
      decisions are those of the scopes it gets to, each on its window as the pass found it. */
  lemma PassAsksInOrder(c: Call, phase: Phase, keys: Keys)
    ensures DecidesAsAsked(c, keys, phase, PassOf(c, phase, keys))
  {
    PassAsks(c, phase, keys);
    AskedScopes(c, keys, phase, PassOf(c, phase, keys));
  }

  /** It counts and lists the declared scopes that it gets to, and charges those it can. */
  lemma PassCountsWhatItAsks(c: Call, phase: Phase, keys: Keys)
    ensures CountsAsAsked(c, keys, phase, PassOf(c, phase, keys))
    ensures ChargesAsAsked(c, keys, phase, PassOf(c, phase, keys))
  {
    PassAsks(c, phase, keys);
    CountedScopes(c, keys, phase, PassOf(c, phase, keys));
    ChargedScopes(c, keys, phase, PassOf(c, phase, keys));
  }

  lemma ChargedScopes(c: Call, keys: Keys, phase: Phase, ps: PassState)
    requires AsksPhase(c, keys, phase, ps)
    ensures ChargesAsAsked(c, keys, phase, ps)
  {
  }

  /** The windows of the scopes whose command was executed are as their commands left them. */
  lemma PassSpends(c: Call, phase: Phase, keys: Keys, s: Scope)
    requires Asked(c, keys, phase, s) && Executed(c, s)
    ensures SlotOf(PassOf(c, phase, keys).keys, KeyOf(c, s, Identifier(c, s).value)) == CommandOf(c, keys, s).slot
  {
    if phase.Tenant? {
      TenantPass(c, keys);
      StepSpends(c, Start(keys), keys, PerOrganization);
    } else {
      var one := ScopeStep(c, Start(keys), PerIp);
      EdgePass(c, keys);
      StepSays(c, Start(keys), keys, PerIp);
      StepSpends(c, Start(keys), keys, PerIp);
      AccountUnspent(c, keys);
      StepSpends(c, one, keys, PerPrincipal);
      if s.PerIp? && Executed(c, PerPrincipal) {
        ScopesDiffer(c.className, PerIp, Identifier(c, PerIp).value, PerPrincipal, Identifier(c, PerPrincipal).value);
      }
    }
  }

  // ----- the answer ----------------------------------------------------------------

  function AnswerOf(c: Call, phase: Phase, keys: Keys): GuardResult {
    Finish(c.config.failMode, PassOf(c, phase, keys))
  }

  ghost predicate SomeUnanswered(c: Call, keys: Keys, phase: Phase) {
    exists s :: Asked(c, keys, phase, s) && Says(c, keys, s) == Unanswered
  }

  ghost predicate IsDecision(c: Call, keys: Keys, phase: Phase, d: WindowDecision) {
    exists s :: Asked(c, keys, phase, s) && Says(c, keys, s) == Decided(d)
  }

  ghost predicate SomeDeclared(c: Call, keys: Keys, phase: Phase) {
    exists s :: Asked(c, keys, phase, s) && HasWindow(c, s)
  }

  /** What a finished pass answers, for a pass that failed or not, with these decisions. */
  ghost predicate AnswerMeans(m: FailMode, ps: PassState, r: GuardResult) {
    && (r.headers.Some? <==> !ps.failed && ps.decisions != [])
    && (r.headers.Some? ==> IsWorst(r.headers.value, ps.decisions))
    && (r.verdict == Limited(None) <==> m == Closed && (ps.failed || (ps.decisions == [] && ps.declared > 0)))
    && (forall x :: r.verdict == Limited(Some(x)) <==>
         r.headers.Some? && !r.headers.value.allowed && x == r.headers.value.resetSeconds)
  }

  /** A decision of the pass: a refusal if there is one, and none with less room. */
  ghost predicate IsWorst(d: WindowDecision, ds: seq<WindowDecision>) {
    && d in ds && (d.allowed <==> forall e | e in ds :: e.allowed)
    && forall e | e in ds && e.allowed == d.allowed :: d.remaining <= e.remaining
  }

  lemma FinishMeans(m: FailMode, ps: PassState)
    ensures AnswerMeans(m, ps, Finish(m, ps))
  {
    if ps.decisions != [] { TightestIsWorst(ps.decisions); }
  }

  lemma NoRefusalBesideFailure(c: Call, keys: Keys, phase: Phase, d: WindowDecision)
    requires SomeUnanswered(c, keys, phase) && IsDecision(c, keys, phase, d)
    ensures d.allowed
  {
    var s :| Asked(c, keys, phase, s) && Says(c, keys, s) == Unanswered;
    var u :| Asked(c, keys, phase, u) && Says(c, keys, u) == Decided(d);
  }

  /** FAIL OPEN. A class that fails open is limited exactly when a window refuses: no outage and
      no scope that names nobody ever limits it. */
  lemma OpenClassIsLimitedByRefusalsOnly(c: Call, phase: Phase, keys: Keys)
    requires c.config.failMode == Open
    ensures AnswerOf(c, phase, keys).verdict != Pass <==> exists d :: IsDecision(c, keys, phase, d) && !d.allowed
  {
    var ps := PassOf(c, phase, keys);
    PassAsksInOrder(c, phase, keys);
    FinishMeans(Open, ps);
    assert ps.failed <==> SomeUnanswered(c, keys, phase);
    assert forall d :: d in ps.decisions <==> IsDecision(c, keys, phase, d);
    OpenAnswer(c, phase, keys, ps, AnswerOf(c, phase, keys));
  }

  lemma OpenAnswer(c: Call, phase: Phase, keys: Keys, ps: PassState, r: GuardResult)
    requires ps.failed <==> SomeUnanswered(c, keys, phase)
    requires forall d :: d in ps.decisions <==> IsDecision(c, keys, phase, d)
    requires AnswerMeans(Open, ps, r)
    ensures r.verdict != Pass <==> exists d :: IsDecision(c, keys, phase, d) && !d.allowed
  {
    if d :| IsDecision(c, keys, phase, d) && !d.allowed {
      if ps.failed { NoRefusalBesideFailure(c, keys, phase, d); }
      assert r.verdict == Limited(Some(r.headers.value.resetSeconds));
    }
    if r.verdict != Pass {
      assert r.verdict == Limited(Some(r.verdict.retryAfterSeconds.value));
      assert IsDecision(c, keys, phase, r.headers.value);
    }
  }

  /** WHAT A LIMIT SAYS. In either mode: a limit with a retry time carries the reset of a window
      that refused, and the headers describe that window; a limit without one is for a class
      that fails closed, when a window was not answered or none could be asked; headers are the
      worst decision of the pass, and there are some exactly when every window was answered and
      there was one. */
  lemma LimitSaysWhy(c: Call, phase: Phase, keys: Keys)
    ensures var r := AnswerOf(c, phase, keys);
      && (forall x :: r.verdict == Limited(Some(x)) ==>
           r.headers.Some? && !r.headers.value.allowed && r.headers.value.resetSeconds == x)
      && (r.headers.Some? ==> IsDecision(c, keys, phase, r.headers.value))
      && (r.headers.Some? ==> forall d | IsDecision(c, keys, phase, d) ::
           (r.headers.value.allowed ==> d.allowed)
           && (d.allowed == r.headers.value.allowed ==> r.headers.value.remaining <= d.remaining))
      && (r.headers.Some? <==> !SomeUnanswered(c, keys, phase) && exists d :: IsDecision(c, keys, phase, d))
      && (r.verdict == Limited(None) <==>
           && c.config.failMode == Closed
           && (SomeUnanswered(c, keys, phase)
               || (SomeDeclared(c, keys, phase) && !exists d :: IsDecision(c, keys, phase, d))))
  {
    var ps := PassOf(c, phase, keys);
    PassAsksInOrder(c, phase, keys);
    PassCountsWhatItAsks(c, phase, keys);
    FinishMeans(c.config.failMode, ps);
    assert ps.failed <==> SomeUnanswered(c, keys, phase);
    assert forall d :: d in ps.decisions <==> IsDecision(c, keys, phase, d);
    assert ps.declared > 0 <==> SomeDeclared(c, keys, phase);
    assert ps.decisions != [] ==> ps.decisions[0] in ps.decisions;
  }
}
