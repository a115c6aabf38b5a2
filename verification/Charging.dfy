/** Which windows a request is charged to: the discipline of the two limiter passes. */
module Charging {
  import opened SlidingWindow
  import opened RateLimit
  import IpBucket
  import JsText

  // ----- keys ---------------------------------------------------------------------

  /** Distinct (class, scope, identifier) triples never share a key; no class name holds a
      colon, the identifier may. */
  lemma KeysAreInjective(c1: string, s1: Scope, i1: string, c2: string, s2: Scope, i2: string)
    requires ':' !in c1 && ':' !in c2
    ensures SlidingWindowKey(c1, s1, i1) == SlidingWindowKey(c2, s2, i2) ==> c1 == c2 && s1 == s2 && i1 == i2
  {
    if SlidingWindowKey(c1, s1, i1) == SlidingWindowKey(c2, s2, i2) {
      var r1, r2 := ScopeName(s1) + ":" + i1, ScopeName(s2) + ":" + i2;
      assert c1 + ":" + r1 == SlidingWindowKey(c1, s1, i1)[|"ratelimit:"|..];
      assert c2 + ":" + r2 == SlidingWindowKey(c2, s2, i2)[|"ratelimit:"|..];
      JsText.SplitsAtFirst(c1, r1, c2, r2, ':');
      JsText.SplitsAtFirst(ScopeName(s1), i1, ScopeName(s2), i2, ':');
      ScopeNamesDiffer(s1, s2);
    }
  }

  lemma ScopeNamesDiffer(a: Scope, b: Scope)
    ensures ScopeName(a) == ScopeName(b) ==> a == b
  {
    assert |ScopeName(PerIp)| == 5 && |ScopeName(PerPrincipal)| == 12 && |ScopeName(PerOrganization)| == 15;
  }

  /** The per-address window of a class. */
  function AddressKey(className: string, address: string): string {
    SlidingWindowKey(className, PerIp, IpBucket.NormaliseIp(address))
  }

  /** Two IPv6 callers of one class spend the same per-address window exactly when their
      addresses share the top 64 bits, however either is spelled. */
  lemma AddressesShareAWindowIffTheyShareAPrefix(className: string, x: IpBucket.Spelling, y: IpBucket.Spelling)
    requires ':' !in className && IpBucket.Legal(x) && IpBucket.Legal(y)
    ensures AddressKey(className, IpBucket.Text(x)) == AddressKey(className, IpBucket.Text(y))
      <==> IpBucket.Address(x)[..4] == IpBucket.Address(y)[..4]
  {
    IpBucket.SameBucketIffSamePrefix(x, y);
    KeysAreInjective(className, PerIp, IpBucket.NormaliseIp(IpBucket.Text(x)),
                     className, PerIp, IpBucket.NormaliseIp(IpBucket.Text(y)));
  }

  /** An IPv4 address, plain or mapped. */
  ghost predicate IsIpv4(address: string, a: string, b: string, c: string, d: string) {
    && IpBucket.AreOctets(a, b, c, d)
    && exists p :: IpBucket.IsIpv4Prefix(p) && address == p + IpBucket.Dotted(a, b, c, d)
  }

  /** Two IPv4 callers spend the same window exactly when their four octets are the same texts,
      plain or mapped; and never that of an IPv6 caller. */
  lemma Ipv4CallersShareAWindowIffSame(className: string, x: string, a: string, b: string, c: string, d: string,
                                       y: string, e: string, f: string, g: string, h: string, sp: IpBucket.Spelling)
    requires ':' !in className && IsIpv4(x, a, b, c, d) && IsIpv4(y, e, f, g, h) && IpBucket.Legal(sp)
    ensures AddressKey(className, x) == AddressKey(className, y) <==> a == e && b == f && c == g && d == h
    ensures AddressKey(className, x) != AddressKey(className, IpBucket.Text(sp))
  {
    var p :| IpBucket.IsIpv4Prefix(p) && x == p + IpBucket.Dotted(a, b, c, d);
    var q :| IpBucket.IsIpv4Prefix(q) && y == q + IpBucket.Dotted(e, f, g, h);
    IpBucket.QuadsShareIffSame(p, a, b, c, d, q, e, f, g, h, sp);
    KeysAreInjective(className, PerIp, IpBucket.NormaliseIp(x), className, PerIp, IpBucket.NormaliseIp(y));
    KeysAreInjective(className, PerIp, IpBucket.NormaliseIp(x),
                     className, PerIp, IpBucket.NormaliseIp(IpBucket.Text(sp)));
  }

  // ----- one pass -----------------------------------------------------------------

  /** The scopes of the pass that name a window: declared by the class and resolvable. */
  function Resolvable(c: Call, scopes: seq<Scope>): seq<Scope> {
    if scopes == [] then []
    else if Resolves(c, scopes[0]) then [scopes[0]] + Resolvable(c, scopes[1..])
    else Resolvable(c, scopes[1..])
  }

  predicate Resolves(c: Call, s: Scope) {
    WindowOf(c.config, s).Some? && Identifier(c, s).Some?
  }

  lemma OneScope(c: Call, ps: PassState, s: Scope)
    ensures var next := ScopeStep(c, ps, s);
      if !Resolves(c, s) then next.charged == ps.charged
      else next.charged == ps.charged + [s] || (next.charged == ps.charged && next.failed)
  {
  }

  function WindowKeys(c: Call, scopes: seq<Scope>): set<string> {
    set s | s in scopes && Identifier(c, s).Some? :: KeyOf(c, s, Identifier(c, s).value)
  }

  /** The windows charged are a prefix of the resolvable ones, all of them unless the pass
      stopped at a refusal or a failure; `rest` are the ones spared. */
  lemma {:induction false} ChargesPrefix(c: Call, ps: PassState, scopes: seq<Scope>) returns (rest: seq<Scope>)
    ensures var end := RunScopes(c, ps, scopes);
      end.charged + rest == ps.charged + Resolvable(c, scopes) && (!Stopped(end) ==> rest == [])
    decreases |scopes|
  {
    if scopes == [] || Stopped(ps) {
      rest := Resolvable(c, scopes);
    } else {
      var s, next, later := scopes[0], ScopeStep(c, ps, scopes[0]), Resolvable(c, scopes[1..]);
      OneScope(c, ps, s);
      if Resolves(c, s) && next.charged == ps.charged {
        assert RunScopes(c, next, scopes[1..]) == next;
        rest := Resolvable(c, scopes);
      } else {
        rest := ChargesPrefix(c, next, scopes[1..]);
        if Resolves(c, s) { assert ps.charged + ([s] + later) == next.charged + later; }
      }
    }
  }

  lemma {:induction false} ChargesGrow(c: Call, ps: PassState, scopes: seq<Scope>)
    ensures ps.charged <= RunScopes(c, ps, scopes).charged
    decreases |scopes|
  {
    if scopes != [] && !Stopped(ps) { ChargesGrow(c, ScopeStep(c, ps, scopes[0]), scopes[1..]); }
  }

  /** One decision for every window charged whose answer came back; only the last one can
      be a refusal, and a pass that failed refused nothing. */
  ghost predicate OneRefusalAtEnd(ps: PassState) {
    && |ps.decisions| <= |ps.charged| <= |ps.decisions| + 1
    && (|ps.charged| == |ps.decisions| + 1 ==> ps.failed)
    && (forall k | 0 <= k < |ps.decisions| :: ps.decisions[k].allowed || (k == |ps.decisions| - 1 && !ps.failed))
  }

  lemma {:induction false} RefusalEndsPass(c: Call, ps: PassState, scopes: seq<Scope>)
    requires OneRefusalAtEnd(ps)
    ensures OneRefusalAtEnd(RunScopes(c, ps, scopes))
    decreases |scopes|
  {
    if scopes != [] && !Stopped(ps) {
      RefusalEndsPass(c, ScopeStep(c, ps, scopes[0]), scopes[1..]);
    }
  }

  /** Only windows that were charged change. */
  lemma {:induction false} OnlyChargedWindowsChange(c: Call, ps: PassState, scopes: seq<Scope>, key: string)
    requires key !in WindowKeys(c, RunScopes(c, ps, scopes).charged)
    ensures SlotOf(RunScopes(c, ps, scopes).keys, key) == SlotOf(ps.keys, key)
    decreases |scopes|
  {
    if scopes != [] && !Stopped(ps) {
      var s, next := scopes[0], ScopeStep(c, ps, scopes[0]);
      OnlyChargedWindowsChange(c, next, scopes[1..], key);
      ChargesGrow(c, next, scopes[1..]);
      var end := RunScopes(c, ps, scopes);
      if next.charged != ps.charged {
        assert next.charged[|ps.charged|] == s && end.charged[|ps.charged|] == s;
        assert KeyOf(c, s, Identifier(c, s).value) in WindowKeys(c, end.charged);
      }
    }
  }

  lemma PassDiscipline(c: Call, phase: Phase, keys: Keys)
    ensures var ps := PassOf(c, phase, keys);
      && ps.charged <= Resolvable(c, ScopesOf(phase))
      && (!Stopped(ps) ==> ps.charged == Resolvable(c, ScopesOf(phase)))
      && OneRefusalAtEnd(ps)
      && (forall key | key !in WindowKeys(c, ps.charged) :: SlotOf(ps.keys, key) == SlotOf(keys, key))
  {
    var scopes := ScopesOf(phase);
    var rest := ChargesPrefix(c, Start(keys), scopes);
    RefusalEndsPass(c, Start(keys), scopes);
    var ps := PassOf(c, phase, keys);
    assert Start(keys).charged + Resolvable(c, scopes) == Resolvable(c, scopes);
    forall key | key !in WindowKeys(c, ps.charged) ensures SlotOf(ps.keys, key) == SlotOf(keys, key) {
      OnlyChargedWindowsChange(c, Start(keys), scopes, key);
    }
  }

  /** THE CHARGING DISCIPLINE. Over the edge pass and the tenant pass of one request (which
      the organisation, once resolved, tells apart), the windows charged are distinct, each
      pass charges a prefix of its resolvable scopes that a refusal ends, and every other
      window is as it was. */
  lemma EachWindowChargedAtMostOnce(edge: Call, tenant: Call, keys: Keys)
    requires ':' !in edge.className && tenant.className == edge.className
    ensures var first := PassOf(edge, Edge, keys);
      var second := PassOf(tenant, Tenant, first.keys);
      && WindowKeys(edge, first.charged) !! WindowKeys(tenant, second.charged)
      && Distinct(first.charged + second.charged)
      && first.charged <= Resolvable(edge, ScopesOf(Edge)) && second.charged <= Resolvable(tenant, ScopesOf(Tenant))
      && (forall key | key !in WindowKeys(edge, first.charged) + WindowKeys(tenant, second.charged) ::
           SlotOf(second.keys, key) == SlotOf(keys, key))
  {
    var first := PassOf(edge, Edge, keys);
    var second := PassOf(tenant, Tenant, first.keys);
    PassDiscipline(edge, Edge, keys);
    PassDiscipline(tenant, Tenant, first.keys);
    ChargedInPhase(edge, Edge, keys);
    ChargedInPhase(tenant, Tenant, first.keys);
    PhasesAreDistinct(first.charged, second.charged);
    forall key | key in WindowKeys(edge, first.charged) && key in WindowKeys(tenant, second.charged) ensures false {
      var a :| a in first.charged && Identifier(edge, a).Some? && key == KeyOf(edge, a, Identifier(edge, a).value);
      var b :| b in second.charged && Identifier(tenant, b).Some?
        && key == KeyOf(tenant, b, Identifier(tenant, b).value);
      KeysAreInjective(edge.className, a, Identifier(edge, a).value, tenant.className, b, Identifier(tenant, b).value);
    }
  }

  ghost predicate Distinct(scopes: seq<Scope>) {
    forall i, j | 0 <= i < j < |scopes| :: scopes[i] != scopes[j]
  }

  lemma PhasesAreDistinct(edge: seq<Scope>, tenant: seq<Scope>)
    requires Distinct(edge) && Distinct(tenant)
    requires (forall s | s in edge :: PhaseOf(s) == Edge) && (forall s | s in tenant :: PhaseOf(s) == Tenant)
    ensures Distinct(edge + tenant)
  {
    forall i, j | 0 <= i < j < |edge + tenant| ensures (edge + tenant)[i] != (edge + tenant)[j] {
      if i < |edge| <= j {
        assert edge[i] in edge && tenant[j - |edge|] in tenant;
      }
    }
  }

  lemma {:induction false} ResolvableSubsequence(c: Call, scopes: seq<Scope>)
    ensures forall s | s in Resolvable(c, scopes) :: s in scopes
    ensures Distinct(scopes) ==> Distinct(Resolvable(c, scopes))
  {
    if scopes != [] {
      ResolvableSubsequence(c, scopes[1..]);
      assert forall s | s in scopes[1..] :: s in scopes;
      if Distinct(scopes) {
        assert Distinct(scopes[1..]);
        assert scopes[0] !in scopes[1..];
      }
    }
  }

  lemma ChargedInPhase(c: Call, phase: Phase, keys: Keys)
    ensures forall s | s in PassOf(c, phase, keys).charged :: PhaseOf(s) == phase
    ensures Distinct(PassOf(c, phase, keys).charged)
  {
    var charged := PassOf(c, phase, keys).charged;
    PassDiscipline(c, phase, keys);
    ResolvableSubsequence(c, ScopesOf(phase));
    var all := Resolvable(c, ScopesOf(phase));
    assert Distinct(ScopesOf(phase));
    assert forall i | 0 <= i < |charged| :: charged[i] == all[i];
    forall s | s in charged ensures PhaseOf(s) == phase {
      var i :| 0 <= i < |charged| && charged[i] == s;
      assert all[i] in ScopesOf(phase);
    }
  }

  /** An address that is refused, or whose command fails, changes no account's window. */
  lemma RefusedAddressChangesNoAccount(c: Call, keys: Keys, className: string, account: string)
    requires ':' !in c.className && ':' !in className
    requires c.config.perIp.Some? && Identifier(c, PerIp).Some?
    requires Stopped(ScopeStep(c, Start(keys), PerIp))
    ensures var key := SlidingWindowKey(className, PerPrincipal, account);
      SlotOf(PassOf(c, Edge, keys).keys, key) == SlotOf(keys, key)
  {
    var ps := PassOf(c, Edge, keys);
    var next := ScopeStep(c, Start(keys), PerIp);
    assert !Stopped(Start(keys)) && ScopesOf(Edge)[0] == PerIp;
    assert ps == RunScopes(c, next, ScopesOf(Edge)[1..]) == next;
    KeysAreInjective(c.className, PerIp, Identifier(c, PerIp).value, className, PerPrincipal, account);
    PassDiscipline(c, Edge, keys);
  }

  // ----- the answer ---------------------------------------------------------------

  /** The window reported is the refusal if there is one, and otherwise one with the least
      room left. */
  lemma {:induction false} TightestIsWorst(ds: seq<WindowDecision>)
    requires ds != []
    ensures Tightest(ds) in ds
    ensures Tightest(ds).allowed <==> forall d | d in ds :: d.allowed
    ensures forall d | d in ds && d.allowed == Tightest(ds).allowed :: Tightest(ds).remaining <= d.remaining
  {
    if |ds| > 1 {
      var prev, last := ds[..|ds| - 1], ds[|ds| - 1];
      TightestIsWorst(prev);
      assert forall d :: d in ds <==> d in prev || d == last;
    }
  }

  /** A fail-closed class passes a phase in which it declares a window exactly when every
      command was answered, at least one window was charged and every one admitted. */
  lemma ClosedClassPassesOnlyWhenAdmitted(c: Call, phase: Phase, keys: Keys)
    requires c.config.failMode.Closed?
    ensures var ps := PassOf(c, phase, keys);
      Finish(c.config.failMode, ps).verdict.Pass? <==>
        !ps.failed && (ps.decisions == [] ==> ps.declared == 0) && forall d | d in ps.decisions :: d.allowed
  {
    var ps := PassOf(c, phase, keys);
    if ps.decisions != [] { TightestIsWorst(ps.decisions); }
  }
}
