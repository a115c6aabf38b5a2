/** The tenant registry check over the data model, and the cascades it rules out. */
module Registry {
  import opened Wrappers
  import JsText

  const TENANT_COLUMN := "organizationId"

  /** One foreign key, as seen from the child model; `onDelete` is None when undeclared. */
  datatype Relation = Relation(field: string, parentModel: string, onDelete: Option<string>)

  datatype ModelInfo = ModelInfo(name: string, fields: seq<string>, relations: seq<Relation>)

  datatype Registries = Registries(tenantOwned: seq<string>, tenantRoot: string, deliberatelyGlobal: seq<string>)

  datatype Rule =
    | UnregisteredTenantModel | StaleEntry | Unaccounted | MultiplyAccounted | UnknownEntry | UnexplainedGlobal

  datatype Failure =
    | Broken(rule: Rule, name: string)
    | UnsafeCascade(model: string, field: string, parentModel: string, declared: bool)

  predicate CarriesTenantColumn(m: ModelInfo) {
    TENANT_COLUMN in m.fields
  }

  function FindUnregisteredTenantModels(models: seq<ModelInfo>, registry: seq<string>): seq<string> {
    if models == [] then []
    else if CarriesTenantColumn(models[0]) && models[0].name !in registry then
      [models[0].name] + FindUnregisteredTenantModels(models[1..], registry)
    else FindUnregisteredTenantModels(models[1..], registry)
  }

  /** The model a name stands for in a table built from the list: the last one of that name. */
  function ByName(models: seq<ModelInfo>, name: string): Option<ModelInfo> {
    if models == [] then None
    else if models[|models| - 1].name == name then Some(models[|models| - 1])
    else ByName(models[..|models| - 1], name)
  }

  function FindStaleRegistryEntries(models: seq<ModelInfo>, registry: seq<string>): seq<string> {
    if registry == [] then []
    else (if IsStale(models, registry[0]) then [registry[0]] else []) + FindStaleRegistryEntries(models, registry[1..])
  }

  predicate IsStale(models: seq<ModelInfo>, name: string) {
    var m := ByName(models, name);
    m.None? || !CarriesTenantColumn(m.value)
  }

  function AccountsFor(name: string, r: Registries): nat {
    (if name in r.tenantOwned then 1 else 0) + (if r.tenantRoot == name then 1 else 0)
    + (if name in r.deliberatelyGlobal then 1 else 0)
  }

  function FindUnaccountedModels(models: seq<ModelInfo>, r: Registries): seq<string> {
    if models == [] then []
    else (if AccountsFor(models[0].name, r) == 0 then [models[0].name] else []) + FindUnaccountedModels(models[1..], r)
  }

  function FindMultiplyAccountedModels(models: seq<ModelInfo>, r: Registries): seq<string> {
    if models == [] then []
    else if AccountsFor(models[0].name, r) > 1 then [models[0].name] + FindMultiplyAccountedModels(models[1..], r)
    else FindMultiplyAccountedModels(models[1..], r)
  }

  predicate Known(models: seq<ModelInfo>, name: string) {
    exists m | m in models :: m.name == name
  }

  function UnknownAmong(models: seq<ModelInfo>, names: seq<string>): seq<string> {
    if names == [] then []
    else (if Known(models, names[0]) then [] else [names[0]]) + UnknownAmong(models, names[1..])
  }

  function FindUnknownRegistryEntries(models: seq<ModelInfo>, r: Registries): seq<string> {
    UnknownAmong(models, r.tenantOwned + [r.tenantRoot] + r.deliberatelyGlobal)
  }

  /** `reasons` are the entries of the global registry with their reasons; a blank one is none. */
  function FindUnexplainedGlobalEntries(reasons: seq<(string, string)>): seq<string> {
    if reasons == [] then []
    else (if JsText.Trim(reasons[0].1) == "" then [reasons[0].0] else []) + FindUnexplainedGlobalEntries(reasons[1..])
  }

  predicate TenantScoped(r: Registries, name: string) {
    name in r.tenantOwned || name == r.tenantRoot
  }

  predicate UnsafeRelation(r: Registries, rel: Relation) {
    !TenantScoped(r, rel.parentModel) && (rel.onDelete.None? || rel.onDelete.value == "Cascade")
  }

  function UnsafeRelations(model: string, r: Registries, rels: seq<Relation>): seq<Failure> {
    if rels == [] then []
    else if UnsafeRelation(r, rels[0]) then
      [UnsafeCascade(model, rels[0].field, rels[0].parentModel, rels[0].onDelete.Some?)]
        + UnsafeRelations(model, r, rels[1..])
    else UnsafeRelations(model, r, rels[1..])
  }

  function FindUnsafeCascades(models: seq<ModelInfo>, r: Registries): seq<Failure> {
    if models == [] then []
    else if models[0].name in r.tenantOwned then
      UnsafeRelations(models[0].name, r, models[0].relations) + FindUnsafeCascades(models[1..], r)
    else FindUnsafeCascades(models[1..], r)
  }

  function BrokenAll(rule: Rule, names: seq<string>): seq<Failure> {
    seq(|names|, i requires 0 <= i < |names| => Broken(rule, names[i]))
  }

  /** The failures in the order they are reported. */
  function Findings(models: seq<ModelInfo>, r: Registries, reasons: seq<(string, string)>): seq<Failure> {
    BrokenAll(UnregisteredTenantModel, FindUnregisteredTenantModels(models, r.tenantOwned))
    + BrokenAll(StaleEntry, FindStaleRegistryEntries(models, r.tenantOwned))
    + BrokenAll(Unaccounted, FindUnaccountedModels(models, r))
    + BrokenAll(MultiplyAccounted, FindMultiplyAccountedModels(models, r))
    + BrokenAll(UnknownEntry, FindUnknownRegistryEntries(models, r))
    + BrokenAll(UnexplainedGlobal, FindUnexplainedGlobalEntries(reasons))
    + FindUnsafeCascades(models, r)
  }

  method Push(failures: seq<Failure>, rule: Rule, names: seq<string>) returns (all: seq<Failure>)
    ensures all == failures + BrokenAll(rule, names)
  {
    all := failures;
    for i := 0 to |names|
      invariant all == failures + BrokenAll(rule, names)[..i]
    {
      all := all + [Broken(rule, names[i])];
    }
  }

  method RunChecks(models: seq<ModelInfo>, r: Registries,
                   reasons: seq<(string, string)>) returns (failures: seq<Failure>)
    ensures failures == Findings(models, r, reasons)
  {
    failures := [];
    failures := Push(failures, UnregisteredTenantModel, FindUnregisteredTenantModels(models, r.tenantOwned));
    assert failures == BrokenAll(UnregisteredTenantModel, FindUnregisteredTenantModels(models, r.tenantOwned));
    failures := Push(failures, StaleEntry, FindStaleRegistryEntries(models, r.tenantOwned));
    failures := Push(failures, Unaccounted, FindUnaccountedModels(models, r));
    failures := Push(failures, MultiplyAccounted, FindMultiplyAccountedModels(models, r));
    failures := Push(failures, UnknownEntry, FindUnknownRegistryEntries(models, r));
    failures := Push(failures, UnexplainedGlobal, FindUnexplainedGlobalEntries(reasons));
    ghost var names := failures;
    var violations := FindUnsafeCascades(models, r);
    for i := 0 to |violations|
      invariant failures == names + violations[..i]
    {
      failures := failures + [violations[i]];
    }
    assert violations[..|violations|] == violations;
  }

  // ----- what each finding means ----------------------------------------------------

  /** The complaint that a failure makes is true of the data model and the registries. */
  ghost predicate Justified(models: seq<ModelInfo>, r: Registries, reasons: seq<(string, string)>, f: Failure) {
    match f
    case Broken(UnregisteredTenantModel, n) =>
      exists m | m in models :: m.name == n && "organizationId" in m.fields && n !in r.tenantOwned
    case Broken(StaleEntry, n) => n in r.tenantOwned && !DescribesTenantModel(models, n)
    case Broken(Unaccounted, n) => IsModel(models, n) && InNoAccount(n, r)
    case Broken(MultiplyAccounted, n) => IsModel(models, n) && InSeveralAccounts(n, r)
    case Broken(UnknownEntry, n) =>
      (n in r.tenantOwned || n == r.tenantRoot || n in r.deliberatelyGlobal) && !IsModel(models, n)
    case Broken(UnexplainedGlobal, n) => exists x | x in reasons :: x.0 == n && JsText.AllBlank(x.1)
    case UnsafeCascade(model, field, parent, declared) =>
      exists m, rel | m in models && rel in m.relations ::
        && m.name == model && model in r.tenantOwned && CrossesTenants(r, rel)
        && rel.field == field && rel.parentModel == parent && declared == (rel.onDelete == Some("Cascade"))
  }

  ghost predicate IsModel(models: seq<ModelInfo>, name: string) {
    exists i | 0 <= i < |models| :: models[i].name == name
  }

  /** The last model of the name, which stands for it, carries the tenant column. */
  ghost predicate DescribesTenantModel(models: seq<ModelInfo>, name: string) {
    exists i | 0 <= i < |models| :: LastOf(models, name, i) && "organizationId" in models[i].fields
  }

  ghost predicate LastOf(models: seq<ModelInfo>, name: string, i: nat) {
    i < |models| && models[i].name == name && forall j | i < j < |models| :: models[j].name != name
  }

  predicate InNoAccount(name: string, r: Registries) {
    name !in r.tenantOwned && name != r.tenantRoot && name !in r.deliberatelyGlobal
  }

  predicate InSeveralAccounts(name: string, r: Registries) {
    || (name in r.tenantOwned && name == r.tenantRoot)
    || (name in r.tenantOwned && name in r.deliberatelyGlobal)
    || (name == r.tenantRoot && name in r.deliberatelyGlobal)
  }

  /** A key to a model outside the tenants with no declared action, or with the cascading one. */
  predicate CrossesTenants(r: Registries, rel: Relation) {
    && rel.parentModel !in r.tenantOwned && rel.parentModel != r.tenantRoot
    && (rel.onDelete == None || rel.onDelete == Some("Cascade"))
  }

  lemma KnownMeans(models: seq<ModelInfo>, name: string)
    ensures Known(models, name) <==> IsModel(models, name)
  {
    if Known(models, name) {
      var m :| m in models && m.name == name;
      var i :| 0 <= i < |models| && models[i] == m;
    }
  }

  lemma {:induction false} StaleMeans(models: seq<ModelInfo>, name: string)
    ensures IsStale(models, name) <==> !DescribesTenantModel(models, name)
  {
    if models != [] {
      var n := |models| - 1;
      if models[n].name == name {
        assert LastOf(models, name, n);
      } else {
        StaleMeans(models[..n], name);
        EarlierDescribes(models, name);
      }
    }
  }

  lemma EarlierDescribes(models: seq<ModelInfo>, name: string)
    requires models != [] && models[|models| - 1].name != name
    ensures DescribesTenantModel(models, name) <==> DescribesTenantModel(models[..|models| - 1], name)
  {
    var n := |models| - 1;
    forall i | 0 <= i < n ensures LastOf(models, name, i) <==> LastOf(models[..n], name, i) {
      if LastOf(models[..n], name, i) { assert forall j | i < j < n :: models[j] == models[..n][j]; }
    }
  }

  lemma BlankMeans(s: string)
    ensures JsText.Trim(s) == "" <==> JsText.AllBlank(s)
  {
    var before, after := JsText.TrimParts(s);
  }

  lemma {:induction false} UnregisteredMembers(models: seq<ModelInfo>, registry: seq<string>, n: string)
    ensures n in FindUnregisteredTenantModels(models, registry)
      <==> exists m | m in models :: m.name == n && CarriesTenantColumn(m) && n !in registry
  {
    if models != [] {
      UnregisteredMembers(models[1..], registry, n);
      assert forall m :: m in models <==> m == models[0] || m in models[1..];
    }
  }

  lemma {:induction false} StaleMembers(models: seq<ModelInfo>, registry: seq<string>, n: string)
    ensures n in FindStaleRegistryEntries(models, registry) <==> n in registry && IsStale(models, n)
  {
    if registry != [] {
      StaleMembers(models, registry[1..], n);
      assert n in registry <==> n == registry[0] || n in registry[1..];
    }
  }

  lemma {:induction false} MiscountedMembers(models: seq<ModelInfo>, r: Registries, n: string)
    ensures n in FindUnaccountedModels(models, r) <==> (exists m | m in models :: m.name == n) && AccountsFor(n, r) == 0
    ensures n in FindMultiplyAccountedModels(models, r)
      <==> (exists m | m in models :: m.name == n) && AccountsFor(n, r) > 1
  {
    if models != [] {
      MiscountedMembers(models[1..], r, n);
      assert forall m :: m in models <==> m == models[0] || m in models[1..];
    }
  }

  lemma {:induction false} UnknownMembers(models: seq<ModelInfo>, names: seq<string>, n: string)
    ensures n in UnknownAmong(models, names) <==> n in names && !Known(models, n)
  {
    if names != [] {
      UnknownMembers(models, names[1..], n);
      assert n in names <==> n == names[0] || n in names[1..];
    }
  }

  lemma {:induction false} UnexplainedMembers(reasons: seq<(string, string)>, n: string)
    ensures n in FindUnexplainedGlobalEntries(reasons)
      <==> exists x | x in reasons :: x.0 == n && JsText.AllBlank(x.1)
  {
    if reasons != [] {
      BlankMeans(reasons[0].1);
      UnexplainedMembers(reasons[1..], n);
      assert forall x :: x in reasons <==> x == reasons[0] || x in reasons[1..];
    }
  }

  predicate Blames(model: string, r: Registries, rel: Relation, f: Failure) {
    UnsafeRelation(r, rel) && f == UnsafeCascade(model, rel.field, rel.parentModel, rel.onDelete.Some?)
  }

  lemma {:induction false} UnsafeMembers(model: string, r: Registries, rels: seq<Relation>, f: Failure)
    ensures f in UnsafeRelations(model, r, rels) <==> exists rel | rel in rels :: Blames(model, r, rel, f)
  {
    if rels != [] {
      UnsafeMembers(model, r, rels[1..], f);
      assert f in UnsafeRelations(model, r, rels)
        <==> Blames(model, r, rels[0], f) || f in UnsafeRelations(model, r, rels[1..]);
      assert forall rel :: rel in rels <==> rel == rels[0] || rel in rels[1..];
    }
  }

  lemma {:induction false} CascadeMembers(models: seq<ModelInfo>, r: Registries, f: Failure)
    ensures f in FindUnsafeCascades(models, r)
      <==> exists m, rel | m in models && rel in m.relations :: m.name in r.tenantOwned && Blames(m.name, r, rel, f)
  {
    if models != [] {
      CascadeMembers(models[1..], r, f);
      UnsafeMembers(models[0].name, r, models[0].relations, f);
      assert forall m :: m in models <==> m == models[0] || m in models[1..];
    }
  }

  lemma BrokenMembers(rule: Rule, names: seq<string>, f: Failure)
    ensures f in BrokenAll(rule, names) <==> f.Broken? && f.rule == rule && f.name in names
  {
    if f.Broken? && f.rule == rule && f.name in names {
      var i :| 0 <= i < |names| && names[i] == f.name;
      assert BrokenAll(rule, names)[i] == f;
    }
  }

  /** The report holds exactly the complaints that are true. */
  lemma FindingsAreJustified(models: seq<ModelInfo>, r: Registries, reasons: seq<(string, string)>, f: Failure)
    ensures f in Findings(models, r, reasons) <==> Justified(models, r, reasons, f)
  {
    BrokenMembers(UnregisteredTenantModel, FindUnregisteredTenantModels(models, r.tenantOwned), f);
    BrokenMembers(StaleEntry, FindStaleRegistryEntries(models, r.tenantOwned), f);
    BrokenMembers(Unaccounted, FindUnaccountedModels(models, r), f);
    BrokenMembers(MultiplyAccounted, FindMultiplyAccountedModels(models, r), f);
    BrokenMembers(UnknownEntry, FindUnknownRegistryEntries(models, r), f);
    BrokenMembers(UnexplainedGlobal, FindUnexplainedGlobalEntries(reasons), f);
    CascadeMembers(models, r, f);
    if f.Broken? {
      UnregisteredMembers(models, r.tenantOwned, f.name);
      StaleMembers(models, r.tenantOwned, f.name);
      StaleMeans(models, f.name);
      MiscountedMembers(models, r, f.name);
      UnknownMembers(models, r.tenantOwned + [r.tenantRoot] + r.deliberatelyGlobal, f.name);
      KnownMeans(models, f.name);
      UnexplainedMembers(reasons, f.name);
    }
  }

  function RuleNumber(f: Failure): nat {
    match f
    case Broken(UnregisteredTenantModel, _) => 0
    case Broken(StaleEntry, _) => 1
    case Broken(Unaccounted, _) => 2
    case Broken(MultiplyAccounted, _) => 3
    case Broken(UnknownEntry, _) => 4
    case Broken(UnexplainedGlobal, _) => 5
    case UnsafeCascade(_, _, _, _) => 6
  }

  ghost predicate InRuleOrder(fs: seq<Failure>, last: nat) {
    && (forall i, j | 0 <= i < j < |fs| :: RuleNumber(fs[i]) <= RuleNumber(fs[j]))
    && (forall i | 0 <= i < |fs| :: RuleNumber(fs[i]) <= last)
  }

  /** All of one rule. */
  ghost predicate OfRule(fs: seq<Failure>, n: nat) {
    forall i | 0 <= i < |fs| :: RuleNumber(fs[i]) == n
  }

  lemma NextRule(fs: seq<Failure>, more: seq<Failure>, n: nat)
    requires n > 0 && InRuleOrder(fs, n - 1) && OfRule(more, n)
    ensures InRuleOrder(fs + more, n)
  {
  }

  lemma BrokenIsOfRule(rule: Rule, names: seq<string>)
    ensures OfRule(BrokenAll(rule, names), RuleNumber(Broken(rule, "")))
  {
  }

  lemma CascadesAreLast(models: seq<ModelInfo>, r: Registries)
    ensures OfRule(FindUnsafeCascades(models, r), 6)
  {
    var fs := FindUnsafeCascades(models, r);
    forall i | 0 <= i < |fs| ensures RuleNumber(fs[i]) == 6 {
      CascadeMembers(models, r, fs[i]);
    }
  }

  lemma SevenPartsInOrder(a: seq<Failure>, b: seq<Failure>, c: seq<Failure>, d: seq<Failure>, e: seq<Failure>,
                          f: seq<Failure>, g: seq<Failure>)
    requires OfRule(a, 0) && OfRule(b, 1) && OfRule(c, 2) && OfRule(d, 3)
    requires OfRule(e, 4) && OfRule(f, 5) && OfRule(g, 6)
    ensures InRuleOrder(a + b + c + d + e + f + g, 6)
  {
    NextRule(a, b, 1);
    NextRule(a + b, c, 2);
    NextRule(a + b + c, d, 3);
    NextRule(a + b + c + d, e, 4);
    NextRule(a + b + c + d + e, f, 5);
    NextRule(a + b + c + d + e + f, g, 6);
  }

  /** Rule by rule: unregistered, stale, unaccounted, multiply accounted, unknown, unexplained,
      and the keys last. */
  lemma FindingsAreInRuleOrder(models: seq<ModelInfo>, r: Registries, reasons: seq<(string, string)>)
    ensures InRuleOrder(Findings(models, r, reasons), 6)
  {
    BrokenIsOfRule(UnregisteredTenantModel, FindUnregisteredTenantModels(models, r.tenantOwned));
    BrokenIsOfRule(StaleEntry, FindStaleRegistryEntries(models, r.tenantOwned));
    BrokenIsOfRule(Unaccounted, FindUnaccountedModels(models, r));
    BrokenIsOfRule(MultiplyAccounted, FindMultiplyAccountedModels(models, r));
    BrokenIsOfRule(UnknownEntry, FindUnknownRegistryEntries(models, r));
    BrokenIsOfRule(UnexplainedGlobal, FindUnexplainedGlobalEntries(reasons));
    CascadesAreLast(models, r);
    SevenPartsInOrder(
      BrokenAll(UnregisteredTenantModel, FindUnregisteredTenantModels(models, r.tenantOwned)),
      BrokenAll(StaleEntry, FindStaleRegistryEntries(models, r.tenantOwned)),
      BrokenAll(Unaccounted, FindUnaccountedModels(models, r)),
      BrokenAll(MultiplyAccounted, FindMultiplyAccountedModels(models, r)),
      BrokenAll(UnknownEntry, FindUnknownRegistryEntries(models, r)),
      BrokenAll(UnexplainedGlobal, FindUnexplainedGlobalEntries(reasons)),
      FindUnsafeCascades(models, r));
  }

  /** A clean report: each model belongs to exactly one account, the tenant-owned ones are
      those with the tenant column, every account names a model, and no tenant-owned model
      has an undeclared or cascading key to a model that is not tenant-scoped; and every
      global model is given a reason. */
  lemma CleanReportMeans(models: seq<ModelInfo>, r: Registries, reasons: seq<(string, string)>)
    ensures Findings(models, r, reasons) == [] <==>
      && (forall m | m in models :: !InNoAccount(m.name, r) && !InSeveralAccounts(m.name, r))
      && (forall m | m in models && "organizationId" in m.fields :: m.name in r.tenantOwned)
      && (forall n | n in r.tenantOwned :: DescribesTenantModel(models, n))
      && (forall n | n in r.tenantOwned || n == r.tenantRoot || n in r.deliberatelyGlobal :: IsModel(models, n))
      && (forall m, rel | m in models && m.name in r.tenantOwned && rel in m.relations :: !CrossesTenants(r, rel))
      && (forall x | x in reasons :: !JsText.AllBlank(x.1))
  {
    var all := Findings(models, r, reasons);
    if all != [] {
      assert all[0] in all;
      FindingsAreJustified(models, r, reasons, all[0]);
      SomethingToReport(models, r, reasons, all[0]);
    } else {
      forall f ensures !Justified(models, r, reasons, f) {
        FindingsAreJustified(models, r, reasons, f);
      }
      NothingToReport(models, r, reasons);
    }
  }

  lemma SomethingToReport(models: seq<ModelInfo>, r: Registries, reasons: seq<(string, string)>, f: Failure)
    requires Justified(models, r, reasons, f)
    ensures
      || (exists m | m in models :: InNoAccount(m.name, r) || InSeveralAccounts(m.name, r))
      || (exists m | m in models && "organizationId" in m.fields :: m.name !in r.tenantOwned)
      || (exists n | n in r.tenantOwned :: !DescribesTenantModel(models, n))
      || (exists n | n in r.tenantOwned || n == r.tenantRoot || n in r.deliberatelyGlobal :: !IsModel(models, n))
      || (exists m, rel | m in models && m.name in r.tenantOwned && rel in m.relations :: CrossesTenants(r, rel))
      || (exists x | x in reasons :: JsText.AllBlank(x.1))
  {
    if f.Broken? && (f.rule.Unaccounted? || f.rule.MultiplyAccounted?) {
      var i :| 0 <= i < |models| && models[i].name == f.name;
      assert models[i] in models;
    }
  }

  lemma CleanRootIsKnown(models: seq<ModelInfo>, r: Registries, reasons: seq<(string, string)>)
    requires Findings(models, r, reasons) == []
    ensures Known(models, r.tenantRoot)
  {
    CleanReportMeans(models, r, reasons);
    KnownMeans(models, r.tenantRoot);
  }

  lemma NothingToReport(models: seq<ModelInfo>, r: Registries, reasons: seq<(string, string)>)
    requires forall f :: !Justified(models, r, reasons, f)
    ensures forall m | m in models :: !InNoAccount(m.name, r) && !InSeveralAccounts(m.name, r)
    ensures forall m | m in models && "organizationId" in m.fields :: m.name in r.tenantOwned
    ensures forall n | n in r.tenantOwned :: DescribesTenantModel(models, n)
    ensures forall n | n in r.tenantOwned || n == r.tenantRoot || n in r.deliberatelyGlobal :: IsModel(models, n)
    ensures forall m, rel | m in models && m.name in r.tenantOwned && rel in m.relations :: !CrossesTenants(r, rel)
    ensures forall x | x in reasons :: !JsText.AllBlank(x.1)
  {
    forall m | m in models
      ensures !InNoAccount(m.name, r) && !InSeveralAccounts(m.name, r)
      ensures "organizationId" in m.fields ==> m.name in r.tenantOwned
    {
      var i :| 0 <= i < |models| && models[i] == m;
      assert !Justified(models, r, reasons, Broken(Unaccounted, m.name));
      assert !Justified(models, r, reasons, Broken(MultiplyAccounted, m.name));
      assert !Justified(models, r, reasons, Broken(UnregisteredTenantModel, m.name));
    }
    forall n ensures n in r.tenantOwned ==> DescribesTenantModel(models, n) {
      assert !Justified(models, r, reasons, Broken(StaleEntry, n));
    }
    forall n ensures n in r.tenantOwned || n == r.tenantRoot || n in r.deliberatelyGlobal ==> IsModel(models, n) {
      assert !Justified(models, r, reasons, Broken(UnknownEntry, n));
    }
    forall m, rel | m in models && m.name in r.tenantOwned && rel in m.relations ensures !CrossesTenants(r, rel) {
      assert !Justified(models, r, reasons, UnsafeCascade(m.name, rel.field, rel.parentModel, rel.onDelete.Some?));
    }
    forall x | x in reasons ensures !JsText.AllBlank(x.1) {
      assert !Justified(models, r, reasons, Broken(UnexplainedGlobal, x.0));
    }
  }

  // ----- the database -----------------------------------------------------------------

  /** A row: its model, its tenant column, and for each relation field the row it points at. */
  datatype DbRow = DbRow(model: string, organizationId: Option<nat>, parents: map<string, nat>)

  type Database = map<nat, DbRow>

  /** The tenant a tenant-scoped row belongs to; a root row is its own tenant. */
  function TenantOf(r: Registries, id: nat, row: DbRow): Option<nat> {
    if row.model == r.tenantRoot then Some(id) else row.organizationId
  }

  /** Row `child` goes when row `parent` goes, by one declared cascade. */
  ghost predicate CascadesFrom(models: seq<ModelInfo>, db: Database, parent: nat, child: nat) {
    parent in db && child in db &&
    exists m, rel | m in models && rel in m.relations ::
      && m.name == db[child].model && rel.parentModel == db[parent].model
      && rel.onDelete == Some("Cascade")
      && rel.field in db[child].parents && db[child].parents[rel.field] == parent
  }

  /** A chain of cascades, from the deleted row to one that goes with it. */
  ghost predicate CascadeChain(models: seq<ModelInfo>, db: Database, chain: seq<nat>) {
    && chain != [] && chain[0] in db
    && forall i | 0 <= i < |chain| - 1 :: CascadesFrom(models, db, chain[i], chain[i + 1])
  }

  /** Rows are of known models, and foreign keys between tenant-scoped rows agree on the tenant. */
  ghost predicate Consistent(models: seq<ModelInfo>, r: Registries, db: Database) {
    && (forall id | id in db :: Known(models, db[id].model))
    && (forall parent, child | CascadesFrom(models, db, parent, child)
          && TenantScoped(r, db[parent].model) && TenantScoped(r, db[child].model) ::
          TenantOf(r, parent, db[parent]) == TenantOf(r, child, db[child]))
  }

  /** The one key the check does not look at: from the tenant root to a global model. */
  ghost predicate RootCascadesFromGlobal(models: seq<ModelInfo>, r: Registries) {
    exists m, rel | m in models && rel in m.relations ::
      && m.name == r.tenantRoot && rel.onDelete == Some("Cascade")
      && !TenantScoped(r, rel.parentModel) && Known(models, rel.parentModel)
  }

  /** No cascade leads from a row that is not tenant-scoped into one that is. */
  lemma CascadesStayOutside(models: seq<ModelInfo>, r: Registries, reasons: seq<(string, string)>, db: Database,
                            parent: nat, child: nat)
    requires Findings(models, r, reasons) == [] && !RootCascadesFromGlobal(models, r)
    requires Consistent(models, r, db) && CascadesFrom(models, db, parent, child)
    requires !TenantScoped(r, db[parent].model)
    ensures !TenantScoped(r, db[child].model)
  {
    CleanReportMeans(models, r, reasons);
    var m, rel :| m in models && rel in m.relations && m.name == db[child].model && rel.parentModel == db[parent].model
      && rel.onDelete == Some("Cascade") && rel.field in db[child].parents && db[child].parents[rel.field] == parent;
    assert Known(models, rel.parentModel);
    assert CrossesTenants(r, rel);
    assert m.name !in r.tenantOwned && m.name != r.tenantRoot;
  }

  /** THE STATIC CHECK IMPLIES DYNAMIC SAFETY, within one tenant or outside all. If the
      report is clean and the root has no cascading key to a global model, then whatever
      goes with a row that is not tenant-scoped is not tenant-scoped, and whatever
      tenant-scoped row goes with a row of a tenant is of that tenant. */
  lemma {:induction false} CleanReportKeepsCascadesInside(
      models: seq<ModelInfo>, r: Registries, reasons: seq<(string, string)>, db: Database, chain: seq<nat>)
    requires Findings(models, r, reasons) == [] && !RootCascadesFromGlobal(models, r)
    requires Consistent(models, r, db) && CascadeChain(models, db, chain)
    ensures var first, last := chain[0], chain[|chain| - 1];
      && last in db
      && (!TenantScoped(r, db[first].model) ==> !TenantScoped(r, db[last].model))
      && (TenantScoped(r, db[first].model) && TenantScoped(r, db[last].model) ==>
            TenantOf(r, last, db[last]) == TenantOf(r, first, db[first]))
  {
    if |chain| > 1 {
      var n := |chain| - 1;
      var prefix := chain[..n];
      assert forall i | 0 <= i < |prefix| :: prefix[i] == chain[i];
      CleanReportKeepsCascadesInside(models, r, reasons, db, prefix);
      assert prefix[|prefix| - 1] == chain[n - 1] && CascadesFrom(models, db, chain[n - 1], chain[n]);
      if !TenantScoped(r, db[chain[n - 1]].model) {
        CascadesStayOutside(models, r, reasons, db, chain[n - 1], chain[n]);
      }
    }
  }

  /** No deletion of a row that is not tenant-scoped takes a tenant-scoped row with it. */
  ghost predicate GlobalDeletesAreSafe(models: seq<ModelInfo>, r: Registries) {
    forall db: Database, chain: seq<nat>
      | Consistent(models, r, db) && CascadeChain(models, db, chain) && !TenantScoped(r, db[chain[0]].model) ::
      chain[|chain| - 1] in db && !TenantScoped(r, db[chain[|chain| - 1]].model)
  }

  /** The check is exact but for the key it does not look at: with a clean report, deletes
      of global rows spare every tenant-scoped row, in all databases, if and only if the
      root has no cascading key to a global model. */
  lemma SafeExactlyWithoutRootCascade(models: seq<ModelInfo>, r: Registries, reasons: seq<(string, string)>)
    requires Findings(models, r, reasons) == []
    ensures GlobalDeletesAreSafe(models, r) <==> !RootCascadesFromGlobal(models, r)
  {
    if RootCascadesFromGlobal(models, r) {
      RootCascadeReachesTenants(models, r, reasons);
    } else {
      forall db: Database, chain: seq<nat>
        | Consistent(models, r, db) && CascadeChain(models, db, chain) && !TenantScoped(r, db[chain[0]].model)
        ensures chain[|chain| - 1] in db && !TenantScoped(r, db[chain[|chain| - 1]].model)
      {
        CleanReportKeepsCascadesInside(models, r, reasons, db, chain);
      }
    }
  }

  lemma RootCascadeReachesTenants(models: seq<ModelInfo>, r: Registries, reasons: seq<(string, string)>)
    requires Findings(models, r, reasons) == [] && RootCascadesFromGlobal(models, r)
    ensures !GlobalDeletesAreSafe(models, r)
  {
    var m, rel :| m in models && rel in m.relations && m.name == r.tenantRoot && rel.onDelete == Some("Cascade")
      && !TenantScoped(r, rel.parentModel) && Known(models, rel.parentModel);
    var root := DbRow(r.tenantRoot, None, map[rel.field := 0]);
    var db: Database := map[0 := DbRow(rel.parentModel, None, map[]), 1 := root];
    CleanRootIsKnown(models, r, reasons);
    assert CascadesFrom(models, db, 0, 1);
    forall parent, child | CascadesFrom(models, db, parent, child) ensures parent == 0 && child == 1 {}
    assert Consistent(models, r, db);
    var chain := [0, 1];
    assert CascadeChain(models, db, chain);
    assert TenantScoped(r, db[chain[|chain| - 1]].model);
  }

  const USER := ModelInfo("User", ["id"], [])
  const OWNED_ORGANIZATION := ModelInfo("Organization", ["id", "ownerId"], [Relation("owner", "User", Some("Cascade"))])
  const USERS_ARE_GLOBAL := Registries([], "Organization", ["User"])

  /** Such a data model exists: an organisation that goes with its owner. The report is
      clean, and deleting the user deletes the tenant. */
  lemma OwnedOrganizationIsNotReported()
    ensures var models, reasons := [USER, OWNED_ORGANIZATION], [("User", "shared by all tenants")];
      && Findings(models, USERS_ARE_GLOBAL, reasons) == []
      && RootCascadesFromGlobal(models, USERS_ARE_GLOBAL) && !GlobalDeletesAreSafe(models, USERS_ARE_GLOBAL)
  {
    OwnedReportIsClean();
    OwnerCascades();
    RootCascadeReachesTenants([USER, OWNED_ORGANIZATION], USERS_ARE_GLOBAL, [("User", "shared by all tenants")]);
  }

  lemma OwnedReportIsClean()
    ensures Findings([USER, OWNED_ORGANIZATION], USERS_ARE_GLOBAL, [("User", "shared by all tenants")]) == []
  {
    var models, reasons := [USER, OWNED_ORGANIZATION], [("User", "shared by all tenants")];
    assert reasons[0].1[0] in reasons[0].1;
    assert models[0].name == "User" && models[1].name == "Organization";
    CleanReportMeans(models, USERS_ARE_GLOBAL, reasons);
  }

  lemma OwnerCascades()
    ensures RootCascadesFromGlobal([USER, OWNED_ORGANIZATION], USERS_ARE_GLOBAL)
  {
    var models := [USER, OWNED_ORGANIZATION];
    assert USER in models && OWNED_ORGANIZATION in models;
    assert OWNED_ORGANIZATION.relations[0] in OWNED_ORGANIZATION.relations;
  }

  // ----- deletes inside a tenant --------------------------------------------------------

  /** A declared key of a child model. */
  datatype Edge = Edge(child: string, rel: Relation)

  ghost predicate Cascading(models: seq<ModelInfo>, e: Edge) {
    e.rel.onDelete == Some("Cascade") && exists m | m in models :: m.name == e.child && e.rel in m.relations
  }

  /** Cascading keys that lead from a tenant-scoped model through global ones to the root. */
  ghost predicate LeadsOutAndBack(models: seq<ModelInfo>, r: Registries, path: seq<Edge>) {
    && |path| >= 2
    && (forall i | 0 <= i < |path| :: Cascading(models, path[i]))
    && TenantScoped(r, path[0].rel.parentModel) && Known(models, path[0].rel.parentModel)
    && path[|path| - 1].child == r.tenantRoot
    && (forall i | 0 <= i < |path| - 1 ::
         !TenantScoped(r, path[i].child) && path[i + 1].rel.parentModel == path[i].child)
  }

  /** No deletion of a row of a tenant takes a row of another tenant with it. */
  ghost predicate TenantDeletesAreSafe(models: seq<ModelInfo>, r: Registries) {
    forall db: Database, chain: seq<nat> | Consistent(models, r, db) && JoinsTenants(models, r, db, chain) ::
      SameTenant(r, db, chain[0], chain[|chain| - 1])
  }

  /** A chain of cascades from a tenant-scoped row to a tenant-scoped row. */
  ghost predicate JoinsTenants(models: seq<ModelInfo>, r: Registries, db: Database, chain: seq<nat>) {
    && CascadeChain(models, db, chain) && TenantScoped(r, db[chain[0]].model)
    && chain[|chain| - 1] in db && TenantScoped(r, db[chain[|chain| - 1]].model)
  }

  predicate SameTenant(r: Registries, db: Database, a: nat, b: nat) {
    a in db && b in db && TenantOf(r, a, db[a]) == TenantOf(r, b, db[b])
  }

  lemma {:induction false} ChainRowsExist(models: seq<ModelInfo>, db: Database, chain: seq<nat>, i: nat)
    requires CascadeChain(models, db, chain) && i < |chain|
    ensures chain[i] in db
  {
    if i > 0 { assert CascadesFrom(models, db, chain[i - 1], chain[i - 1 + 1]); }
  }

  /** The last tenant-scoped row before the end of a chain. */
  lemma {:induction false} LastScopedBefore(models: seq<ModelInfo>, r: Registries, db: Database,
                                            chain: seq<nat>, n: nat)
    returns (k: nat)
    requires CascadeChain(models, db, chain) && TenantScoped(r, db[chain[0]].model) && 0 < n <= |chain|
    ensures k < n && chain[k] in db && TenantScoped(r, db[chain[k]].model)
    ensures forall i | k < i < n :: chain[i] in db && !TenantScoped(r, db[chain[i]].model)
  {
    ChainRowsExist(models, db, chain, n - 1);
    if TenantScoped(r, db[chain[n - 1]].model) {
      k := n - 1;
    } else {
      k := LastScopedBefore(models, r, db, chain, n - 1);
    }
  }

  /** The key behind one cascade. */
  lemma EdgeOf(models: seq<ModelInfo>, db: Database, parent: nat, child: nat) returns (e: Edge)
    requires CascadesFrom(models, db, parent, child)
    ensures Cascading(models, e) && e.child == db[child].model && e.rel.parentModel == db[parent].model
  {
    var m, rel :| m in models && rel in m.relations && m.name == db[child].model && rel.parentModel == db[parent].model
      && rel.onDelete == Some("Cascade") && rel.field in db[child].parents && db[child].parents[rel.field] == parent;
    e := Edge(m.name, rel);
  }

  /** The key behind the cascade from row `j` of a chain to the next. */
  ghost predicate Behind(models: seq<ModelInfo>, db: Database, chain: seq<nat>, j: nat, e: Edge) {
    && j + 1 < |chain| && chain[j] in db && chain[j + 1] in db && Cascading(models, e)
    && e.rel.parentModel == db[chain[j]].model && e.child == db[chain[j + 1]].model
  }

  /** The keys behind a chain, from row `k` to row `n`. */
  lemma {:induction false} PathOf(models: seq<ModelInfo>, db: Database, chain: seq<nat>, k: nat, n: nat)
    returns (path: seq<Edge>)
    requires CascadeChain(models, db, chain) && k <= n < |chain|
    ensures |path| == n - k && forall i | 0 <= i < |path| :: Behind(models, db, chain, k + i, path[i])
  {
    path := [];
    if k < n {
      var prefix := PathOf(models, db, chain, k, n - 1);
      assert CascadesFrom(models, db, chain[n - 1], chain[n - 1 + 1]);
      var e := EdgeOf(models, db, chain[n - 1], chain[n]);
      assert Behind(models, db, chain, k + (n - 1 - k), e);
      path := prefix + [e];
    }
  }

  /** A tenant-scoped row that goes with a global one is a root row. */
  lemma OnlyTheRootFollowsGlobalRows(models: seq<ModelInfo>, r: Registries, reasons: seq<(string, string)>, e: Edge)
    requires Findings(models, r, reasons) == [] && Cascading(models, e)
    requires !TenantScoped(r, e.rel.parentModel) && TenantScoped(r, e.child)
    ensures e.child == r.tenantRoot
  {
    CleanReportMeans(models, r, reasons);
    var m :| m in models && m.name == e.child && e.rel in m.relations;
    assert CrossesTenants(r, e.rel);
  }

  lemma SegmentLeadsOutAndBack(models: seq<ModelInfo>, r: Registries, reasons: seq<(string, string)>,
                               db: Database, chain: seq<nat>, k: nat)
    requires Findings(models, r, reasons) == [] && Consistent(models, r, db) && JoinsTenants(models, r, db, chain)
    requires k + 1 < |chain| - 1 && chain[k] in db && TenantScoped(r, db[chain[k]].model)
    requires forall i | k < i < |chain| - 1 :: chain[i] in db && !TenantScoped(r, db[chain[i]].model)
    ensures exists path :: LeadsOutAndBack(models, r, path)
  {
    var path := PathOf(models, db, chain, k, |chain| - 1);
    var last := |path| - 1;
    assert Behind(models, db, chain, k + last, path[last]) && Behind(models, db, chain, k + 0, path[0]);
    OnlyTheRootFollowsGlobalRows(models, r, reasons, path[last]);
    GlobalInBetween(models, r, db, chain, k, path);
    assert forall i | 0 <= i < |path| :: Behind(models, db, chain, k + i, path[i]) ==> Cascading(models, path[i]);
    assert LeadsOutAndBack(models, r, path);
  }

  lemma GlobalInBetween(models: seq<ModelInfo>, r: Registries, db: Database, chain: seq<nat>, k: nat, path: seq<Edge>)
    requires |path| == |chain| - 1 - k && forall i | 0 <= i < |path| :: Behind(models, db, chain, k + i, path[i])
    requires forall i | k < i < |chain| - 1 :: chain[i] in db && !TenantScoped(r, db[chain[i]].model)
    ensures forall i | 0 <= i < |path| - 1 ::
      !TenantScoped(r, path[i].child) && path[i + 1].rel.parentModel == path[i].child
  {
    forall i | 0 <= i < |path| - 1
      ensures !TenantScoped(r, path[i].child) && path[i + 1].rel.parentModel == path[i].child
    {
      assert Behind(models, db, chain, k + i, path[i]) && Behind(models, db, chain, k + (i + 1), path[i + 1]);
    }
  }

  lemma {:induction false} ChainStaysInTenant(models: seq<ModelInfo>, r: Registries, reasons: seq<(string, string)>,
                                              db: Database, chain: seq<nat>)
    requires Findings(models, r, reasons) == [] && Consistent(models, r, db) && JoinsTenants(models, r, db, chain)
    requires !exists path :: LeadsOutAndBack(models, r, path)
    ensures SameTenant(r, db, chain[0], chain[|chain| - 1])
    decreases |chain|
  {
    var n := |chain| - 1;
    if n > 0 {
      var k := LastScopedBefore(models, r, db, chain, n);
      if k + 1 < n { SegmentLeadsOutAndBack(models, r, reasons, db, chain, k); }
      var prefix := chain[..k + 1];
      assert CascadeChain(models, db, prefix) by {
        assert forall i | 0 <= i < |prefix| :: prefix[i] == chain[i];
      }
      ChainStaysInTenant(models, r, reasons, db, prefix);
      assert CascadesFrom(models, db, chain[n - 1], chain[n - 1 + 1]);
    }
  }

  /** Rows along a path: row 0 belongs to some tenant, the last one is another tenant's root. */
  function RowAlong(path: seq<Edge>, i: nat): DbRow
    requires i <= |path| && path != []
  {
    if i == 0 then DbRow(path[0].rel.parentModel, Some(|path| + 1), map[])
    else DbRow(path[i - 1].child, None, map[path[i - 1].rel.field := i - 1])
  }

  function RowsAlong(path: seq<Edge>): Database
    requires path != []
  {
    map i: nat | i <= |path| :: RowAlong(path, i)
  }

  lemma RowsCascadeAlong(models: seq<ModelInfo>, r: Registries, path: seq<Edge>, i: nat)
    requires LeadsOutAndBack(models, r, path) && i < |path|
    ensures CascadesFrom(models, RowsAlong(path), i, i + 1)
  {
    var db, e := RowsAlong(path), path[i];
    var m :| m in models && m.name == e.child && e.rel in m.relations;
    assert db[i + 1] == DbRow(e.child, None, map[e.rel.field := i]);
    assert i > 0 ==> path[i - 1 + 1].rel.parentModel == path[i - 1].child;
    assert db[i].model == e.rel.parentModel;
  }

  lemma RowsAlongAreConsistent(models: seq<ModelInfo>, r: Registries, path: seq<Edge>)
    requires LeadsOutAndBack(models, r, path)
    ensures Consistent(models, r, RowsAlong(path))
  {
    var db := RowsAlong(path);
    forall id | id in db ensures Known(models, db[id].model) {
      if id > 0 { assert Cascading(models, path[id - 1]); }
    }
    forall parent, child | CascadesFrom(models, db, parent, child) && TenantScoped(r, db[child].model)
      ensures !TenantScoped(r, db[parent].model)
    {
      assert child > 0 && parent == child - 1;
      assert child == |path|;
      assert db[parent].model == path[|path| - 2].child;
    }
  }

  lemma ChainAlong(models: seq<ModelInfo>, r: Registries, path: seq<Edge>) returns (chain: seq<nat>)
    requires LeadsOutAndBack(models, r, path)
    ensures chain == seq(|path| + 1, i => i) && JoinsTenants(models, r, RowsAlong(path), chain)
  {
    var db := RowsAlong(path);
    chain := seq(|path| + 1, i => i);
    forall i | 0 <= i < |path| ensures CascadesFrom(models, db, chain[i], chain[i + 1]) {
      RowsCascadeAlong(models, r, path, i);
    }
    assert db[0].model == path[0].rel.parentModel && db[|path|].model == path[|path| - 1].child;
  }

  lemma PathBreaksTenants(models: seq<ModelInfo>, r: Registries, path: seq<Edge>)
    requires LeadsOutAndBack(models, r, path)
    ensures !TenantDeletesAreSafe(models, r)
  {
    var chain := ChainAlong(models, r, path);
    RowsAlongAreConsistent(models, r, path);
    EndsDiffer(models, r, path);
    assert chain[0] == 0 && chain[|chain| - 1] == |path|;
  }

  lemma EndsDiffer(models: seq<ModelInfo>, r: Registries, path: seq<Edge>)
    requires LeadsOutAndBack(models, r, path)
    ensures !SameTenant(r, RowsAlong(path), 0, |path|)
  {
  }

  /** With a clean report, deletes of a tenant's rows spare every other tenant, in all
      databases, if and only if no cascading keys lead from a tenant-scoped model out through
      global ones and back to the root. */
  lemma TenantDeletesSafeExactly(models: seq<ModelInfo>, r: Registries, reasons: seq<(string, string)>)
    requires Findings(models, r, reasons) == []
    ensures TenantDeletesAreSafe(models, r) <==> !exists path :: LeadsOutAndBack(models, r, path)
  {
    if path :| LeadsOutAndBack(models, r, path) {
      PathBreaksTenants(models, r, path);
    } else {
      forall db: Database, chain: seq<nat> | Consistent(models, r, db) && JoinsTenants(models, r, db, chain)
        ensures SameTenant(r, db, chain[0], chain[|chain| - 1])
      {
        ChainStaysInTenant(models, r, reasons, db, chain);
      }
    }
  }

  const HOMED_USER := ModelInfo("User", ["id", "homeId"], [Relation("home", "Organization", Some("Cascade"))])

  /** A user that goes with its home organisation, and an organisation that goes with its
      owner: the report is clean, and deleting one tenant can delete another. */
  lemma HomedOwnerIsNotReported()
    ensures var models, reasons := [HOMED_USER, OWNED_ORGANIZATION], [("User", "shared by all tenants")];
      Findings(models, USERS_ARE_GLOBAL, reasons) == [] && !TenantDeletesAreSafe(models, USERS_ARE_GLOBAL)
  {
    HomedReportIsClean();
    HomeAndOwnerLeadBack();
    var path := [Edge("User", HOMED_USER.relations[0]), Edge("Organization", OWNED_ORGANIZATION.relations[0])];
    PathBreaksTenants([HOMED_USER, OWNED_ORGANIZATION], USERS_ARE_GLOBAL, path);
  }

  lemma HomeAndOwnerLeadBack()
    ensures LeadsOutAndBack([HOMED_USER, OWNED_ORGANIZATION], USERS_ARE_GLOBAL,
      [Edge("User", HOMED_USER.relations[0]), Edge("Organization", OWNED_ORGANIZATION.relations[0])])
  {
    var models := [HOMED_USER, OWNED_ORGANIZATION];
    var path := [Edge("User", HOMED_USER.relations[0]), Edge("Organization", OWNED_ORGANIZATION.relations[0])];
    assert HOMED_USER in models && OWNED_ORGANIZATION in models;
    assert path[0].rel in HOMED_USER.relations && path[1].rel in OWNED_ORGANIZATION.relations;
    assert Known(models, "Organization");
    assert Cascading(models, path[0]) && Cascading(models, path[1]);
  }

  lemma HomedReportIsClean()
    ensures Findings([HOMED_USER, OWNED_ORGANIZATION], USERS_ARE_GLOBAL, [("User", "shared by all tenants")]) == []
  {
    var models, reasons := [HOMED_USER, OWNED_ORGANIZATION], [("User", "shared by all tenants")];
    assert reasons[0].1[0] in reasons[0].1;
    assert models[0].name == "User" && models[1].name == "Organization";
    CleanReportMeans(models, USERS_ARE_GLOBAL, reasons);
  }
}
