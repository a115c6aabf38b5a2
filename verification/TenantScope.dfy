/** How one top-level operation must be scoped to a tenant: the pure decision. */
module TenantScope {
  import opened Wrappers
  import opened Store

  /** The models of the registry; any other name is global, or unknown. */
  datatype Model = Membership | Invitation | AuditEvent | Organization | Global(name: string) | Unnamed

  predicate IsTenantOwned(m: Model) { m.Membership? || m.Invitation? || m.AuditEvent? }

  predicate IsTenantRoot(m: Model) { m.Organization? }

  predicate IsTenantScoped(m: Model) { IsTenantOwned(m) || IsTenantRoot(m) }

  const ID := "id"
  const ORGANIZATION_ID := "organizationId"

  function KeyField(m: Model): string {
    if IsTenantRoot(m) then ID else ORGANIZATION_ID
  }

  datatype ScopePlan =
    | Passthrough
    | Refuse
    | Run(args: Args)
    | RunAndCheck(args: Args, checkField: string, expected: string, notFoundIsThrow: bool, stripCheckField: bool)

  predicate HasOwnScopeContext(org: Option<string>) {
    org.Some? && org.value != ""
  }

  datatype Adjusted = Adjusted(args: Args, strip: bool)

  function AdjustProjectionForCheck(a: Args, key: string): Adjusted {
    if a.select.Some? then
      var s := a.select.value;
      if key in s && s[key] then Adjusted(a, false)
      else Adjusted(a.(select := Some(s[key := true])), true)
    else if a.omit.Some? && key in a.omit.value && a.omit.value[key] then
      Adjusted(a.(omit := Some(a.omit.value - {key})), true)
    else Adjusted(a, false)
  }

  function WithScopedWhere(w: Option<Where>, key: string, value: string): Where {
    var base := if w.Some? then w.value else EVERYTHING;
    if key in base.fields then
      EVERYTHING.(and := [base, EVERYTHING.(fields := map[key := Lit(Str(value))])])
    else base.(fields := base.fields[key := Lit(Str(value))])
  }

  function ScopeUniqueWhere(w: Option<Where>, key: string, value: string): Option<Where> {
    var base := if w.Some? then w.value else EVERYTHING;
    if key in base.fields && base.fields[key] != Lit(Str(value)) then None
    else Some(base.(fields := base.fields[key := Lit(Str(value))]))
  }

  function WithScopedData(d: Option<Data>, key: string, value: string): Data {
    if d.None? then One(map[key := Str(value)])
    else match d.value
      case Many(rows) => Many(seq(|rows|, i requires 0 <= i < |rows| => rows[i][key := Str(value)]))
      case One(cols) => One(cols[key := Str(value)])
  }

  predicate RootDisallowed(op: Operation) {
    op.Create? || op.CreateMany? || op.CreateManyAndReturn? || op.Upsert?
  }

  function DecideScope(m: Model, op: Operation, a: Args, org: Option<string>): ScopePlan {
    if !IsTenantScoped(m) then Passthrough
    else if !HasOwnScopeContext(org) then Refuse
    else if IsTenantRoot(m) && RootDisallowed(op) then Refuse
    else
      var key := KeyField(m);
      var t := org.value;
      match op
      case FindUnique =>
        var adj := AdjustProjectionForCheck(a, key);
        RunAndCheck(adj.args, key, t, false, adj.strip)
      case FindUniqueOrThrow =>
        var adj := AdjustProjectionForCheck(a, key);
        RunAndCheck(adj.args, key, t, true, adj.strip)
      case FindFirst => ScopedRead(a, key, t)
      case FindFirstOrThrow => ScopedRead(a, key, t)
      case FindMany => ScopedRead(a, key, t)
      case Count => ScopedRead(a, key, t)
      case Aggregate => ScopedRead(a, key, t)
      case GroupBy => ScopedRead(a, key, t)
      case DeleteMany => ScopedRead(a, key, t)
      case UpdateMany => ScopedWrite(a, key, t)
      case UpdateManyAndReturn => ScopedWrite(a, key, t)
      case Delete =>
        var scoped := ScopeUniqueWhere(a.where, key, t);
        if scoped.None? then Refuse else Run(a.(where := scoped))
      case Update =>
        var scoped := ScopeUniqueWhere(a.where, key, t);
        if scoped.None? then Refuse
        else Run(a.(where := scoped, data := Some(WithScopedData(a.data, key, t))))
      case Create => ScopedData(a, key, t)
      case CreateMany => ScopedData(a, key, t)
      case CreateManyAndReturn => ScopedData(a, key, t)
      case Upsert =>
        var scoped := ScopeUniqueWhere(a.where, key, t);
        if scoped.None? then Refuse
        else Run(a.(where := scoped,
                    create := Some(WithScopedData(a.create, key, t)),
                    update := Some(WithScopedData(a.update, key, t))))
      case Other(_) => Refuse
  }

  function ScopedRead(a: Args, key: string, t: string): ScopePlan {
    Run(a.(where := Some(WithScopedWhere(a.where, key, t))))
  }

  function ScopedWrite(a: Args, key: string, t: string): ScopePlan {
    Run(a.(where := Some(WithScopedWhere(a.where, key, t)), data := Some(WithScopedData(a.data, key, t))))
  }

  function ScopedData(a: Args, key: string, t: string): ScopePlan {
    Run(a.(data := Some(WithScopedData(a.data, key, t))))
  }
}
