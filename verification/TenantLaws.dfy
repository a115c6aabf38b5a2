/** What the scoped client does, model by model and column by column, without its own vocabulary. */
module TenantLaws {
  import opened Wrappers
  import opened Store
  import opened TenantScope
  import opened TenantClient
  import opened TenantIsolation
  import opened TenantRefinement

  /** The models that are kept apart, each with the column that says whose a row is. */
  predicate KeptApart(m: Model, column: string) {
    match m
    case Membership => column == "organizationId"
    case Invitation => column == "organizationId"
    case AuditEvent => column == "organizationId"
    case Organization => column == "id"
    case Global(_) => false
    case Unnamed => false
  }

  /** The `where` holds something else for the column than the tenant as a bare value. */
  predicate PinsElsewhere(a: Args, column: string, t: string) {
    a.where.Some? && column in a.where.value.fields && a.where.value.fields[column] != Lit(Str(t))
  }

  lemma KeptApartIsScoped(m: Model, column: string)
    requires KeptApart(m, column)
    ensures IsTenantScoped(m) && KeyField(m) == column
    ensures IsTenantRoot(m) <==> m == Organization
  {
  }

  lemma EngineNeverAsksForATenant(s: Schema, op: Operation, a: Args, table: seq<Row>)
    ensures Query(s, op, a, table).out != Failed(MissingTenantContext)
  {
  }

  lemma CheckNeverAsksForATenant(s: Schema, m: Model, op: Operation, a: Args, t: string, table: seq<Row>)
    requires IsTenantScoped(m) && t != "" && IsLookup(op)
    ensures Step(s, m, op, a, Some(t), table).out != Failed(MissingTenantContext)
  {
    var adj := AdjustProjectionForCheck(a, KeyField(m));
    LookupPlan(s, m, op, a, t, table);
    EngineNeverAsksForATenant(s, op, adj.args, table);
    EngineNeverAsksForATenant(s, op, MissArgs(), Query(s, op, adj.args, table).table);
  }

  /** WHICH CALLS ARE REFUSED: without a tenant; making or replacing a tenant itself; an
      operation outside the list; a unique write that pins the column to anything else. */
  lemma RefusedExactly(s: Schema, m: Model, column: string, op: Operation, a: Args, org: Option<string>,
                       table: seq<Row>)
    requires KeptApart(m, column)
    ensures Step(s, m, op, a, org, table).out == Failed(MissingTenantContext) <==>
      || org == None || org == Some("")
      || (m == Organization && (op == Create || op == CreateMany || op == CreateManyAndReturn || op == Upsert))
      || op.Other?
      || ((op == Delete || op == Update || op == Upsert) && PinsElsewhere(a, column, org.value))
    ensures Step(s, m, op, a, org, table).out == Failed(MissingTenantContext)
      ==> Step(s, m, op, a, org, table).table == table
  {
    KeptApartIsScoped(m, column);
    var plan := DecideScope(m, op, a, org);
    if plan.Run? {
      EngineNeverAsksForATenant(s, op, plan.args, table);
    } else if plan.RunAndCheck? {
      CheckNeverAsksForATenant(s, m, op, a, org.value, table);
    }
  }

  /** Every other model is left to the engine as it is. */
  lemma OtherModelsPassThrough(s: Schema, m: Model, op: Operation, a: Args, org: Option<string>, table: seq<Row>)
    requires m.Global? || m.Unnamed?
    ensures Step(s, m, op, a, org, table) == Query(s, op, a, table)
  {
  }

  /** The rows of the tenant that the caller's condition matches, in table order. */
  function OwnMatches(column: string, t: string, w: Where, table: seq<Row>): seq<Row> {
    if table == [] then []
    else if Get(table[0], column) == Str(t) && Matches(w, table[0]) then
      [table[0]] + OwnMatches(column, t, w, table[1..])
    else OwnMatches(column, t, w, table[1..])
  }

  /** The rows that are not among them. */
  function AllButOwnMatches(column: string, t: string, w: Where, table: seq<Row>): seq<Row> {
    if table == [] then []
    else if Get(table[0], column) == Str(t) && Matches(w, table[0]) then
      AllButOwnMatches(column, t, w, table[1..])
    else [table[0]] + AllButOwnMatches(column, t, w, table[1..])
  }

  lemma {:induction false} MatchingIsOwnMatches(a: Args, column: string, t: string, table: seq<Row>)
    ensures Matching(WithScopedWhere(a.where, column, t), table) == OwnMatches(column, t, WhereOf(a), table)
    ensures Rejecting(WithScopedWhere(a.where, column, t), table) == AllButOwnMatches(column, t, WhereOf(a), table)
  {
    if table != [] {
      ScopedWhereSelectsOwnMatches(a.where, column, t, table[0]);
      MatchingIsOwnMatches(a, column, t, table[1..]);
    }
  }

  predicate IsRead(op: Operation) {
    op == FindFirst || op == FindFirstOrThrow || op == FindMany || op == Count || op == Aggregate || op == GroupBy
  }

  /** A read is computed from the tenant's own matching rows and from nothing else. */
  lemma ReadsSeeOwnRows(s: Schema, m: Model, column: string, op: Operation, a: Args, t: string, table: seq<Row>)
    requires KeptApart(m, column) && t != "" && IsRead(op)
    ensures Step(s, m, op, a, Some(t), table) ==
      if Accepts(s, op, a) then Answer(table, Read(op, a, OwnMatches(column, t, WhereOf(a), table)))
      else Answer(table, Failed(Invalid))
  {
    KeptApartIsScoped(m, column);
    MatchingIsOwnMatches(a, column, t, table);
    var b := a.(where := Some(WithScopedWhere(a.where, column, t)));
    ReadsAgree(op, b, a, OwnMatches(column, t, WhereOf(a), table));
  }

  /** A bulk delete takes the tenant's own matching rows, all of them and no others. */
  lemma DeletesTakeOwnRows(s: Schema, m: Model, column: string, a: Args, t: string, table: seq<Row>)
    requires KeptApart(m, column) && t != ""
    ensures Step(s, m, DeleteMany, a, Some(t), table)
         == Answer(AllButOwnMatches(column, t, WhereOf(a), table), Counted(|OwnMatches(column, t, WhereOf(a), table)|))
  {
    KeptApartIsScoped(m, column);
    MatchingIsOwnMatches(a, column, t, table);
  }

  /** A lookup shows the row it finds if that is the tenant's, and otherwise nothing. */
  lemma LookupsSeeOwnRows(s: Schema, m: Model, column: string, op: Operation, a: Args, t: string, table: seq<Row>)
    requires KeptApart(m, column) && t != "" && (op == FindUnique || op == FindUniqueOrThrow)
    requires Column("id") in s.uniques && Accepts(s, op, a)
    ensures var r := First(WhereOf(a), table);
      Step(s, m, op, a, Some(t), table) == Answer(table,
        if r.Some? && Get(r.value, column) == Str(t) then Found(Some(Project(a, r.value)))
        else if op == FindUnique then Found(None)
        else Failed(NotFound))
  {
    KeptApartIsScoped(m, column);
    LookupPlan(s, m, op, a, t, table);
    WideningKeepsAcceptance(s, op, a, column);
    LookupQuery(s, op, AdjustProjectionForCheck(a, column).args, table);
    CheckedOwnedRow(s, op, a, column, t, table);
  }

  // ----- writes ---------------------------------------------------------------------------

  lemma {:induction false} ForeignHoldsTheOthers(column: string, t: string, table: seq<Row>, r: Row)
    requires Get(r, column) != Str(t)
    ensures multiset(Foreign(column, t, table))[r] == multiset(table)[r]
  {
    if table != [] {
      ForeignHoldsTheOthers(column, t, table[1..], r);
      assert table == [table[0]] + table[1..];
    }
  }

  /** No call changes, removes or adds a row that is not the tenant's: each occurs as often
      after the call as before. */
  lemma CallsTouchOwnRows(s: Schema, m: Model, column: string, op: Operation, a: Args, t: string, table: seq<Row>,
                          r: Row)
    requires KeptApart(m, column) && UniqueOk(s, table)
    requires Get(r, column) != Str(t)
    ensures multiset(Step(s, m, op, a, Some(t), table).table)[r] == multiset(table)[r]
  {
    KeptApartIsScoped(m, column);
    StepLeavesForeignRows(s, m, op, a, Some(t), table);
    if t != "" {
      ForeignHoldsTheOthers(column, t, table, r);
      ForeignHoldsTheOthers(column, t, Step(s, m, op, a, Some(t), table).table, r);
    }
  }

  /** What is shown is the projection of a row of the tenant. */
  ghost predicate ShowsOwn(a: Args, column: string, t: string, shown: Row) {
    exists r :: Get(r, column) == Str(t) && shown == Project(a, r)
  }

  lemma {:induction false} WrittenAreOwn(w: Where, cols: Row, column: string, t: string, table: seq<Row>)
    requires Get(cols, column) == Str(t)
    ensures forall r | r in Written(w, cols, table) :: Get(r, column) == Str(t)
  {
    if table != [] { WrittenAreOwn(w, cols, column, t, table[1..]); }
  }

  lemma ProjectedAreOwn(a: Args, column: string, t: string, rows: seq<Row>)
    requires forall r | r in rows :: Get(r, column) == Str(t)
    ensures forall shown | shown in ProjectAll(a, rows) :: ShowsOwn(a, column, t, shown)
  {
    forall shown | shown in ProjectAll(a, rows) ensures ShowsOwn(a, column, t, shown) {
      var i :| 0 <= i < |rows| && shown == Project(a, rows[i]);
      assert rows[i] in rows;
    }
  }

  lemma BulkWritesReturnOwnRows(s: Schema, m: Model, column: string, op: Operation, a: Args, t: string,
                                table: seq<Row>)
    requires KeptApart(m, column) && t != "" && (op == CreateManyAndReturn || op == UpdateManyAndReturn)
    ensures var out := Step(s, m, op, a, Some(t), table).out;
      out.Listed? ==> forall shown | shown in out.rows :: ShowsOwn(a, column, t, shown)
  {
    KeptApartIsScoped(m, column);
    var plan := DecideScope(m, op, a, Some(t));
    if plan.Run? && Accepts(s, op, plan.args) {
      var b := plan.args;
      var rows :=
        if op.UpdateManyAndReturn? then Written(WhereOf(b), b.data.value.cols, table)
        else if a.skipDuplicates then Insertable(s, RowsOf(s, b.data.value), table) else RowsOf(s, b.data.value);
      if op.UpdateManyAndReturn? {
        WrittenAreOwn(WhereOf(b), b.data.value.cols, column, t, table);
      } else {
        InsertableSubset(s, RowsOf(s, b.data.value), table);
        forall r | r in rows ensures Get(r, column) == Str(t) { ForcedRowsOwned(s, a.data, column, t, r); }
      }
      ProjectedAreOwn(a, column, t, rows);
      assert ProjectAll(a, rows) == ProjectAll(b, rows);
    }
  }

  lemma ShownRow(a: Args, b: Args, r: Row, column: string, t: string)
    requires Get(r, column) == Str(t) && a.select == b.select && a.omit == b.omit
    ensures Project(b, r) == Project(a, r) && ShowsOwn(a, column, t, Project(a, r))
  {
  }

  /** The row as the tenant's client writes it: the payload, the tenant in its column. */
  function OwnRow(base: Row, cols: Row, column: string, t: string): (r: Row)
    ensures Get(r, column) == Str(t)
  {
    base + cols[column := Str(t)]
  }

  /** The answer to a write: the new table and the row as the caller asked to see it, unless a
      unique index would break. */
  function WrittenOr(s: Schema, a: Args, table: seq<Row>, after: seq<Row>, row: Row): Answer {
    if UniqueOk(s, after) then Answer(after, Found(Some(Project(a, row)))) else Answer(table, Failed(UniqueViolation))
  }

  /** A create adds the caller's row as the tenant's, whatever the payload says of the column. */
  lemma CreatesAddOwnRow(s: Schema, m: Model, column: string, a: Args, t: string, table: seq<Row>)
    requires KeptApart(m, column) && m != Organization && t != "" && Accepts(s, Create, a)
    ensures var row := OwnRow(s.defaults, a.data.value.cols, column, t);
      Step(s, m, Create, a, Some(t), table) == WrittenOr(s, a, table, table + [row], row)
  {
    KeptApartIsScoped(m, column);
    ShownRow(a, a.(data := Some(WithScopedData(a.data, column, t))),
             OwnRow(s.defaults, a.data.value.cols, column, t), column, t);
  }

  /** The rows after an update of the tenant's own matching ones. */
  function UpdatedOwn(column: string, t: string, w: Where, cols: Row, table: seq<Row>): seq<Row> {
    if table == [] then []
    else
      var mine := Get(table[0], column) == Str(t) && Matches(w, table[0]);
      [if mine then OwnRow(table[0], cols, column, t) else table[0]] + UpdatedOwn(column, t, w, cols, table[1..])
  }

  lemma {:induction false} WritingAllIsUpdatingOwn(a: Args, cols: Row, column: string, t: string, table: seq<Row>)
    ensures WriteAll(WithScopedWhere(a.where, column, t), cols[column := Str(t)], table)
         == UpdatedOwn(column, t, WhereOf(a), cols, table)
  {
    if table != [] {
      ScopedWhereSelectsOwnMatches(a.where, column, t, table[0]);
      WritingAllIsUpdatingOwn(a, cols, column, t, table[1..]);
    }
  }

  /** A bulk update writes the tenant's own matching rows, all of them and no others. */
  lemma UpdatesWriteOwnRows(s: Schema, m: Model, column: string, a: Args, t: string, table: seq<Row>)
    requires KeptApart(m, column) && t != "" && Accepts(s, UpdateMany, a)
    ensures var after := UpdatedOwn(column, t, WhereOf(a), a.data.value.cols, table);
      Step(s, m, UpdateMany, a, Some(t), table) ==
        if UniqueOk(s, after) then Answer(after, Counted(|OwnMatches(column, t, WhereOf(a), table)|))
        else Answer(table, Failed(UniqueViolation))
  {
    UpdateManyPlan(s, m, column, a, t, table);
    MatchingIsOwnMatches(a, column, t, table);
    WritingAllIsUpdatingOwn(a, a.data.value.cols, column, t, table);
  }

  lemma UpdateManyPlan(s: Schema, m: Model, column: string, a: Args, t: string, table: seq<Row>)
    requires KeptApart(m, column) && t != "" && Accepts(s, UpdateMany, a)
    ensures var w := WithScopedWhere(a.where, column, t);
      Step(s, m, UpdateMany, a, Some(t), table)
        == Commit(s, table, WriteAll(w, a.data.value.cols[column := Str(t)], table), Counted(|Matching(w, table)|))
  {
    KeptApartIsScoped(m, column);
  }

  // ----- one row by its unique key --------------------------------------------------------

  predicate IsOwnMatch(column: string, t: string, w: Where, r: Row) {
    Get(r, column) == Str(t) && Matches(w, r)
  }

  /** The `where` selects the tenant's row at `i` before any other of its rows. */
  ghost predicate FirstOwn(column: string, t: string, w: Where, table: seq<Row>, i: nat) {
    && i < |table| && IsOwnMatch(column, t, w, table[i])
    && forall j | 0 <= j < i :: !IsOwnMatch(column, t, w, table[j])
  }

  ghost predicate NoneOwn(column: string, t: string, w: Where, table: seq<Row>) {
    forall j | 0 <= j < |table| :: !IsOwnMatch(column, t, w, table[j])
  }

  /** The condition selects just those rows. */
  ghost predicate SelectsOwn(w': Where, column: string, t: string, w: Where) {
    forall r :: Matches(w', r) <==> IsOwnMatch(column, t, w, r)
  }

  /** The row at `i` is the first that the condition selects. */
  ghost predicate FirstAt(w: Where, table: seq<Row>, i: nat) {
    i < |table| && Matches(w, table[i]) && forall j | 0 <= j < i :: !Matches(w, table[j])
  }

  lemma TailOf(p: seq<Row>, rest: seq<Row>)
    requires p != []
    ensures (p + rest)[0] == p[0] && (p + rest)[1..] == p[1..] + rest
    ensures [p[0]] + (p[1..] + rest) == p + rest
  {
  }

  lemma {:induction false} FirstAfter(w: Where, p: seq<Row>, r: Row, q: seq<Row>)
    requires Matches(w, r) && forall j | 0 <= j < |p| :: !Matches(w, p[j])
    ensures First(w, p + ([r] + q)) == Some(r)
  {
    if p == [] {
      assert p + ([r] + q) == [r] + q;
    } else {
      TailOf(p, [r] + q);
      FirstAfter(w, p[1..], r, q);
    }
  }

  lemma {:induction false} DeletesAfter(w: Where, p: seq<Row>, r: Row, q: seq<Row>)
    requires Matches(w, r) && forall j | 0 <= j < |p| :: !Matches(w, p[j])
    ensures DeleteFirst(w, p + ([r] + q)) == p + q
  {
    if p == [] {
      assert p + ([r] + q) == [r] + q && p + q == q;
      assert ([r] + q)[1..] == q;
    } else {
      TailOf(p, [r] + q);
      DeletesAfter(w, p[1..], r, q);
      TailOf(p, q);
    }
  }

  lemma {:induction false} WritesAfter(w: Where, cols: Row, p: seq<Row>, r: Row, q: seq<Row>)
    requires Matches(w, r) && forall j | 0 <= j < |p| :: !Matches(w, p[j])
    ensures WriteFirst(w, cols, p + ([r] + q)) == p + ([r + cols] + q)
  {
    if p == [] {
      assert p + ([r] + q) == [r] + q && p + ([r + cols] + q) == [r + cols] + q;
      assert ([r] + q)[1..] == q;
    } else {
      TailOf(p, [r] + q);
      WritesAfter(w, cols, p[1..], r, q);
      TailOf(p, [r + cols] + q);
    }
  }

  lemma Around(table: seq<Row>, i: nat, x: Row)
    requires i < |table|
    ensures table == table[..i] + ([table[i]] + table[i + 1..])
    ensures table[..i] + ([x] + table[i + 1..]) == table[..i] + [x] + table[i + 1..]
  {
  }

  lemma DeletesFirstAt(w: Where, table: seq<Row>, i: nat)
    requires FirstAt(w, table, i)
    ensures First(w, table) == Some(table[i]) && DeleteFirst(w, table) == table[..i] + table[i + 1..]
  {
    Around(table, i, table[i]);
    FirstAfter(w, table[..i], table[i], table[i + 1..]);
    DeletesAfter(w, table[..i], table[i], table[i + 1..]);
  }

  lemma WritesFirstAt(w: Where, cols: Row, table: seq<Row>, i: nat)
    requires FirstAt(w, table, i)
    ensures First(w, table) == Some(table[i])
    ensures WriteFirst(w, cols, table) == table[..i] + [table[i] + cols] + table[i + 1..]
  {
    Around(table, i, table[i] + cols);
    FirstAfter(w, table[..i], table[i], table[i + 1..]);
    WritesAfter(w, cols, table[..i], table[i], table[i + 1..]);
  }

  lemma {:induction false} NoFirst(w: Where, table: seq<Row>)
    requires forall j | 0 <= j < |table| :: !Matches(w, table[j])
    ensures First(w, table) == None
  {
    if table != [] {
      assert forall j | 0 <= j < |table[1..]| :: table[1..][j] == table[j + 1];
      NoFirst(w, table[1..]);
    }
  }

  /** The scoped `where` of a unique write selects the tenant's matching rows. */
  lemma UniqueWriteSelectsOwn(a: Args, column: string, t: string) returns (w': Where)
    requires !PinsElsewhere(a, column, t)
    ensures ScopeUniqueWhere(a.where, column, t) == Some(w') && SelectsOwn(w', column, t, WhereOf(a))
  {
    w' := ScopeUniqueWhere(a.where, column, t).value;
    forall r ensures Matches(w', r) <==> IsOwnMatch(column, t, WhereOf(a), r) {
      ScopedUniqueWhereSelectsOwnMatch(a.where, column, t, r);
    }
  }

  lemma DeletePlan(s: Schema, m: Model, column: string, a: Args, t: string, table: seq<Row>, w': Where)
    requires KeptApart(m, column) && t != "" && Accepts(s, Delete, a)
    requires ScopeUniqueWhere(a.where, column, t) == Some(w')
    ensures Step(s, m, Delete, a, Some(t), table) == Remove(a.(where := Some(w')), table)
  {
    KeptApartIsScoped(m, column);
    ScopingKeepsAcceptance(s, m, Delete, a, t);
  }

  /** What a unique write does with its payload `cols`, by a condition `w'`. */
  function WriteBy(s: Schema, a: Args, w': Where, cols: Row, column: string, t: string, table: seq<Row>): Answer
    requires First(w', table).Some?
  {
    Overwrite(s, a.(where := Some(w')), cols[column := Str(t)], table)
  }

  lemma UpdatePlan(s: Schema, m: Model, column: string, a: Args, t: string, table: seq<Row>, w': Where, cols: Row)
    requires KeptApart(m, column) && t != "" && Accepts(s, Update, a) && a.data == Some(One(cols))
    requires ScopeUniqueWhere(a.where, column, t) == Some(w')
    ensures Step(s, m, Update, a, Some(t), table) ==
      if First(w', table).None? then Answer(table, Failed(NotFound))
      else WriteBy(s, a, w', cols, column, t, table)
  {
    KeptApartIsScoped(m, column);
    ScopingKeepsAcceptance(s, m, Update, a, t);
  }

  lemma UpsertPlan(s: Schema, m: Model, column: string, a: Args, t: string, table: seq<Row>, w': Where,
                   create: Row, update: Row)
    requires KeptApart(m, column) && m != Organization && t != "" && Accepts(s, Upsert, a)
    requires a.create == Some(One(create)) && a.update == Some(One(update))
    requires ScopeUniqueWhere(a.where, column, t) == Some(w')
    ensures Step(s, m, Upsert, a, Some(t), table) ==
      if First(w', table).None? then Insert(s, a, create[column := Str(t)], table)
      else WriteBy(s, a, w', update, column, t, table)
  {
    KeptApartIsScoped(m, column);
    ScopingKeepsAcceptance(s, m, Upsert, a, t);
  }

  lemma WritesByFirstOwn(s: Schema, a: Args, w': Where, cols: Row, column: string, t: string, table: seq<Row>, i: nat)
    requires SelectsOwn(w', column, t, WhereOf(a)) && FirstOwn(column, t, WhereOf(a), table, i)
    ensures First(w', table).Some?
    ensures var row := OwnRow(table[i], cols, column, t);
      WriteBy(s, a, w', cols, column, t, table) == WrittenOr(s, a, table, table[..i] + [row] + table[i + 1..], row)
  {
    assert FirstAt(w', table, i);
    WritesFirstAt(w', cols[column := Str(t)], table, i);
    ShownRow(a, a.(where := Some(w')), OwnRow(table[i], cols, column, t), column, t);
  }

  /** A delete by unique key takes the tenant's row, or finds none. */
  lemma DeleteTakesOwnRow(s: Schema, m: Model, column: string, a: Args, t: string, table: seq<Row>, i: nat)
    requires KeptApart(m, column) && t != "" && Accepts(s, Delete, a) && !PinsElsewhere(a, column, t)
    ensures var answer := Step(s, m, Delete, a, Some(t), table);
      && (FirstOwn(column, t, WhereOf(a), table, i) ==>
            answer == Answer(table[..i] + table[i + 1..], Found(Some(Project(a, table[i])))))
      && (NoneOwn(column, t, WhereOf(a), table) ==> answer == Answer(table, Failed(NotFound)))
  {
    var w' := UniqueWriteSelectsOwn(a, column, t);
    DeletePlan(s, m, column, a, t, table, w');
    if FirstOwn(column, t, WhereOf(a), table, i) {
      assert FirstAt(w', table, i);
      DeletesFirstAt(w', table, i);
      ShownRow(a, a.(where := Some(w')), table[i], column, t);
    }
    if NoneOwn(column, t, WhereOf(a), table) { NoFirst(w', table); }
  }

  /** An update by unique key writes the tenant's row, or finds none. */
  lemma UpdateWritesOwnRow(s: Schema, m: Model, column: string, a: Args, t: string, table: seq<Row>, i: nat)
    requires KeptApart(m, column) && t != "" && Accepts(s, Update, a) && !PinsElsewhere(a, column, t)
    ensures var answer := Step(s, m, Update, a, Some(t), table);
      && (FirstOwn(column, t, WhereOf(a), table, i) ==>
            var row := OwnRow(table[i], a.data.value.cols, column, t);
            answer == WrittenOr(s, a, table, table[..i] + [row] + table[i + 1..], row))
      && (NoneOwn(column, t, WhereOf(a), table) ==> answer == Answer(table, Failed(NotFound)))
  {
    var w' := UniqueWriteSelectsOwn(a, column, t);
    UpdatePlan(s, m, column, a, t, table, w', a.data.value.cols);
    if FirstOwn(column, t, WhereOf(a), table, i) {
      WritesByFirstOwn(s, a, w', a.data.value.cols, column, t, table, i);
    }
    if NoneOwn(column, t, WhereOf(a), table) { NoFirst(w', table); }
  }

  /** An upsert writes the tenant's row, or adds one that is the tenant's. */
  lemma UpsertWritesOwnRow(s: Schema, m: Model, column: string, a: Args, t: string, table: seq<Row>, i: nat)
    requires KeptApart(m, column) && m != Organization && t != ""
    requires Accepts(s, Upsert, a) && !PinsElsewhere(a, column, t)
    ensures var answer := Step(s, m, Upsert, a, Some(t), table);
      && (FirstOwn(column, t, WhereOf(a), table, i) ==>
            var row := OwnRow(table[i], a.update.value.cols, column, t);
            answer == WrittenOr(s, a, table, table[..i] + [row] + table[i + 1..], row))
      && (NoneOwn(column, t, WhereOf(a), table) ==>
            var row := OwnRow(s.defaults, a.create.value.cols, column, t);
            answer == WrittenOr(s, a, table, table + [row], row))
  {
    var w' := UniqueWriteSelectsOwn(a, column, t);
    UpsertPlan(s, m, column, a, t, table, w', a.create.value.cols, a.update.value.cols);
    if FirstOwn(column, t, WhereOf(a), table, i) {
      WritesByFirstOwn(s, a, w', a.update.value.cols, column, t, table, i);
    }
    if NoneOwn(column, t, WhereOf(a), table) { NoFirst(w', table); }
  }
}
