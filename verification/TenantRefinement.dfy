/** The main results about the scoped client. */
module TenantRefinement {
  import opened Wrappers
  import opened Store
  import opened TenantScope
  import opened TenantClient
  import opened TenantIsolation

  predicate UsesWhere(op: Operation) {
    !op.Create? && !op.CreateMany? && !op.CreateManyAndReturn?
  }

  /** Everything the call would write carries the tenant. */
  predicate WritesOwn(s: Schema, op: Operation, a: Args, key: string, t: string) {
    match op
    case Upsert =>
      && (IsOne(a.create) ==> Owns(key, t, a.create.value.cols))
      && (IsOne(a.update) ==> Owns(key, t, a.update.value.cols))
    case Update => IsOne(a.data) ==> Owns(key, t, a.data.value.cols)
    case UpdateMany => IsOne(a.data) ==> Owns(key, t, a.data.value.cols)
    case UpdateManyAndReturn => IsOne(a.data) ==> Owns(key, t, a.data.value.cols)
    case Create => IsOne(a.data) ==> Owns(key, t, a.data.value.cols)
    case CreateMany => a.data.Some? ==> forall r | r in RowsOf(s, a.data.value) :: Owns(key, t, r)
    case CreateManyAndReturn => a.data.Some? ==> forall r | r in RowsOf(s, a.data.value) :: Owns(key, t, r)
    case _ => true
  }

  lemma ForcedWritesOwn(s: Schema, op: Operation, a: Args, key: string, t: string)
    ensures WritesOwn(s, op, Forced(op, a, key, t), key, t)
  {
    if op.CreateMany? || op.CreateManyAndReturn? {
      forall r | r in RowsOf(s, WithScopedData(a.data, key, t)) ensures Owns(key, t, r) {
        ForcedRowsOwned(s, a.data, key, t, r);
      }
    }
  }

  lemma AppendRefines(s: Schema, a: Args, b: Args, d: Data, key: string, t: string, table: seq<Row>, returning: bool)
    requires UniqueOk(s, table) && a.select == b.select && a.omit == b.omit && a.skipDuplicates == b.skipDuplicates
    requires forall r | r in RowsOf(s, d) :: Owns(key, t, r)
    ensures Refines(s, key, t, table, Append(s, a, d, table, returning), Append(s, b, d, Own(key, t, table), returning))
  {
    var own, all := Own(key, t, table), RowsOf(s, d);
    var theirs := if a.skipDuplicates then Insertable(s, all, table) else all;
    var mine := if a.skipDuplicates then Insertable(s, all, own) else all;
    InsertableSubset(s, all, table);
    InsertableSubset(s, all, own);
    AllOwned(key, t, theirs);
    OwnAppends(key, t, table, theirs);
    ForeignAppends(key, t, table, theirs);
    assert Foreign(key, t, table + theirs) == Foreign(key, t, table);
    assert ProjectAll(a, theirs) == ProjectAll(b, theirs);
    CommitRefines(s, key, t, table, table + theirs,
                  if returning then Listed(ProjectAll(a, theirs)) else Counted(|theirs|));
    var p := Append(s, b, d, own, returning);
    if a.skipDuplicates && Apart(s, p.table, Foreign(key, t, table)) {
      SkippingNeverViolates(s, all, own, key, t, table);
      assert p.table == own + mine;
      InsertableRefines(s, all, key, t, table);
    }
  }

  /** Skipping duplicates cannot break a unique index. */
  lemma {:induction false} SkippedInsertsStayUnique(s: Schema, news: seq<Row>, table: seq<Row>)
    requires UniqueOk(s, table)
    ensures UniqueOk(s, table + Insertable(s, news, table))
  {
    if news == [] {
      assert table + [] == table;
    } else if Fits(s, news[0], table) {
      AppendedStaysUnique(s, news[0], table);
      SkippedInsertsStayUnique(s, news[1..], table + [news[0]]);
      var rest := Insertable(s, news[1..], table + [news[0]]);
      assert table + ([news[0]] + rest) == (table + [news[0]]) + rest;
    } else {
      SkippedInsertsStayUnique(s, news[1..], table);
    }
  }

  lemma {:induction false} AppendedStaysUnique(s: Schema, r: Row, table: seq<Row>)
    requires UniqueOk(s, table) && Fits(s, r, table)
    ensures UniqueOk(s, table + [r])
  {
    if table != [] {
      AppendedStaysUnique(s, r, table[1..]);
      assert (table + [r])[1..] == table[1..] + [r];
      ClashSymmetric(s, r, table[0]);
      assert table[0] in table;
    }
  }

  lemma SkippingNeverViolates(s: Schema, news: seq<Row>, own: seq<Row>, key: string, t: string, table: seq<Row>)
    requires UniqueOk(s, table) && own == Own(key, t, table)
    ensures UniqueOk(s, own + Insertable(s, news, own))
  {
    UniqueSplits(s, key, t, table);
    SkippedInsertsStayUnique(s, news, own);
  }

  lemma OverwriteAllRefines(s: Schema, a: Args, b: Args, cols: Row, key: string, t: string, table: seq<Row>,
                            returning: bool)
    requires UniqueOk(s, table) && a.select == b.select && a.omit == b.omit
    requires Restricts(WhereOf(a), WhereOf(b), key, t) && Owns(key, t, cols)
    ensures Refines(s, key, t, table, OverwriteAll(s, a, cols, table, returning),
                    OverwriteAll(s, b, cols, Own(key, t, table), returning))
  {
    var w', w := WhereOf(a), WhereOf(b);
    MatchingRefines(w', w, key, t, table);
    WriteAllRefines(w', w, cols, key, t, table);
    WrittenRefines(w', w, cols, key, t, table);
    var rows := Written(w', cols, table);
    assert ProjectAll(a, rows) == ProjectAll(b, rows);
    CommitRefines(s, key, t, table, WriteAll(w', cols, table),
                  if returning then Listed(ProjectAll(a, rows)) else Counted(|Matching(w', table)|));
  }

  /** `b` is the unscoped call `c` restricted to the tenant's rows. */
  ghost predicate ScopesCall(s: Schema, op: Operation, b: Args, c: Args, key: string, t: string) {
    && b == c.(where := b.where)
    && (if UsesWhere(op) then Restricts(WhereOf(b), WhereOf(c), key, t) else b == c)
    && WritesOwn(s, op, c, key, t)
    && Accepts(s, op, b) && Accepts(s, op, c)
  }

  lemma InsertingRefines(s: Schema, op: Operation, b: Args, c: Args, key: string, t: string, table: seq<Row>)
    requires UniqueOk(s, table) && ScopesCall(s, op, b, c, key, t) && !UsesWhere(op)
    ensures Refines(s, key, t, table, Perform(s, op, b, table), Perform(s, op, c, Own(key, t, table)))
  {
    match op
    case Create => InsertRefines(s, b, c, c.data.value.cols, key, t, table);
    case CreateMany => AppendRefines(s, b, c, c.data.value, key, t, table, false);
    case CreateManyAndReturn => AppendRefines(s, b, c, c.data.value, key, t, table, true);
  }

  lemma RemoveRefines(a: Args, b: Args, key: string, t: string, table: seq<Row>)
    requires a == b.(where := a.where) && Restricts(WhereOf(a), WhereOf(b), key, t)
    ensures Agree(key, t, Remove(a, table), Remove(b, Own(key, t, table)))
    ensures Foreign(key, t, Remove(a, table).table) == Foreign(key, t, table)
  {
    MatchingRefines(WhereOf(a), WhereOf(b), key, t, table);
    DeleteFirstRefines(WhereOf(a), WhereOf(b), key, t, table);
  }

  lemma UpsertingRefines(s: Schema, a: Args, b: Args, update: Row, create: Row, key: string, t: string, table: seq<Row>)
    requires UniqueOk(s, table) && Owns(key, t, update) && Owns(key, t, create)
    requires a == b.(where := a.where) && Restricts(WhereOf(a), WhereOf(b), key, t)
    ensures First(WhereOf(a), table) == First(WhereOf(b), Own(key, t, table))
    ensures First(WhereOf(a), table).Some? ==>
      Refines(s, key, t, table, Overwrite(s, a, update, table), Overwrite(s, b, update, Own(key, t, table)))
    ensures Refines(s, key, t, table, Insert(s, a, create, table), Insert(s, b, create, Own(key, t, table)))
  {
    MatchingRefines(WhereOf(a), WhereOf(b), key, t, table);
    if First(WhereOf(a), table).Some? { OverwriteRefines(s, a, b, update, key, t, table); }
    InsertRefines(s, a, b, create, key, t, table);
  }

  lemma UniqueWriteRefines(s: Schema, op: Operation, b: Args, c: Args, key: string, t: string, table: seq<Row>)
    requires UniqueOk(s, table) && ScopesCall(s, op, b, c, key, t) && (op.Delete? || op.Update? || op.Upsert?)
    ensures Refines(s, key, t, table, Perform(s, op, b, table), Perform(s, op, c, Own(key, t, table)))
  {
    match op
    case Delete => RemoveRefines(b, c, key, t, table);
    case Update => UpsertingRefines(s, b, c, c.data.value.cols, c.data.value.cols, key, t, table);
    case Upsert => UpsertingRefines(s, b, c, c.update.value.cols, c.create.value.cols, key, t, table);
  }

  lemma PerformRefines(s: Schema, op: Operation, b: Args, c: Args, key: string, t: string, table: seq<Row>)
    requires UniqueOk(s, table) && ScopesCall(s, op, b, c, key, t)
    requires !op.FindUnique? && !op.FindUniqueOrThrow?
    ensures Refines(s, key, t, table, Perform(s, op, b, table), Perform(s, op, c, Own(key, t, table)))
  {
    var w', w := WhereOf(b), WhereOf(c);
    if !UsesWhere(op) {
      InsertingRefines(s, op, b, c, key, t, table);
    } else if op.Delete? || op.Update? || op.Upsert? {
      UniqueWriteRefines(s, op, b, c, key, t, table);
    } else if op.UpdateMany? || op.UpdateManyAndReturn? {
      OverwriteAllRefines(s, b, c, c.data.value.cols, key, t, table, op.UpdateManyAndReturn?);
    } else {
      MatchingRefines(w', w, key, t, table);
      if op.DeleteMany? { RejectingRefines(w', w, key, t, table); } else { ReadsAgree(op, b, c, Matching(w', table)); }
    }
  }

  lemma ReadsAgree(op: Operation, b: Args, c: Args, rows: seq<Row>)
    requires b == c.(where := b.where)
    ensures Read(op, b, rows) == Read(op, c, rows)
  {
    assert ProjectAll(b, b.shape(rows)) == ProjectAll(c, c.shape(rows));
  }

  // ----- the checked lookup --------------------------------------------------

  lemma MissNeverMatches(s: Schema, op: Operation, table: seq<Row>)
    requires op.FindUniqueOrThrow? && Column(ID) in s.uniques
    ensures Query(s, op, MissArgs(), table) == Answer(table, Failed(NotFound))
  {
    forall r | r in table ensures !Matches(CONTRADICTION, r) {
      MatchesMeans(CONTRADICTION, r);
      KeyOnlyMatches(ID, NEVER_MATCHES_ID, r);
      assert Matches(CONTRADICTION.not[0], r) <==> Owns(ID, NEVER_MATCHES_ID, r);
      assert FilterTruth(CONTRADICTION.fields[ID], Get(r, ID)) == Yes ==> Owns(ID, NEVER_MATCHES_ID, r);
      assert ID in CONTRADICTION.fields && |CONTRADICTION.not| == 1;
    }
    FirstIsNone(CONTRADICTION, table);
    assert Selects(Column(ID), CONTRADICTION);
  }

  /** Widening and then stripping gives back the projection that was asked for, and the
      widened row always carries the scope column it is checked on. */
  lemma StrippedProjectionIsExact(a: Args, key: string, t: string, r: Row)
    ensures var adj := AdjustProjectionForCheck(a, key);
      && (Owns(key, t, Project(adj.args, r)) <==> Owns(key, t, r))
      && (if adj.strip then Project(adj.args, r) - {key} else Project(adj.args, r)) == Project(a, r)
  {
    var adj := AdjustProjectionForCheck(a, key);
    var p := Project(adj.args, r);
    if key in r {
      assert key in p;
    }
    assert adj.strip ==> p - {key} == Project(a, r);
  }

  /** The caller's selection names nothing: the one call whose rejection widening hides. */
  predicate SelectsNothing(a: Args) {
    a.select.Some? && a.omit.None? && forall f | f in a.select.value :: !a.select.value[f]
  }

  lemma WideningKeepsAcceptance(s: Schema, op: Operation, a: Args, key: string)
    requires op.FindUnique? || op.FindUniqueOrThrow?
    ensures var b := AdjustProjectionForCheck(a, key).args;
      && WhereOf(b) == WhereOf(a)
      && (Accepts(s, op, a) ==> Accepts(s, op, b))
      && (Accepts(s, op, b) && !Accepts(s, op, a) <==> HasSelector(s, WhereOf(a)) && SelectsNothing(a))
  {
    var adj := AdjustProjectionForCheck(a, key);
    if a.select.Some? && adj.strip {
      var s' := adj.args.select.value;
      assert key in s' && s'[key];
      if f :| f in a.select.value && a.select.value[f] {
        assert f in s' && s'[f];
      }
    }
  }

  lemma LookupQuery(s: Schema, op: Operation, a: Args, table: seq<Row>)
    requires op.FindUnique? || op.FindUniqueOrThrow?
    ensures Query(s, op, a, table) ==
      if Accepts(s, op, a) then Lookup(a, table, op.FindUniqueOrThrow?) else Answer(table, Failed(Invalid))
  {
  }

  lemma LookupPlan(s: Schema, m: Model, op: Operation, a: Args, t: string, table: seq<Row>)
    requires IsTenantScoped(m) && t != ""
    requires op.FindUnique? || op.FindUniqueOrThrow?
    ensures var adj := AdjustProjectionForCheck(a, KeyField(m));
      Step(s, m, op, a, Some(t), table)
        == Checked(s, op, Query(s, op, adj.args, table), KeyField(m), t, op.FindUniqueOrThrow?, adj.strip)
  {
  }

  /** The check, run on the row the widened lookup finds, gives the caller's projection of
      an owned row, and what an empty table would give for any other. */
  lemma CheckedOwnedRow(s: Schema, op: Operation, a: Args, key: string, t: string, table: seq<Row>)
    requires op.FindUnique? || op.FindUniqueOrThrow?
    requires Column(ID) in s.uniques
    ensures var adj := AdjustProjectionForCheck(a, key);
      var throws := op.FindUniqueOrThrow?;
      var r := First(WhereOf(a), table);
      var mine := if r.Some? && Owns(key, t, r.value) then r else None;
      Checked(s, op, Lookup(adj.args, table, throws), key, t, throws, adj.strip)
        == Answer(table, if throws then OrThrow(FoundIn(a, mine)) else FoundIn(a, mine))
  {
    var r := First(WhereOf(a), table);
    assert WhereOf(AdjustProjectionForCheck(a, key).args) == WhereOf(a);
    if r.Some? { StrippedProjectionIsExact(a, key, t, r.value); }
    if op.FindUniqueOrThrow? { MissNeverMatches(s, op, table); }
  }

  /** A checked lookup answers exactly what the private store answers; only a selection
      that names nothing is answered where the engine would have rejected it. */
  lemma CheckedLookupRefines(s: Schema, m: Model, op: Operation, a: Args, t: string, table: seq<Row>)
    requires IsTenantScoped(m) && t != "" && Column(ID) in s.uniques
    requires op.FindUnique? || op.FindUniqueOrThrow?
    requires UniqueOk(s, table)
    ensures var q := Step(s, m, op, a, Some(t), table);
      && q.table == table
      && (q.out == Query(s, op, a, Own(KeyField(m), t, table)).out <==>
            !(HasSelector(s, WhereOf(a)) && SelectsNothing(a)))
  {
    var key := KeyField(m);
    var b := AdjustProjectionForCheck(a, key).args;
    LookupPlan(s, m, op, a, t, table);
    LookupQuery(s, op, b, table);
    LookupQuery(s, op, a, Own(key, t, table));
    WideningKeepsAcceptance(s, op, a, key);
    CheckedOwnedRow(s, op, a, key, t, table);
    if HasSelector(s, WhereOf(a)) { LookupRefines(s, WhereOf(a), key, t, table); }
  }

  /** A foreign row is indistinguishable from no row: null, or the error of a real miss. */
  lemma ForeignRowLooksMissing(s: Schema, m: Model, op: Operation, a: Args, t: string, table: seq<Row>)
    requires IsTenantScoped(m) && t != "" && Column(ID) in s.uniques
    requires op.FindUnique? || op.FindUniqueOrThrow?
    requires Accepts(s, op, a)
    requires First(WhereOf(a), table).Some? && !Owns(KeyField(m), t, First(WhereOf(a), table).value)
    ensures Step(s, m, op, a, Some(t), table).out == Query(s, op, a, []).out
    ensures Step(s, m, op, a, Some(t), table).out == if op.FindUnique? then Found(None) else Failed(NotFound)
  {
    var key := KeyField(m);
    LookupPlan(s, m, op, a, t, table);
    LookupQuery(s, op, AdjustProjectionForCheck(a, key).args, table);
    LookupQuery(s, op, a, []);
    WideningKeepsAcceptance(s, op, a, key);
    CheckedOwnedRow(s, op, a, key, t, table);
  }

  // ----- refinement ------------------------------------------------------------

  lemma PlanWhere(m: Model, op: Operation, a: Args, t: string)
    requires IsTenantScoped(m) && UsesWhere(op) && DecideScope(m, op, a, Some(t)).Run?
    ensures var w, key := DecideScope(m, op, a, Some(t)).args.where, KeyField(m);
      || w == Some(WithScopedWhere(a.where, key, t))
      || (w.Some? && w == ScopeUniqueWhere(a.where, key, t))
  {
  }

  lemma PlanRestricts(m: Model, op: Operation, a: Args, t: string)
    requires IsTenantScoped(m) && UsesWhere(op) && DecideScope(m, op, a, Some(t)).Run?
    ensures Restricts(WhereOf(DecideScope(m, op, a, Some(t)).args), WhereOf(a), KeyField(m), t)
  {
    PlanWhere(m, op, a, t);
    ScopedWheresRestrict(a.where, DecideScope(m, op, a, Some(t)).args.where.value, KeyField(m), t);
  }

  lemma ScopedWheresRestrict(w: Option<Where>, w': Where, key: string, t: string)
    requires w' == WithScopedWhere(w, key, t) || Some(w') == ScopeUniqueWhere(w, key, t)
    ensures Restricts(w', if w.Some? then w.value else EVERYTHING, key, t)
  {
    var base := if w.Some? then w.value else EVERYTHING;
    forall r: Row ensures Matches(w', r) <==> Matches(base, r) && Owns(key, t, r) {
      ScopedWhereSelectsOwnMatches(w, key, t, r);
      ScopedUniqueWhereSelectsOwnMatch(w, key, t, r);
    }
  }

  lemma ScopingKeepsAcceptance(s: Schema, m: Model, op: Operation, a: Args, t: string)
    requires IsTenantScoped(m) && t != "" && DecideScope(m, op, a, Some(t)).Run?
    requires Accepts(s, op, Forced(op, a, KeyField(m), t))
    ensures Accepts(s, op, DecideScope(m, op, a, Some(t)).args)
  {
    var w, w' := WhereOf(a), WhereOf(DecideScope(m, op, a, Some(t)).args);
    if op.Delete? || op.Update? || op.Upsert? {
      var u :| u in s.uniques && Selects(u, w);
      assert Selects(u, w');
    }
  }

  /** Running any call that is not refused through the client of `t` gives the answer and
      the tenant rows of the unscoped call on the tenant's private store, exactly when
      (1) the rows the private run leaves clash with no other tenant's row and
      (2) the engine's own validation of the call is not lost. Foreign rows never change. */
  lemma ScopedCallRefinesPrivateStore(s: Schema, m: Model, op: Operation, a: Args, t: string, table: seq<Row>)
    requires IsTenantScoped(m) && t != "" && Column(ID) in s.uniques
    requires UniqueOk(s, table)
    requires !DecideScope(m, op, a, Some(t)).Refuse?
    ensures var key := KeyField(m);
      var q, p := Step(s, m, op, a, Some(t), table), PrivateStep(s, op, a, key, t, Own(key, t, table));
      && Foreign(key, t, q.table) == Foreign(key, t, table)
      && (Agree(key, t, q, p) <==> Apart(s, p.table, Foreign(key, t, table)) && KeepsValidation(s, m, op, a, t))
  {
    var key, plan := KeyField(m), DecideScope(m, op, a, Some(t));
    var own, others := Own(key, t, table), Foreign(key, t, table);
    var q, p := Step(s, m, op, a, Some(t), table), PrivateStep(s, op, a, key, t, own);
    UniqueSplits(s, key, t, table);
    if plan.RunAndCheck? {
      CheckedLookupRefines(s, m, op, a, t, table);
      WideningKeepsAcceptance(s, op, a, key);
      QueryKeepsOnLookup(s, op, a, own);
    } else {
      RunRefines(s, m, op, a, t, table);
    }
  }

  lemma RunRefines(s: Schema, m: Model, op: Operation, a: Args, t: string, table: seq<Row>)
    requires IsTenantScoped(m) && t != ""
    requires UniqueOk(s, table)
    requires DecideScope(m, op, a, Some(t)).Run?
    ensures var key := KeyField(m);
      var q, p := Step(s, m, op, a, Some(t), table), PrivateStep(s, op, a, key, t, Own(key, t, table));
      && Foreign(key, t, q.table) == Foreign(key, t, table)
      && (Agree(key, t, q, p) <==> Apart(s, p.table, Foreign(key, t, table)) && KeepsValidation(s, m, op, a, t))
  {
    var key, b := KeyField(m), DecideScope(m, op, a, Some(t)).args;
    var c := Forced(op, a, key, t);
    ForcedWritesOwn(s, op, a, key, t);
    if UsesWhere(op) { PlanRestricts(m, op, a, t); }
    if Accepts(s, op, c) { ScopingKeepsAcceptance(s, m, op, a, t); }
    LostValidationIsUnique(s, m, op, a, t);
    RunPlan(s, m, op, a, t, table);
    RunPlan(s, m, op, a, t, Own(key, t, table));
    QueryRefinesIff(s, op, b, c, key, t, table);
  }

  lemma RunPlan(s: Schema, m: Model, op: Operation, a: Args, t: string, table: seq<Row>)
    requires IsTenantScoped(m) && t != ""
    requires DecideScope(m, op, a, Some(t)).Run?
    ensures var b, c := DecideScope(m, op, a, Some(t)).args, Forced(op, a, KeyField(m), t);
      && Step(s, m, op, a, Some(t), table) == Query(s, op, b, table)
      && PrivateStep(s, op, a, KeyField(m), t, table) == Query(s, op, c, table)
      && (KeepsValidation(s, m, op, a, t) <==> (Accepts(s, op, b) ==> Accepts(s, op, c)))
  {
  }

  lemma LostValidationIsUnique(s: Schema, m: Model, op: Operation, a: Args, t: string)
    requires IsTenantScoped(m) && t != ""
    requires DecideScope(m, op, a, Some(t)).Run?
    ensures var b, c := DecideScope(m, op, a, Some(t)).args, Forced(op, a, KeyField(m), t);
      && b == c.(where := b.where) && (!UsesWhere(op) ==> b == c)
      && !op.FindUnique? && !op.FindUniqueOrThrow?
      && (Accepts(s, op, b) && !Accepts(s, op, c) ==> op.Delete? || op.Update? || op.Upsert?)
  {
  }

  lemma QueryRefinesIff(s: Schema, op: Operation, b: Args, c: Args, key: string, t: string, table: seq<Row>)
    requires UniqueOk(s, table) && !op.FindUnique? && !op.FindUniqueOrThrow?
    requires b == c.(where := b.where)
    requires if UsesWhere(op) then Restricts(WhereOf(b), WhereOf(c), key, t) else b == c
    requires WritesOwn(s, op, c, key, t)
    requires Accepts(s, op, c) ==> Accepts(s, op, b)
    requires Accepts(s, op, b) && !Accepts(s, op, c) ==> op.Delete? || op.Update? || op.Upsert?
    ensures var q, p := Query(s, op, b, table), Query(s, op, c, Own(key, t, table));
      && Foreign(key, t, q.table) == Foreign(key, t, table)
      && (Agree(key, t, q, p) <==>
            Apart(s, p.table, Foreign(key, t, table)) && (Accepts(s, op, b) ==> Accepts(s, op, c)))
  {
    var q, p := Query(s, op, b, table), Query(s, op, c, Own(key, t, table));
    if Accepts(s, op, c) {
      PerformRefines(s, op, b, c, key, t, table);
      QueryKeepsUnique(s, op, b, table);
      ConverseOfRefines(s, key, t, table, q, p);
    } else if Accepts(s, op, b) {
      AcceptedIsNotInvalid(s, op, b, table);
      var w := WhereOf(b);
      forall r: Row ensures Matches(w, r) <==> Matches(w, r) && Owns(key, t, r) {}
      assert Restricts(w, w, key, t);
      assert WritesOwn(s, op, b, key, t);
      PerformRefines(s, op, b, b, key, t, table);
    } else {
      UniqueSplits(s, key, t, table);
    }
  }

  lemma ConverseOfRefines(s: Schema, key: string, t: string, table: seq<Row>, q: Answer, p: Answer)
    requires UniqueOk(s, q.table) && Refines(s, key, t, table, q, p)
    ensures Agree(key, t, q, p) <==> Apart(s, p.table, Foreign(key, t, table))
  {
    UniqueSplits(s, key, t, q.table);
  }

  lemma AcceptedIsNotInvalid(s: Schema, op: Operation, a: Args, table: seq<Row>)
    requires Accepts(s, op, a)
    ensures Query(s, op, a, table).out != Failed(Invalid)
  {
  }

  // ----- where the conditions fail -------------------------------------------------

  /** The calls that the engine would reject even with the scope column forced in their
      payload and that the rewrite makes valid, exactly: a lookup that selects nothing, and
      a unique write that names no unique key on a model whose scope column is one (such as
      the root), where adding the scope column supplies the missing key. */
  lemma ValidationLostExactly(s: Schema, m: Model, op: Operation, a: Args, t: string)
    requires IsTenantScoped(m) && t != ""
    ensures var key, w := KeyField(m), WhereOf(a);
      !KeepsValidation(s, m, op, a, t) <==>
        || ((op.FindUnique? || op.FindUniqueOrThrow?) && HasSelector(s, w) && SelectsNothing(a))
        || ((op.Delete? || op.Update? || (op.Upsert? && !IsTenantRoot(m)))
            && !HasSelector(s, w) && Column(key) in s.uniques && ScopeUniqueWhere(a.where, key, t).Some?
            && ProjectionOk(a)
            && (op.Update? ==> a.data.None? || IsOne(a.data))
            && (op.Upsert? ==> (a.create.None? || IsOne(a.create)) && (a.update.None? || IsOne(a.update))))
  {
    if op.FindUnique? || op.FindUniqueOrThrow? {
      WideningKeepsAcceptance(s, op, a, KeyField(m));
    } else if op.Delete? || op.Update? || op.Upsert? {
      UniqueWriteValidation(s, m, op, a, t);
    } else if DecideScope(m, op, a, Some(t)).Run? {
      LostValidationIsUnique(s, m, op, a, t);
    }
  }

  lemma UniqueWriteValidation(s: Schema, m: Model, op: Operation, a: Args, t: string)
    requires IsTenantScoped(m) && t != ""
    requires op.Delete? || op.Update? || op.Upsert?
    ensures var key, w := KeyField(m), WhereOf(a);
      !KeepsValidation(s, m, op, a, t) <==>
        && !(op.Upsert? && IsTenantRoot(m))
        && !HasSelector(s, w) && Column(key) in s.uniques && ScopeUniqueWhere(a.where, key, t).Some?
        && ProjectionOk(a)
        && (op.Update? ==> a.data.None? || IsOne(a.data))
        && (op.Upsert? ==> (a.create.None? || IsOne(a.create)) && (a.update.None? || IsOne(a.update)))
  {
    var key := KeyField(m);
    if ScopeUniqueWhere(a.where, key, t).Some? {
      SelectorOfScopedWhere(s, a.where, key, t);
      if !(op.Upsert? && IsTenantRoot(m)) { RunPlan(s, m, op, a, t, []); }
    }
  }

  lemma SelectorOfScopedWhere(s: Schema, w: Option<Where>, key: string, t: string)
    requires ScopeUniqueWhere(w, key, t).Some?
    ensures var base := if w.Some? then w.value else EVERYTHING;
      HasSelector(s, ScopeUniqueWhere(w, key, t).value) <==> HasSelector(s, base) || Column(key) in s.uniques
  {
    var base := if w.Some? then w.value else EVERYTHING;
    var scoped := ScopeUniqueWhere(w, key, t).value;
    forall u | u in s.uniques ensures Selects(u, scoped) <==> Selects(u, base) || u == Column(key) {}
    if HasSelector(s, base) {
      var u :| u in s.uniques && Selects(u, base);
      assert Selects(u, scoped);
    }
    if Column(key) in s.uniques {
      assert Selects(Column(key), scoped);
    }
  }

  predicate IsLookup(op: Operation) { op.FindUnique? || op.FindUniqueOrThrow? }

  predicate IsUniqueWrite(op: Operation) { op.Delete? || op.Update? || op.Upsert? }

  /** A payload that the operation needs is left out. */
  predicate PayloadLeftOut(op: Operation, a: Args) {
    match op
    case Upsert => a.create.None? || a.update.None?
    case Update => a.data.None?
    case UpdateMany => a.data.None?
    case UpdateManyAndReturn => a.data.None?
    case Create => a.data.None?
    case CreateMany => a.data.None?
    case CreateManyAndReturn => a.data.None?
    case _ => false
  }

  /** No payload is a list where one row is meant. */
  predicate PayloadsFit(op: Operation, a: Args) {
    match op
    case Upsert => (a.create.None? || IsOne(a.create)) && (a.update.None? || IsOne(a.update))
    case Update => a.data.None? || IsOne(a.data)
    case UpdateMany => a.data.None? || IsOne(a.data)
    case UpdateManyAndReturn => a.data.None? || IsOne(a.data)
    case Create => a.data.None? || IsOne(a.data)
    case _ => true
  }

  predicate ProjectionFits(op: Operation, a: Args) {
    op.Count? || op.Aggregate? || op.GroupBy? || op.DeleteMany? || op.UpdateMany? || op.CreateMany? || ProjectionOk(a)
  }

  lemma AcceptanceInParts(s: Schema, op: Operation, a: Args)
    requires !op.Other?
    ensures Accepts(s, op, a) <==>
      && (IsLookup(op) || IsUniqueWrite(op) ==> HasSelector(s, WhereOf(a)))
      && ProjectionFits(op, a) && PayloadsFit(op, a) && !PayloadLeftOut(op, a)
  {
  }

  lemma PlanInParts(m: Model, op: Operation, a: Args, t: string)
    requires IsTenantScoped(m) && DecideScope(m, op, a, Some(t)).Run?
    ensures var b := DecideScope(m, op, a, Some(t)).args;
      && !op.Other? && !IsLookup(op)
      && ProjectionFits(op, b) == ProjectionFits(op, a) && PayloadsFit(op, b) == PayloadsFit(op, a)
      && !PayloadLeftOut(op, b)
      && (IsUniqueWrite(op) ==> ScopeUniqueWhere(a.where, KeyField(m), t) == Some(WhereOf(b)))
  {
  }

  /** EVERY CALL THAT THE REWRITE MAKES VALID: a lookup that selects nothing; a write whose
      payload is left out, which the forced scope column completes; and a unique write that
      names no unique key where the scope column is one. */
  lemma RewriteValidatesExactly(s: Schema, m: Model, op: Operation, a: Args, t: string)
    requires IsTenantScoped(m) && t != ""
    ensures var key, w, plan := KeyField(m), WhereOf(a), DecideScope(m, op, a, Some(t));
      (plan.Run? || plan.RunAndCheck?) && Accepts(s, op, PlanArgs(plan)) && !Accepts(s, op, a) <==>
        || (IsLookup(op) && HasSelector(s, w) && SelectsNothing(a))
        || (plan.Run? && ProjectionFits(op, a) && PayloadsFit(op, a)
            && (IsUniqueWrite(op) ==> HasSelector(s, w) || Column(key) in s.uniques)
            && (PayloadLeftOut(op, a) || (IsUniqueWrite(op) && !HasSelector(s, w))))
  {
    var key, plan := KeyField(m), DecideScope(m, op, a, Some(t));
    if IsLookup(op) {
      WideningKeepsAcceptance(s, op, a, key);
    } else if plan.Run? {
      PlanInParts(m, op, a, t);
      AcceptanceInParts(s, op, a);
      AcceptanceInParts(s, op, plan.args);
      if IsUniqueWrite(op) { SelectorOfScopedWhere(s, a.where, key, t); }
    }
  }

  /** An update of many rows without any data is rejected unscoped and answered scoped. */
  lemma UpdateWithoutDataIsAnswered(s: Schema, t: string)
    requires t != ""
    ensures Query(s, UpdateMany, NoArgs(), []) == Answer([], Failed(Invalid))
    ensures Step(s, Membership, UpdateMany, NoArgs(), Some(t), []) == Answer([], Counted(0))
  {
    RunPlan(s, Membership, UpdateMany, NoArgs(), t, []);
  }

  function NoArgs(): Args {
    MissArgs().(where := None)
  }

  const ROOT_SCHEMA := Schema([Column(ID), Column("slug")], map[])

  function DeleteByName(name: string): Args {
    NoArgs().(where := Some(EVERYTHING.(fields := map["name" := Lit(Str(name))])))
  }

  /** Deleting the root by a column that is no unique key: the engine rejects the call,
      the scoped client deletes the caller's own organisation. */
  lemma RootDeleteWithoutKeyDeletesOwnRoot(t: string, name: string)
    requires t != ""
    ensures var table := [map[ID := Str(t), "name" := Str(name)]];
      && Query(ROOT_SCHEMA, Delete, DeleteByName(name), table).out == Failed(Invalid)
      && Step(ROOT_SCHEMA, Organization, Delete, DeleteByName(name), Some(t), table)
           == Answer([], Found(Some(table[0])))
  {
    var a := DeleteByName(name);
    var row: Row := map[ID := Str(t), "name" := Str(name)];
    assert ID != "name" && "slug" != "name" by { assert |ID| == 2 && |"name"| == 4 && "slug"[0] != "name"[0]; }
    assert forall u | u in ROOT_SCHEMA.uniques :: !Selects(u, WhereOf(a));
    RunPlan(ROOT_SCHEMA, Organization, Delete, a, t, [row]);
    ScopedRootDelete(a, row, t);
    MatchesMeans(WhereOf(a), row);
  }

  lemma ScopedRootDelete(a: Args, row: Row, t: string)
    requires ScopeUniqueWhere(a.where, ID, t).Some? && ProjectionOk(a)
    requires Owns(ID, t, row)
    ensures Matches(WhereOf(a), row) ==>
      Query(ROOT_SCHEMA, Delete, a.(where := ScopeUniqueWhere(a.where, ID, t)), [row])
        == Answer([], Found(Some(Project(a, row))))
  {
    var b := a.(where := ScopeUniqueWhere(a.where, ID, t));
    assert Selects(ROOT_SCHEMA.uniques[0], WhereOf(b));
    ScopedUniqueWhereSelectsOwnMatch(a.where, ID, t, row);
    if Matches(WhereOf(a), row) {
      assert First(WhereOf(b), [row]) == Some(row);
      assert Remove(b, [row]) == Answer([], Found(Some(Project(b, row))));
    }
  }

  const ID_SCHEMA := Schema([Column(ID)], map[])

  function CreateWithId(id: string): Args {
    NoArgs().(data := Some(One(map[ID := Str(id)])))
  }

  /** Uniqueness is global: a row of another tenant with the same key refuses a create
      that the private store would have accepted. */
  lemma ForeignKeyRefusesCreate(t: string, other: string, id: string)
    requires t != "" && other != t
    ensures var table := [map[ID := Str(id), ORGANIZATION_ID := Str(other)]];
      && Step(ID_SCHEMA, Membership, Create, CreateWithId(id), Some(t), table) == Answer(table, Failed(UniqueViolation))
      && PrivateStep(ID_SCHEMA, Create, CreateWithId(id), ORGANIZATION_ID, t, Own(ORGANIZATION_ID, t, table)).out.Found?
  {
    var a := CreateWithId(id);
    var theirs: Row := map[ID := Str(id), ORGANIZATION_ID := Str(other)];
    var mine: Row := map[ID := Str(id), ORGANIZATION_ID := Str(t)];
    assert ID != ORGANIZATION_ID by { assert |ID| == 2 && |ORGANIZATION_ID| == 14; }
    assert map[ID := Str(id)][ORGANIZATION_ID := Str(t)] == mine;
    RunPlan(ID_SCHEMA, Membership, Create, a, t, [theirs]);
    RunPlan(ID_SCHEMA, Membership, Create, a, t, []);
    InsertBesideSameId(a.(data := Some(One(mine))), theirs, mine, id);
  }

  lemma InsertBesideSameId(a: Args, theirs: Row, mine: Row, id: string)
    requires Get(theirs, ID) == Str(id) && Get(mine, ID) == Str(id)
    ensures Insert(ID_SCHEMA, a, mine, [theirs]) == Answer([theirs], Failed(UniqueViolation))
    ensures Insert(ID_SCHEMA, a, mine, []).out.Found?
  {
    assert ID_SCHEMA.defaults + mine == mine;
    assert SameKey({ID}, theirs, mine);
    assert Collides(ID_SCHEMA.uniques[0], theirs, mine) && ID_SCHEMA.uniques[0] in ID_SCHEMA.uniques;
    assert Clash(ID_SCHEMA, theirs, mine) && mine in [mine];
    assert [theirs] + [mine] == [theirs, mine] && [theirs, mine][1..] == [mine];
    assert [] + [mine] == [mine] && [mine][1..] == [];
    assert !UniqueOk(ID_SCHEMA, [theirs, mine]) && UniqueOk(ID_SCHEMA, [mine]);
  }

  // ----- runs ------------------------------------------------------------------------

  /** One call of one tenant's client on the model's table. */
  datatype Event = Event(tenant: string, op: Operation, args: Args)

  datatype Trace = Trace(table: seq<Row>, outs: seq<Outcome>)

  /** All tenants' calls, interleaved, on the shared table. */
  function SharedRun(s: Schema, m: Model, es: seq<Event>, table: seq<Row>): (r: Trace)
    ensures |r.outs| == |es|
  {
    if es == [] then Trace(table, []) else
    var q := Step(s, m, es[0].op, es[0].args, Some(es[0].tenant), table);
    var rest := SharedRun(s, m, es[1..], q.table);
    Trace(rest.table, [q.out] + rest.outs)
  }

  /** The calls of `t` alone, unscoped, on its private table. */
  function PrivateRun(s: Schema, m: Model, t: string, es: seq<Event>, own: seq<Row>): Trace {
    if es == [] then Trace(own, [])
    else if es[0].tenant != t then PrivateRun(s, m, t, es[1..], own)
    else
      var p := PrivateCall(s, m, es[0].op, es[0].args, t, own);
      var rest := PrivateRun(s, m, t, es[1..], p.table);
      Trace(rest.table, [p.out] + rest.outs)
  }

  function PrivateCall(s: Schema, m: Model, op: Operation, a: Args, t: string, own: seq<Row>): Answer {
    if DecideScope(m, op, a, Some(t)).Refuse? then Answer(own, Failed(MissingTenantContext))
    else PrivateStep(s, op, a, KeyField(m), t, own)
  }

  function OutsOf(t: string, es: seq<Event>, outs: seq<Outcome>): seq<Outcome>
    requires |es| == |outs|
  {
    if es == [] then []
    else if es[0].tenant == t then [outs[0]] + OutsOf(t, es[1..], outs[1..])
    else OutsOf(t, es[1..], outs[1..])
  }

  /** Along the run, no call of `t` loses validation or leaves a row that clashes with
      another tenant's. */
  ghost predicate Separate(s: Schema, m: Model, t: string, es: seq<Event>, table: seq<Row>)
    requires IsTenantScoped(m)
  {
    es == [] ||
    (var e := es[0];
     && (e.tenant == t && !DecideScope(m, e.op, e.args, Some(t)).Refuse? ==>
           && KeepsValidation(s, m, e.op, e.args, t)
           && Apart(s, PrivateStep(s, e.op, e.args, KeyField(m), t, Own(KeyField(m), t, table)).table,
                Foreign(KeyField(m), t, table)))
     && Separate(s, m, t, es[1..], Step(s, m, e.op, e.args, Some(e.tenant), table).table))
  }

  /** One call through a client, whatever it is, leaves every row of everybody else alone. */
  lemma StepLeavesForeignRows(s: Schema, m: Model, op: Operation, a: Args, org: Option<string>, table: seq<Row>)
    requires IsTenantScoped(m) && UniqueOk(s, table)
    ensures var q := Step(s, m, op, a, org, table);
      && (HasOwnScopeContext(org) ==>
            Foreign(KeyField(m), org.value, q.table) == Foreign(KeyField(m), org.value, table))
      && (DecideScope(m, op, a, org).Refuse? || op.Other? || !HasOwnScopeContext(org) ==>
            q == Answer(table, Failed(MissingTenantContext)))
  {
    if HasOwnScopeContext(org) {
      var plan := DecideScope(m, op, a, org);
      if plan.Run? {
        RunRefines(s, m, op, a, org.value, table);
      } else if plan.RunAndCheck? {
        LookupPlan(s, m, op, a, org.value, table);
        QueryKeepsOnLookup(s, op, plan.args, table);
        QueryKeepsOnLookup(s, op, MissArgs(), table);
      }
    }
  }

  /** Rows that are not `u`'s include all of `t`'s, so keeping the former keeps the latter. */
  lemma {:induction false} OwnWithinForeign(key: string, t: string, u: string, table: seq<Row>)
    requires t != u
    ensures Own(key, t, Foreign(key, u, table)) == Own(key, t, table)
  {
    if table != [] {
      OwnWithinForeign(key, t, u, table[1..]);
      Cons(table[0], Foreign(key, u, table[1..]));
    }
  }

  /** The frame over runs: after any sequence of calls through `t`'s client, the rows of
      everybody else are the same rows in the same order, and whatever is new is `t`'s. */
  lemma {:induction false} RunLeavesForeignRows(s: Schema, m: Model, t: string, es: seq<Event>, table: seq<Row>)
    requires IsTenantScoped(m) && t != "" && UniqueOk(s, table)
    requires forall e | e in es :: e.tenant == t
    ensures var after := SharedRun(s, m, es, table).table;
      && UniqueOk(s, after)
      && Foreign(KeyField(m), t, after) == Foreign(KeyField(m), t, table)
      && forall r | r in after && r !in table :: Owns(KeyField(m), t, r)
  {
    if es != [] {
      var e := es[0];
      var next := Step(s, m, e.op, e.args, Some(t), table).table;
      StepLeavesForeignRows(s, m, e.op, e.args, Some(t), table);
      StepKeepsUnique(s, m, e.op, e.args, Some(t), table);
      RunLeavesForeignRows(s, m, t, es[1..], next);
    }
    var after := SharedRun(s, m, es, table).table;
    forall r | r in after && r !in table ensures Owns(KeyField(m), t, r) {
      OwnMembers(KeyField(m), t, after, r);
      OwnMembers(KeyField(m), t, table, r);
    }
  }

  /** Isolation over runs: in any interleaving of all tenants' calls, tenant `t` sees, call
      by call, the answers of its own calls alone on a private store, and its rows end up
      as that private store. */
  lemma {:induction false} InterleavedRunRefinesPrivateRun(s: Schema, m: Model, t: string, es: seq<Event>,
                                                           table: seq<Row>)
    requires IsTenantScoped(m) && t != "" && Column(ID) in s.uniques && UniqueOk(s, table)
    requires Separate(s, m, t, es, table)
    ensures var shared := SharedRun(s, m, es, table);
      var alone := PrivateRun(s, m, t, es, Own(KeyField(m), t, table));
      Own(KeyField(m), t, shared.table) == alone.table && OutsOf(t, es, shared.outs) == alone.outs
  {
    if es != [] {
      var e, key := es[0], KeyField(m);
      var q := Step(s, m, e.op, e.args, Some(e.tenant), table);
      StepKeepsUnique(s, m, e.op, e.args, Some(e.tenant), table);
      InterleavedRunRefinesPrivateRun(s, m, t, es[1..], q.table);
      StepLeavesForeignRows(s, m, e.op, e.args, Some(e.tenant), table);
      var rest := SharedRun(s, m, es[1..], q.table);
      assert ([q.out] + rest.outs)[1..] == rest.outs;
      if e.tenant != t {
        OwnWithinForeign(key, t, e.tenant, table);
        OwnWithinForeign(key, t, e.tenant, q.table);
      } else if !DecideScope(m, e.op, e.args, Some(t)).Refuse? {
        ScopedCallRefinesPrivateStore(s, m, e.op, e.args, t, table);
      }
    }
  }
}
