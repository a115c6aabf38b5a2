/** What the scoped client promises: on the shared store it behaves like one tenant's
    private store, and it leaves every other tenant's rows alone. */
module TenantIsolation {
  import opened Wrappers
  import opened Store
  import opened TenantScope
  import opened TenantClient

  /** The rows of tenant `t`, in table order: its private store. */
  function Own(key: string, t: string, table: seq<Row>): seq<Row> {
    if table == [] then []
    else if Owns(key, t, table[0]) then [table[0]] + Own(key, t, table[1..])
    else Own(key, t, table[1..])
  }

  /** Everybody else's rows, in table order. */
  function Foreign(key: string, t: string, table: seq<Row>): seq<Row> {
    if table == [] then []
    else if Owns(key, t, table[0]) then Foreign(key, t, table[1..])
    else [table[0]] + Foreign(key, t, table[1..])
  }

  /** The call with the scope column forced in its data and nothing else changed. */
  function Forced(op: Operation, a: Args, key: string, t: string): Args {
    match op
    case UpdateMany => a.(data := Some(WithScopedData(a.data, key, t)))
    case UpdateManyAndReturn => a.(data := Some(WithScopedData(a.data, key, t)))
    case Update => a.(data := Some(WithScopedData(a.data, key, t)))
    case Create => a.(data := Some(WithScopedData(a.data, key, t)))
    case CreateMany => a.(data := Some(WithScopedData(a.data, key, t)))
    case CreateManyAndReturn => a.(data := Some(WithScopedData(a.data, key, t)))
    case Upsert =>
      a.(create := Some(WithScopedData(a.create, key, t)), update := Some(WithScopedData(a.update, key, t)))
    case _ => a
  }

  /** The same call made unscoped on the tenant's private store. */
  function PrivateStep(s: Schema, op: Operation, a: Args, key: string, t: string, own: seq<Row>): Answer {
    Query(s, op, Forced(op, a, key, t), own)
  }

  function PlanArgs(p: ScopePlan): Args
    requires p.Run? || p.RunAndCheck?
  {
    p.args
  }

  /** The rewrite must not turn a call the engine rejects into one it accepts. */
  predicate KeepsValidation(s: Schema, m: Model, op: Operation, a: Args, t: string)
    requires IsTenantScoped(m)
  {
    var plan := DecideScope(m, op, a, Some(t));
    plan.Run? || plan.RunAndCheck? ==>
      Accepts(s, op, PlanArgs(plan)) ==> Accepts(s, op, Forced(op, a, KeyField(m), t))
  }

  // ----- conditions ---------------------------------------------------------

  lemma MatchesMeans(w: Where, r: Row)
    ensures Matches(w, r) <==>
      && (forall f | f in w.fields :: FilterTruth(w.fields[f], Get(r, f)) == Yes)
      && (forall c, f | c in w.compound && f in w.compound[c] :: Compare(Get(r, f), w.compound[c][f]) == Yes)
      && (forall i | 0 <= i < |w.and| :: Matches(w.and[i], r))
      && (w.or.AnyOf? ==> exists i | 0 <= i < |w.or.ws| :: Matches(w.or.ws[i], r))
      && (forall i | 0 <= i < |w.not| :: Eval(w.not[i], r) == No)
  {
    MatchesParts(w, r);
    EvalsMean(w.and, r);
    EvalsMean(w.not, r);
    if w.or.AnyOf? { EvalsMean(w.or.ws, r); }
    FieldsMean(w.fields, r);
    CompoundMeans(w.compound, r);
  }

  /** What a filter says of a column's value: it is met, or it is not, or, of a null, neither. */
  lemma FilterMeans(f: Filter, v: Scalar)
    ensures FilterTruth(f, v) == Yes <==>
      match f
      case Undefined => true
      case Lit(x) => v == x
      case Equals(x) => v == x
      case Not(x) => v != x && v != Null
      case In(xs) => v in xs && v != Null
      case NotIn(xs) => xs == [] || (v !in xs && v != Null)
    ensures FilterTruth(f, v) == No <==>
      match f
      case Undefined => false
      case Lit(x) => v != x && (v != Null || x == Null)
      case Equals(x) => v != x && (v != Null || x == Null)
      case Not(x) => v == x
      case In(xs) => xs == [] || (v !in xs && v != Null)
      case NotIn(xs) => v in xs && v != Null
  {
  }

  /** When a condition is false, as `not` asks: some part of it is false. */
  lemma NotMatchingMeans(w: Where, r: Row)
    ensures Eval(w, r) == No <==>
      || (exists f | f in w.fields :: FilterTruth(w.fields[f], Get(r, f)) == No)
      || (exists c, f | c in w.compound && f in w.compound[c] :: Compare(Get(r, f), w.compound[c][f]) == No)
      || (exists i | 0 <= i < |w.and| :: Eval(w.and[i], r) == No)
      || (w.or.AnyOf? && forall i | 0 <= i < |w.or.ws| :: Eval(w.or.ws[i], r) == No)
      || (exists i | 0 <= i < |w.not| :: Matches(w.not[i], r))
  {
    NoPart(FieldsTruth(w.fields, r), CompoundTruth(w.compound, r), Conj(Evals(w.and, r)),
           match w.or { case Unset => Yes case AnyOf(ws) => Disj(Evals(ws, r)) },
           Neg(Disj(Evals(w.not, r))));
    NoneHolds(w.and, r);
    EvalsMean(w.not, r);
    if w.or.AnyOf? { EvalsMean(w.or.ws, r); }
  }

  lemma NoPart(a: Truth, b: Truth, c: Truth, d: Truth, e: Truth)
    ensures Conj([a, b, c, d, e]) == No <==> a == No || b == No || c == No || d == No || e == No
  {
    var parts := [a, b, c, d, e];
    assert parts[0] in parts && parts[1] in parts && parts[2] in parts && parts[3] in parts && parts[4] in parts;
  }

  lemma NoneHolds(ws: seq<Where>, r: Row)
    ensures Conj(Evals(ws, r)) == No <==> exists i | 0 <= i < |ws| :: Eval(ws[i], r) == No
  {
    var ts := Evals(ws, r);
    if i :| 0 <= i < |ws| && ts[i] == No { assert Eval(ws[i], r) == No; }
  }

  lemma MatchesParts(w: Where, r: Row)
    ensures Matches(w, r) <==>
      && FieldsTruth(w.fields, r) == Yes && CompoundTruth(w.compound, r) == Yes
      && Conj(Evals(w.and, r)) == Yes && (w.or.AnyOf? ==> Disj(Evals(w.or.ws, r)) == Yes)
      && Disj(Evals(w.not, r)) == No
  {
    Conj5Means(FieldsTruth(w.fields, r), CompoundTruth(w.compound, r), Conj(Evals(w.and, r)),
               match w.or { case Unset => Yes case AnyOf(ws) => Disj(Evals(ws, r)) },
               Neg(Disj(Evals(w.not, r))));
  }

  lemma Conj5Means(a: Truth, b: Truth, c: Truth, d: Truth, e: Truth)
    ensures Conj([a, b, c, d, e]) == Yes <==> a == Yes && b == Yes && c == Yes && d == Yes && e == Yes
  {
    var parts := [a, b, c, d, e];
    assert parts[0] in parts && parts[1] in parts && parts[2] in parts && parts[3] in parts && parts[4] in parts;
  }

  lemma EvalsMean(ws: seq<Where>, r: Row)
    ensures Conj(Evals(ws, r)) == Yes <==> forall i | 0 <= i < |ws| :: Matches(ws[i], r)
    ensures Disj(Evals(ws, r)) == Yes <==> exists i | 0 <= i < |ws| :: Matches(ws[i], r)
    ensures Disj(Evals(ws, r)) == No <==> forall i | 0 <= i < |ws| :: Eval(ws[i], r) == No
  {
    AllMatch(ws, r);
    SomeMatches(ws, r);
    NoneMatches(ws, r);
  }

  lemma AllMatch(ws: seq<Where>, r: Row)
    ensures Conj(Evals(ws, r)) == Yes <==> forall i | 0 <= i < |ws| :: Matches(ws[i], r)
  {
    ConjMeans(Evals(ws, r));
  }

  lemma SomeMatches(ws: seq<Where>, r: Row)
    ensures Disj(Evals(ws, r)) == Yes <==> exists i | 0 <= i < |ws| :: Matches(ws[i], r)
  {
    var ts := Evals(ws, r);
    DisjMeans(ts);
    if i :| 0 <= i < |ws| && ts[i] == Yes { assert Matches(ws[i], r); }
  }

  lemma NoneMatches(ws: seq<Where>, r: Row)
    ensures Disj(Evals(ws, r)) == No <==> forall i | 0 <= i < |ws| :: Eval(ws[i], r) == No
  {
    DisjMeans(Evals(ws, r));
  }

  lemma FieldsMean(fs: map<string, Filter>, r: Row)
    ensures FieldsTruth(fs, r) == Yes <==> forall f | f in fs :: FilterTruth(fs[f], Get(r, f)) == Yes
  {
    if FieldsTruth(fs, r) == Yes {
      forall f | f in fs ensures FilterTruth(fs[f], Get(r, f)) == Yes {}
    }
  }

  lemma CompoundMeans(cs: map<string, Row>, r: Row)
    ensures CompoundTruth(cs, r) == Yes
       <==> forall c, f | c in cs && f in cs[c] :: Compare(Get(r, f), cs[c][f]) == Yes
  {
    if CompoundTruth(cs, r) == Yes {
      forall c, f | c in cs && f in cs[c] ensures Compare(Get(r, f), cs[c][f]) == Yes {}
    }
  }

  lemma ConjMeans(ts: seq<Truth>)
    ensures Conj(ts) == Yes <==> forall i | 0 <= i < |ts| :: ts[i] == Yes
  {
    if Conj(ts) == Yes {
      forall i | 0 <= i < |ts| ensures ts[i] == Yes { assert ts[i] in ts; }
    }
  }

  lemma DisjMeans(ts: seq<Truth>)
    ensures Disj(ts) == Yes <==> exists i | 0 <= i < |ts| :: ts[i] == Yes
    ensures Disj(ts) == No <==> forall i | 0 <= i < |ts| :: ts[i] == No
  {
    if Disj(ts) == No {
      forall i | 0 <= i < |ts| ensures ts[i] == No { assert ts[i] in ts; }
    }
  }

  lemma KeyOnlyMatches(key: string, t: string, r: Row)
    ensures Matches(EVERYTHING.(fields := map[key := Lit(Str(t))]), r) <==> Owns(key, t, r)
  {
    MatchesMeans(EVERYTHING.(fields := map[key := Lit(Str(t))]), r);
  }

  /** The scoped filter selects exactly the caller's matches among the tenant's rows,
      also when the caller already filters on the scope column. */
  lemma ScopedWhereSelectsOwnMatches(w: Option<Where>, key: string, t: string, r: Row)
    ensures Matches(WithScopedWhere(w, key, t), r)
      <==> Matches(if w.Some? then w.value else EVERYTHING, r) && Owns(key, t, r)
  {
    var base := if w.Some? then w.value else EVERYTHING;
    var only := EVERYTHING.(fields := map[key := Lit(Str(t))]);
    var scoped := WithScopedWhere(w, key, t);
    MatchesMeans(base, r);
    MatchesMeans(scoped, r);
    KeyOnlyMatches(key, t, r);
    if key in base.fields {
      assert scoped.and[0] == base && scoped.and[1] == only;
    } else {
      AddedKeyMatches(base, key, t, r);
    }
  }

  lemma AddedKeyMatches(base: Where, key: string, t: string, r: Row)
    requires key in base.fields ==> base.fields[key] == Lit(Str(t))
    ensures Matches(base.(fields := base.fields[key := Lit(Str(t))]), r) <==> Matches(base, r) && Owns(key, t, r)
  {
    var scoped := base.(fields := base.fields[key := Lit(Str(t))]);
    MatchesMeans(base, r);
    MatchesMeans(scoped, r);
    assert key in scoped.fields;
    if Matches(scoped, r) {
      assert FilterTruth(scoped.fields[key], Get(r, key)) == Yes;
      forall f | f in base.fields ensures FilterTruth(base.fields[f], Get(r, f)) == Yes {
        assert f in scoped.fields;
      }
    }
  }

  /** A scoped unique condition, when there is one, selects exactly the caller's match
      among the tenant's rows; there is none exactly when the caller pins the scope
      column to anything but the tenant itself. */
  lemma ScopedUniqueWhereSelectsOwnMatch(w: Option<Where>, key: string, t: string, r: Row)
    ensures var base := if w.Some? then w.value else EVERYTHING;
      var scoped := ScopeUniqueWhere(w, key, t);
      && (scoped.None? <==> key in base.fields && base.fields[key] != Lit(Str(t)))
      && (scoped.Some? ==> (Matches(scoped.value, r) <==> Matches(base, r) && Owns(key, t, r)))
  {
    var base := if w.Some? then w.value else EVERYTHING;
    if ScopeUniqueWhere(w, key, t).Some? {
      AddedKeyMatches(base, key, t, r);
    }
  }

  /** `w'` selects what `w` selects among the tenant's rows. */
  ghost predicate Restricts(w': Where, w: Where, key: string, t: string) {
    forall r: Row :: Matches(w', r) <==> Matches(w, r) && Owns(key, t, r)
  }

  // ----- tables -------------------------------------------------------------

  lemma OwnMembers(key: string, t: string, table: seq<Row>, r: Row)
    ensures r in Own(key, t, table) <==> r in table && Owns(key, t, r)
    ensures r in Foreign(key, t, table) <==> r in table && !Owns(key, t, r)
  {
  }

  lemma {:induction false} OwnAppends(key: string, t: string, a: seq<Row>, b: seq<Row>)
    ensures Own(key, t, a + b) == Own(key, t, a) + Own(key, t, b)
  {
    if a == [] {
      assert a + b == b;
    } else {
      assert a + b == [a[0]] + (a[1..] + b);
      Cons(a[0], a[1..] + b);
      OwnAppends(key, t, a[1..], b);
    }
  }

  lemma {:induction false} ForeignAppends(key: string, t: string, a: seq<Row>, b: seq<Row>)
    ensures Foreign(key, t, a + b) == Foreign(key, t, a) + Foreign(key, t, b)
  {
    if a == [] {
      assert a + b == b;
    } else {
      assert a + b == [a[0]] + (a[1..] + b);
      Cons(a[0], a[1..] + b);
      ForeignAppends(key, t, a[1..], b);
    }
  }

  lemma {:induction false} AllOwned(key: string, t: string, news: seq<Row>)
    requires forall r | r in news :: Owns(key, t, r)
    ensures Own(key, t, news) == news && Foreign(key, t, news) == []
  {
    if news != [] { AllOwned(key, t, news[1..]); }
  }

  lemma Cons(h: Row, rest: seq<Row>)
    ensures ([h] + rest)[0] == h && ([h] + rest)[1..] == rest
  {
  }

  lemma {:induction false} MatchingRefines(w': Where, w: Where, key: string, t: string, table: seq<Row>)
    requires Restricts(w', w, key, t)
    ensures Matching(w', table) == Matching(w, Own(key, t, table))
    ensures First(w', table) == First(w, Own(key, t, table))
  {
    if table != [] {
      MatchingRefines(w', w, key, t, table[1..]);
      Cons(table[0], Own(key, t, table[1..]));
    }
  }

  lemma {:induction false} RejectingRefines(w': Where, w: Where, key: string, t: string, table: seq<Row>)
    requires Restricts(w', w, key, t)
    ensures Own(key, t, Rejecting(w', table)) == Rejecting(w, Own(key, t, table))
    ensures Foreign(key, t, Rejecting(w', table)) == Foreign(key, t, table)
  {
    if table != [] {
      RejectingRefines(w', w, key, t, table[1..]);
      Cons(table[0], Own(key, t, table[1..]));
      Cons(table[0], Rejecting(w', table[1..]));
    }
  }

  lemma {:induction false} WriteAllRefines(w': Where, w: Where, cols: Row, key: string, t: string, table: seq<Row>)
    requires Restricts(w', w, key, t) && Owns(key, t, cols)
    ensures Own(key, t, WriteAll(w', cols, table)) == WriteAll(w, cols, Own(key, t, table))
    ensures Foreign(key, t, WriteAll(w', cols, table)) == Foreign(key, t, table)
  {
    if table != [] {
      WriteAllRefines(w', w, cols, key, t, table[1..]);
      Cons(table[0], Own(key, t, table[1..]));
      Cons(table[0], WriteAll(w', cols, table[1..]));
      Cons(table[0] + cols, WriteAll(w', cols, table[1..]));
    }
  }

  lemma {:induction false} WrittenRefines(w': Where, w: Where, cols: Row, key: string, t: string, table: seq<Row>)
    requires Restricts(w', w, key, t)
    ensures Written(w', cols, table) == Written(w, cols, Own(key, t, table))
  {
    if table != [] {
      WrittenRefines(w', w, cols, key, t, table[1..]);
      Cons(table[0], Own(key, t, table[1..]));
    }
  }

  lemma {:induction false} DeleteFirstRefines(w': Where, w: Where, key: string, t: string, table: seq<Row>)
    requires Restricts(w', w, key, t)
    ensures Own(key, t, DeleteFirst(w', table)) == DeleteFirst(w, Own(key, t, table))
    ensures Foreign(key, t, DeleteFirst(w', table)) == Foreign(key, t, table)
  {
    if table != [] {
      DeleteFirstRefines(w', w, key, t, table[1..]);
      Cons(table[0], Own(key, t, table[1..]));
      Cons(table[0], DeleteFirst(w', table[1..]));
    }
  }

  lemma {:induction false} WriteFirstRefines(w': Where, w: Where, cols: Row, key: string, t: string, table: seq<Row>)
    requires Restricts(w', w, key, t) && Owns(key, t, cols)
    ensures Own(key, t, WriteFirst(w', cols, table)) == WriteFirst(w, cols, Own(key, t, table))
    ensures Foreign(key, t, WriteFirst(w', cols, table)) == Foreign(key, t, table)
  {
    if table != [] {
      WriteFirstRefines(w', w, cols, key, t, table[1..]);
      Cons(table[0], Own(key, t, table[1..]));
      Cons(table[0], WriteFirst(w', cols, table[1..]));
      Cons(table[0] + cols, table[1..]);
    }
  }

  // ----- uniqueness -----------------------------------------------------------

  lemma ClashSymmetric(s: Schema, a: Row, b: Row)
    ensures Clash(s, a, b) == Clash(s, b, a)
  {
    forall u | u in s.uniques ensures Collides(u, a, b) == Collides(u, b, a) {}
  }

  lemma {:induction false} UniqueSplits(s: Schema, key: string, t: string, table: seq<Row>)
    ensures UniqueOk(s, table) <==>
      && UniqueOk(s, Own(key, t, table)) && UniqueOk(s, Foreign(key, t, table))
      && Apart(s, Own(key, t, table), Foreign(key, t, table))
  {
    if table != [] {
      var h, rest := table[0], table[1..];
      var own, others := Own(key, t, rest), Foreign(key, t, rest);
      UniqueSplits(s, key, t, rest);
      forall r: Row ensures r in own <==> r in rest && Owns(key, t, r)
                    ensures r in others <==> r in rest && !Owns(key, t, r) { OwnMembers(key, t, rest, r); }
      assert Fits(s, h, rest) <==> Fits(s, h, own) && Fits(s, h, others);
      forall x: Row ensures Clash(s, h, x) == Clash(s, x, h) { ClashSymmetric(s, h, x); }
      Cons(h, own);
      Cons(h, others);
      assert forall x | x in [h] + own :: x == h || x in own;
      assert forall x | x in [h] + others :: x == h || x in others;
      assert h in [h] + own && h in [h] + others;
    }
  }

  lemma {:induction false} RejectingKeepsUnique(s: Schema, w: Where, table: seq<Row>)
    requires UniqueOk(s, table)
    ensures UniqueOk(s, Rejecting(w, table)) && forall r | r in Rejecting(w, table) :: r in table
  {
    if table != [] {
      RejectingKeepsUnique(s, w, table[1..]);
      Cons(table[0], Rejecting(w, table[1..]));
    }
  }

  lemma {:induction false} DeleteFirstKeepsUnique(s: Schema, w: Where, table: seq<Row>)
    requires UniqueOk(s, table)
    ensures UniqueOk(s, DeleteFirst(w, table)) && forall r | r in DeleteFirst(w, table) :: r in table
  {
    if table != [] {
      DeleteFirstKeepsUnique(s, w, table[1..]);
      Cons(table[0], DeleteFirst(w, table[1..]));
    }
  }

  lemma QueryKeepsUnique(s: Schema, op: Operation, a: Args, table: seq<Row>)
    requires UniqueOk(s, table)
    ensures UniqueOk(s, Query(s, op, a, table).table)
  {
    RejectingKeepsUnique(s, WhereOf(a), table);
    DeleteFirstKeepsUnique(s, WhereOf(a), table);
  }

  lemma StepKeepsUnique(s: Schema, m: Model, op: Operation, a: Args, org: Option<string>, table: seq<Row>)
    requires UniqueOk(s, table)
    ensures UniqueOk(s, Step(s, m, op, a, org, table).table)
  {
    match DecideScope(m, op, a, org)
    case Passthrough => QueryKeepsUnique(s, op, a, table);
    case Refuse =>
    case Run(args) => QueryKeepsUnique(s, op, args, table);
    case RunAndCheck(args, _, _, _, _) =>
      QueryKeepsOnLookup(s, op, args, table);
      QueryKeepsOnLookup(s, op, MissArgs(), table);
  }

  /** A unique lookup can match one row at most. */
  lemma MatchesOfSelectorClash(s: Schema, w: Where, a: Row, b: Row)
    requires HasSelector(s, w) && Matches(w, a) && Matches(w, b)
    ensures Clash(s, a, b)
  {
    MatchesMeans(w, a);
    MatchesMeans(w, b);
    var u :| u in s.uniques && Selects(u, w);
    match u {
      case Column(f) =>
        assert FilterTruth(w.fields[f], Get(a, f)) == Yes && FilterTruth(w.fields[f], Get(b, f)) == Yes;
      case Compound(c, fs) =>
        forall f | f in fs ensures Get(a, f) == Get(b, f) && !Get(a, f).Null? {
          assert f in w.compound[c];
          assert Compare(Get(a, f), w.compound[c][f]) == Yes && Compare(Get(b, f), w.compound[c][f]) == Yes;
        }
    }
    assert Collides(u, a, b);
  }

  lemma {:induction false} FirstIsNone(w: Where, table: seq<Row>)
    requires forall r | r in table :: !Matches(w, r)
    ensures First(w, table) == None
  {
    if table != [] { FirstIsNone(w, table[1..]); }
  }

  /** The row a unique lookup finds in the shared table is the one the private store
      would find when the tenant owns it; otherwise the private store finds none. */
  lemma {:induction false} LookupRefines(s: Schema, w: Where, key: string, t: string, table: seq<Row>)
    requires UniqueOk(s, table) && HasSelector(s, w)
    ensures var r := First(w, table);
      First(w, Own(key, t, table)) == if r.Some? && Owns(key, t, r.value) then r else None
  {
    if table != [] {
      var h, rest := table[0], table[1..];
      Cons(h, Own(key, t, rest));
      if Matches(w, h) {
        forall r | r in Own(key, t, rest) ensures !Matches(w, r) {
          OwnMembers(key, t, rest, r);
          if Matches(w, r) { MatchesOfSelectorClash(s, w, h, r); }
        }
        FirstIsNone(w, Own(key, t, rest));
      } else {
        LookupRefines(s, w, key, t, rest);
      }
    }
  }

  // ----- inserts --------------------------------------------------------------

  lemma ForcedRowsOwned(s: Schema, d: Option<Data>, key: string, t: string, r: Row)
    requires r in RowsOf(s, WithScopedData(d, key, t))
    ensures Owns(key, t, r)
  {
  }

  lemma {:induction false} InsertableSubset(s: Schema, news: seq<Row>, table: seq<Row>)
    ensures forall r | r in Insertable(s, news, table) :: r in news
  {
    if news != [] {
      InsertableSubset(s, news[1..], table + [news[0]]);
      InsertableSubset(s, news[1..], table);
    }
  }

  /** A row that is not skipped fits the table it is offered to. */
  lemma {:induction false} InsertedFit(s: Schema, news: seq<Row>, table: seq<Row>)
    ensures forall r | r in Insertable(s, news, table) :: Fits(s, r, table)
  {
    if news != [] {
      InsertedFit(s, news[1..], table);
      InsertedFit(s, news[1..], table + [news[0]]);
      assert forall x | x in table :: x in table + [news[0]];
    }
  }

  /** Skipping duplicates inserts the same rows on both stores exactly when no row that
      the private store takes clashes with a foreign one. */
  lemma InsertableRefines(s: Schema, news: seq<Row>, key: string, t: string, table: seq<Row>)
    requires forall r | r in news :: Owns(key, t, r)
    ensures Insertable(s, news, table) == Insertable(s, news, Own(key, t, table))
      <==> Apart(s, Insertable(s, news, Own(key, t, table)), Foreign(key, t, table))
  {
    var mine := Insertable(s, news, Own(key, t, table));
    if Apart(s, mine, Foreign(key, t, table)) {
      SameRowsInserted(s, news, key, t, table);
    }
    if Insertable(s, news, table) == mine {
      InsertedFit(s, news, table);
      forall x, y | x in mine && y in Foreign(key, t, table) ensures !Clash(s, x, y) { OwnMembers(key, t, table, y); }
    }
  }

  lemma {:induction false} SameRowsInserted(s: Schema, news: seq<Row>, key: string, t: string, table: seq<Row>)
    requires forall r | r in news :: Owns(key, t, r)
    requires Apart(s, Insertable(s, news, Own(key, t, table)), Foreign(key, t, table))
    ensures Insertable(s, news, table) == Insertable(s, news, Own(key, t, table))
  {
    if news != [] {
      var h, own := news[0], Own(key, t, table);
      forall r: Row ensures r in own || r in Foreign(key, t, table) <==> r in table { OwnMembers(key, t, table, r); }
      OwnAppends(key, t, table, [h]);
      ForeignAppends(key, t, table, [h]);
      AllOwned(key, t, [h]);
      if Fits(s, h, own) {
        assert h in Insertable(s, news, own);
        assert forall r | r in Insertable(s, news[1..], own + [h]) :: r in Insertable(s, news, own);
        SameRowsInserted(s, news[1..], key, t, table + [h]);
      } else {
        SameRowsInserted(s, news[1..], key, t, table);
      }
    }
  }

  // ----- commits --------------------------------------------------------------

  lemma CommitRefines(s: Schema, key: string, t: string, table: seq<Row>, after: seq<Row>, out: Outcome)
    requires UniqueOk(s, table) && Foreign(key, t, after) == Foreign(key, t, table)
    ensures var q, p := Commit(s, table, after, out), Commit(s, Own(key, t, table), Own(key, t, after), out);
      && Foreign(key, t, q.table) == Foreign(key, t, table)
      && (Apart(s, p.table, Foreign(key, t, table)) ==> Own(key, t, q.table) == p.table && q.out == p.out)
  {
    UniqueSplits(s, key, t, table);
    UniqueSplits(s, key, t, after);
  }

  /** The two runs agree: same answer, and the private store's rows are the tenant's. */
  ghost predicate Agree(key: string, t: string, q: Answer, p: Answer) {
    Own(key, t, q.table) == p.table && q.out == p.out
  }

  /** `q` leaves foreign rows alone and agrees with `p` when `p` clashes with none of them. */
  ghost predicate Refines(s: Schema, key: string, t: string, table: seq<Row>, q: Answer, p: Answer) {
    && Foreign(key, t, q.table) == Foreign(key, t, table)
    && (Apart(s, p.table, Foreign(key, t, table)) ==> Agree(key, t, q, p))
  }

  lemma InsertRefines(s: Schema, a: Args, b: Args, cols: Row, key: string, t: string, table: seq<Row>)
    requires UniqueOk(s, table) && Owns(key, t, cols)
    requires a.select == b.select && a.omit == b.omit
    ensures Refines(s, key, t, table, Insert(s, a, cols, table), Insert(s, b, cols, Own(key, t, table)))
  {
    var news := [s.defaults + cols];
    OwnAppends(key, t, table, news);
    ForeignAppends(key, t, table, news);
    AllOwned(key, t, news);
    assert Foreign(key, t, table + news) == Foreign(key, t, table);
    CommitRefines(s, key, t, table, table + news, Found(Some(Project(a, s.defaults + cols))));
  }

  lemma OverwriteRefines(s: Schema, a: Args, b: Args, cols: Row, key: string, t: string, table: seq<Row>)
    requires UniqueOk(s, table) && Owns(key, t, cols)
    requires a.select == b.select && a.omit == b.omit
    requires Restricts(WhereOf(a), WhereOf(b), key, t) && First(WhereOf(a), table).Some?
    ensures First(WhereOf(b), Own(key, t, table)).Some?
    ensures Refines(s, key, t, table, Overwrite(s, a, cols, table), Overwrite(s, b, cols, Own(key, t, table)))
  {
    MatchingRefines(WhereOf(a), WhereOf(b), key, t, table);
    WriteFirstRefines(WhereOf(a), WhereOf(b), cols, key, t, table);
    CommitRefines(s, key, t, table, WriteFirst(WhereOf(a), cols, table),
                  Found(Some(Project(a, First(WhereOf(a), table).value + cols))));
  }
}
