/** One table of the database as the query engine sees it: rows, filters and the
    top-level operations. Relations, nested writes and cursors are not modelled. */
module Store {
  import opened Wrappers

  datatype Scalar = Null | Str(s: string) | Int(n: int)

  /** A row, or a payload of columns; a column that is not there reads as NULL. */
  type Row = map<string, Scalar>

  function Get(r: Row, f: string): Scalar {
    if f in r then r[f] else Null
  }

  // ----- filters ----------------------------------------------------------

  /** What a `where` holds for one column. `Undefined` is an own key whose value is
      `undefined`, which the engine ignores; `Lit` is the bare scalar form and
      `Equals` the object form `{ equals: v }`. */
  datatype Filter =
    | Undefined | Lit(v: Scalar) | Equals(v: Scalar) | In(vs: seq<Scalar>) | NotIn(vs: seq<Scalar>) | Not(v: Scalar)

  datatype Where = Where(
    fields: map<string, Filter>,
    compound: map<string, Row>,
    and: seq<Where>,
    or: Alternatives,
    not: seq<Where>)

  datatype Alternatives = Unset | AnyOf(ws: seq<Where>)

  const EVERYTHING := Where(map[], map[], [], Unset, [])

  /** SQL's three truth values: a comparison with NULL is `Maybe`. */
  datatype Truth = Yes | No | Maybe

  function Conj(ts: seq<Truth>): Truth {
    if No in ts then No else if Maybe in ts then Maybe else Yes
  }

  function Disj(ts: seq<Truth>): Truth {
    if Yes in ts then Yes else if Maybe in ts then Maybe else No
  }

  function Neg(t: Truth): Truth {
    match t case Yes => No case No => Yes case Maybe => Maybe
  }

  function Compare(v: Scalar, x: Scalar): Truth {
    if x.Null? then (if v.Null? then Yes else No)
    else if v.Null? then Maybe
    else if v == x then Yes else No
  }

  function FilterTruth(f: Filter, v: Scalar): Truth {
    match f
    case Undefined => Yes
    case Lit(x) => Compare(v, x)
    case Equals(x) => Compare(v, x)
    case Not(x) => Neg(Compare(v, x))
    case In(xs) => if xs == [] then No else if v.Null? then Maybe else if v in xs then Yes else No
    case NotIn(xs) => if xs == [] then Yes else if v.Null? then Maybe else if v in xs then No else Yes
  }

  function FieldsTruth(fs: map<string, Filter>, r: Row): Truth {
    if exists f | f in fs :: FilterTruth(fs[f], Get(r, f)) == No then No
    else if exists f | f in fs :: FilterTruth(fs[f], Get(r, f)) == Maybe then Maybe
    else Yes
  }

  function CompoundTruth(cs: map<string, Row>, r: Row): Truth {
    if exists c, f | c in cs && f in cs[c] :: Compare(Get(r, f), cs[c][f]) == No then No
    else if exists c, f | c in cs && f in cs[c] :: Compare(Get(r, f), cs[c][f]) == Maybe then Maybe
    else Yes
  }

  function Eval(w: Where, r: Row): Truth
    decreases w, 1
  {
    Conj([FieldsTruth(w.fields, r),
          CompoundTruth(w.compound, r),
          Conj(Evals(w.and, r)),
          match w.or { case Unset => Yes case AnyOf(ws) => Disj(Evals(ws, r)) },
          Neg(Disj(Evals(w.not, r)))])
  }

  function Evals(ws: seq<Where>, r: Row): (ts: seq<Truth>)
    ensures |ts| == |ws| && forall i | 0 <= i < |ws| :: ts[i] == Eval(ws[i], r)
    decreases ws, 0
  {
    if ws == [] then [] else [Eval(ws[0], r)] + Evals(ws[1..], r)
  }

  /** A row is selected only when the condition is true, not when it is unknown. */
  predicate Matches(w: Where, r: Row) {
    Eval(w, r) == Yes
  }

  // ----- uniqueness -------------------------------------------------------

  /** `Column` and `Compound` are keys a unique lookup can name; `Partial` is an index
      over the live rows only, which enforces uniqueness but cannot be looked up by. */
  datatype Unique =
    | Column(field: string)
    | Compound(name: string, parts: set<string>)
    | Partial(cols: set<string>, live: Where)

  datatype Schema = Schema(uniques: seq<Unique>, defaults: Row)

  predicate SameKey(fs: set<string>, a: Row, b: Row) {
    forall f | f in fs :: Get(a, f) == Get(b, f) && !Get(a, f).Null?
  }

  predicate Collides(u: Unique, a: Row, b: Row) {
    match u
    case Column(f) => SameKey({f}, a, b)
    case Compound(_, fs) => SameKey(fs, a, b)
    case Partial(fs, live) => Matches(live, a) && Matches(live, b) && SameKey(fs, a, b)
  }

  predicate Clash(s: Schema, a: Row, b: Row) {
    exists u | u in s.uniques :: Collides(u, a, b)
  }

  predicate Fits(s: Schema, r: Row, table: seq<Row>) {
    forall x | x in table :: !Clash(s, r, x)
  }

  /** Every unique index holds: no two rows of the table clash. */
  predicate UniqueOk(s: Schema, table: seq<Row>) {
    table == [] || (Fits(s, table[0], table[1..]) && UniqueOk(s, table[1..]))
  }

  /** No row of one table clashes with a row of the other. */
  predicate Apart(s: Schema, a: seq<Row>, b: seq<Row>) {
    forall x, y | x in a && y in b :: !Clash(s, x, y)
  }

  /** The `where` names a whole unique key, as a unique lookup must. */
  predicate HasSelector(s: Schema, w: Where) {
    exists u | u in s.uniques :: Selects(u, w)
  }

  predicate Selects(u: Unique, w: Where) {
    match u
    case Column(f) => f in w.fields && w.fields[f].Lit? && !w.fields[f].v.Null?
    case Compound(c, fs) => c in w.compound && fs == w.compound[c].Keys && forall f | f in fs :: !w.compound[c][f].Null?
    case Partial(_, _) => false
  }

  // ----- operations -------------------------------------------------------

  datatype Operation =
    | FindUnique | FindUniqueOrThrow
    | FindFirst | FindFirstOrThrow | FindMany | Count | Aggregate | GroupBy
    | DeleteMany | UpdateMany | UpdateManyAndReturn
    | Delete | Update | Upsert
    | Create | CreateMany | CreateManyAndReturn
    | Other(name: string)

  datatype Data = One(cols: Row) | Many(rows: seq<Row>)

  /** `shape` stands for orderBy, distinct, skip and take: any function of the matched rows.
      `report` stands for what aggregate and groupBy compute from them. */
  datatype Args = Args(
    where: Option<Where>,
    data: Option<Data>,
    create: Option<Data>,
    update: Option<Data>,
    select: Option<map<string, bool>>,
    omit: Option<map<string, bool>>,
    skipDuplicates: bool,
    shape: seq<Row> -> seq<Row>,
    report: seq<Row> -> seq<Row>)

  datatype DbError = NotFound | UniqueViolation | Invalid | MissingTenantContext

  datatype Outcome =
    | Found(row: Option<Row>)
    | Listed(rows: seq<Row>)
    | Counted(n: nat)
    | Failed(error: DbError)

  datatype Answer = Answer(table: seq<Row>, out: Outcome)

  function WhereOf(a: Args): Where {
    if a.where.Some? then a.where.value else EVERYTHING
  }

  /** Every column left out of `select` or named by `omit` is dropped. */
  function Project(a: Args, r: Row): Row {
    if a.select.Some? then map f | f in r && f in a.select.value && a.select.value[f] :: r[f]
    else if a.omit.Some? then map f | f in r && !(f in a.omit.value && a.omit.value[f]) :: r[f]
    else r
  }

  function ProjectAll(a: Args, rows: seq<Row>): seq<Row> {
    seq(|rows|, i requires 0 <= i < |rows| => Project(a, rows[i]))
  }

  /** `select` and `omit` exclude each other and an empty selection is rejected. */
  predicate ProjectionOk(a: Args) {
    a.select.Some? ==> a.omit.None? && exists f | f in a.select.value :: a.select.value[f]
  }

  predicate IsOne(d: Option<Data>) { d.Some? && d.value.One? }

  /** The engine's own validation of a call, before it touches the table. */
  predicate Accepts(s: Schema, op: Operation, a: Args) {
    match op
    case FindUnique => HasSelector(s, WhereOf(a)) && ProjectionOk(a)
    case FindUniqueOrThrow => HasSelector(s, WhereOf(a)) && ProjectionOk(a)
    case FindFirst => ProjectionOk(a)
    case FindFirstOrThrow => ProjectionOk(a)
    case FindMany => ProjectionOk(a)
    case Count => true
    case Aggregate => true
    case GroupBy => true
    case DeleteMany => true
    case UpdateMany => IsOne(a.data)
    case UpdateManyAndReturn => IsOne(a.data) && ProjectionOk(a)
    case Delete => HasSelector(s, WhereOf(a)) && ProjectionOk(a)
    case Update => HasSelector(s, WhereOf(a)) && ProjectionOk(a) && IsOne(a.data)
    case Upsert => HasSelector(s, WhereOf(a)) && ProjectionOk(a) && IsOne(a.create) && IsOne(a.update)
    case Create => IsOne(a.data) && ProjectionOk(a)
    case CreateMany => a.data.Some?
    case CreateManyAndReturn => a.data.Some? && ProjectionOk(a)
    case Other(_) => false
  }

  function Matching(w: Where, table: seq<Row>): seq<Row> {
    if table == [] then []
    else if Matches(w, table[0]) then [table[0]] + Matching(w, table[1..])
    else Matching(w, table[1..])
  }

  function Rejecting(w: Where, table: seq<Row>): seq<Row> {
    if table == [] then []
    else if Matches(w, table[0]) then Rejecting(w, table[1..])
    else [table[0]] + Rejecting(w, table[1..])
  }

  function First(w: Where, table: seq<Row>): Option<Row> {
    if table == [] then None else if Matches(w, table[0]) then Some(table[0]) else First(w, table[1..])
  }

  function WriteAll(w: Where, cols: Row, table: seq<Row>): seq<Row> {
    if table == [] then []
    else [if Matches(w, table[0]) then table[0] + cols else table[0]] + WriteAll(w, cols, table[1..])
  }

  function Written(w: Where, cols: Row, table: seq<Row>): seq<Row> {
    if table == [] then []
    else if Matches(w, table[0]) then [table[0] + cols] + Written(w, cols, table[1..])
    else Written(w, cols, table[1..])
  }

  function DeleteFirst(w: Where, table: seq<Row>): seq<Row> {
    if table == [] then []
    else if Matches(w, table[0]) then table[1..] else [table[0]] + DeleteFirst(w, table[1..])
  }

  function WriteFirst(w: Where, cols: Row, table: seq<Row>): seq<Row> {
    if table == [] then []
    else if Matches(w, table[0]) then [table[0] + cols] + table[1..]
    else [table[0]] + WriteFirst(w, cols, table[1..])
  }

  function RowsOf(s: Schema, d: Data): seq<Row> {
    match d
    case One(cols) => [s.defaults + cols]
    case Many(rows) => seq(|rows|, i requires 0 <= i < |rows| => s.defaults + rows[i])
  }

  /** `ON CONFLICT DO NOTHING`: the rows of `news` that go in, in order. */
  function Insertable(s: Schema, news: seq<Row>, table: seq<Row>): seq<Row> {
    if news == [] then []
    else if Fits(s, news[0], table) then [news[0]] + Insertable(s, news[1..], table + [news[0]])
    else Insertable(s, news[1..], table)
  }

  /** A write commits only if every unique index still holds. */
  function Commit(s: Schema, before: seq<Row>, after: seq<Row>, out: Outcome): Answer {
    if UniqueOk(s, after) then Answer(after, out) else Answer(before, Failed(UniqueViolation))
  }

  function Query(s: Schema, op: Operation, a: Args, table: seq<Row>): Answer {
    if Accepts(s, op, a) then Perform(s, op, a, table) else Answer(table, Failed(Invalid))
  }

  /** What an accepted call does. */
  function Perform(s: Schema, op: Operation, a: Args, table: seq<Row>): Answer
    requires Accepts(s, op, a)
  {
    match op
    case FindUnique => Lookup(a, table, false)
    case FindUniqueOrThrow => Lookup(a, table, true)
    case Delete => Remove(a, table)
    case Update =>
      if First(WhereOf(a), table).None? then Answer(table, Failed(NotFound))
      else Overwrite(s, a, a.data.value.cols, table)
    case Upsert =>
      if First(WhereOf(a), table).None? then Insert(s, a, a.create.value.cols, table)
      else Overwrite(s, a, a.update.value.cols, table)
    case Create => Insert(s, a, a.data.value.cols, table)
    case CreateMany => Append(s, a, a.data.value, table, false)
    case CreateManyAndReturn => Append(s, a, a.data.value, table, true)
    case DeleteMany => Answer(Rejecting(WhereOf(a), table), Counted(|Matching(WhereOf(a), table)|))
    case UpdateMany => OverwriteAll(s, a, a.data.value.cols, table, false)
    case UpdateManyAndReturn => OverwriteAll(s, a, a.data.value.cols, table, true)
    case _ => Answer(table, Read(op, a, Matching(WhereOf(a), table)))
  }

  function Lookup(a: Args, table: seq<Row>, throws: bool): Answer {
    var found := FoundIn(a, First(WhereOf(a), table));
    Answer(table, if throws then OrThrow(found) else found)
  }

  /** The reads that only look at the matched rows. */
  function Read(op: Operation, a: Args, rows: seq<Row>): Outcome {
    match op
    case FindFirst => FoundIn(a, Head(a.shape(rows)))
    case FindFirstOrThrow => OrThrow(FoundIn(a, Head(a.shape(rows))))
    case FindMany => Listed(ProjectAll(a, a.shape(rows)))
    case Count => Counted(|a.shape(rows)|)
    case _ => Listed(a.report(rows))
  }

  function Remove(a: Args, table: seq<Row>): Answer {
    var r := First(WhereOf(a), table);
    if r.None? then Answer(table, Failed(NotFound)) else Answer(DeleteFirst(WhereOf(a), table), FoundIn(a, r))
  }

  function OverwriteAll(s: Schema, a: Args, cols: Row, table: seq<Row>, returning: bool): Answer {
    var w := WhereOf(a);
    Commit(s, table, WriteAll(w, cols, table),
           if returning then Listed(ProjectAll(a, Written(w, cols, table))) else Counted(|Matching(w, table)|))
  }

  function Append(s: Schema, a: Args, d: Data, table: seq<Row>, returning: bool): Answer {
    var news := if a.skipDuplicates then Insertable(s, RowsOf(s, d), table) else RowsOf(s, d);
    Commit(s, table, table + news, if returning then Listed(ProjectAll(a, news)) else Counted(|news|))
  }

  function Insert(s: Schema, a: Args, cols: Row, table: seq<Row>): Answer {
    Commit(s, table, table + [s.defaults + cols], Found(Some(Project(a, s.defaults + cols))))
  }

  function Overwrite(s: Schema, a: Args, cols: Row, table: seq<Row>): Answer
    requires First(WhereOf(a), table).Some?
  {
    var w := WhereOf(a);
    Commit(s, table, WriteFirst(w, cols, table), Found(Some(Project(a, First(w, table).value + cols))))
  }

  function Head(rows: seq<Row>): Option<Row> {
    if rows == [] then None else Some(rows[0])
  }

  function FoundIn(a: Args, r: Option<Row>): Outcome {
    Found(if r.None? then None else Some(Project(a, r.value)))
  }

  function OrThrow(o: Outcome): Outcome {
    if o == Found(None) then Failed(NotFound) else o
  }
}
