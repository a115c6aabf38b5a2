/** The adapter that runs a scope plan: one query, or one query, a check and a re-run. */
module TenantClient {
  import opened Wrappers
  import opened Store
  import opened TenantScope

  const NEVER_MATCHES_ID := "00000000000000000000000000-tenant-scope-miss"

  /** `id` equals the sentinel and does not: no row satisfies it. */
  const CONTRADICTION := EVERYTHING.(
    fields := map[ID := Lit(Str(NEVER_MATCHES_ID))],
    not := [EVERYTHING.(fields := map[ID := Lit(Str(NEVER_MATCHES_ID))])])

  function MissArgs(): Args {
    Args(Some(CONTRADICTION), None, None, None, None, None, false, rows => rows, rows => rows)
  }

  predicate Owns(key: string, t: string, r: Row) {
    Get(r, key) == Str(t)
  }

  /** What one call through the client of `org` answers and leaves in the model's table. */
  function Step(s: Schema, m: Model, op: Operation, a: Args, org: Option<string>, table: seq<Row>): Answer {
    match DecideScope(m, op, a, org)
    case Passthrough => Query(s, op, a, table)
    case Refuse => Answer(table, Failed(MissingTenantContext))
    case Run(args) => Query(s, op, args, table)
    case RunAndCheck(args, field, expected, throws, strip) =>
      Checked(s, op, Query(s, op, args, table), field, expected, throws, strip)
  }

  /** What becomes of the answer of an unmodified lookup. */
  function Checked(s: Schema, op: Operation, first: Answer, field: string, expected: string, throws: bool,
                   strip: bool): Answer {
    if !first.out.Found? || first.out.row.None? then first
    else if Owns(field, expected, first.out.row.value) then
      Answer(first.table, Found(Some(if strip then first.out.row.value - {field} else first.out.row.value)))
    else if throws then Query(s, op, MissArgs(), first.table)
    else Answer(first.table, Found(None))
  }

  type Tables = map<Model, seq<Row>>

  function TableOf(db: Tables, m: Model): seq<Row> {
    if m in db then db[m] else []
  }

  function Put(db: Tables, m: Model, table: seq<Row>): Tables {
    if table == TableOf(db, m) then db else db[m := table]
  }

  class Database {
    const schemaOf: Model -> Schema
    var tables: Tables

    constructor (schemaOf: Model -> Schema)
      ensures this.schemaOf == schemaOf && tables == map[]
    {
      this.schemaOf := schemaOf;
      tables := map[];
    }

    method Run(m: Model, op: Operation, a: Args) returns (out: Outcome)
      modifies this
      ensures Answer(TableOf(tables, m), out) == Query(schemaOf(m), op, a, old(TableOf(tables, m)))
      ensures tables == Put(old(tables), m, TableOf(tables, m))
      ensures forall n | n != m :: TableOf(tables, n) == old(TableOf(tables, n))
    {
      var answer := Query(schemaOf(m), op, a, TableOf(tables, m));
      tables := Put(tables, m, answer.table);
      out := answer.out;
    }
  }

  class ScopedClient {
    const base: Database
    const organizationId: Option<string>

    constructor (base: Database, organizationId: Option<string>)
      ensures this.base == base && this.organizationId == organizationId
    {
      this.base := base;
      this.organizationId := organizationId;
    }

    method AllOperations(m: Model, op: Operation, a: Args) returns (out: Outcome)
      modifies base
      ensures Answer(TableOf(base.tables, m), out)
           == Step(base.schemaOf(m), m, op, a, organizationId, old(TableOf(base.tables, m)))
      ensures base.tables == Put(old(base.tables), m, TableOf(base.tables, m))
      ensures forall n | n != m :: TableOf(base.tables, n) == old(TableOf(base.tables, n))
    {
      var plan := DecideScope(m, op, a, organizationId);
      match plan {
        case Passthrough => out := base.Run(m, op, a);
        case Refuse => out := Failed(MissingTenantContext);
        case Run(args) => out := base.Run(m, op, args);
        case RunAndCheck(args, field, expected, throws, strip) =>
          QueryKeepsOnLookup(base.schemaOf(m), op, args, TableOf(base.tables, m));
          QueryKeepsOnLookup(base.schemaOf(m), op, MissArgs(), TableOf(base.tables, m));
          out := base.Run(m, op, args);
          if !out.Found? || out.row.None? {
            return;
          }
          var row := out.row.value;
          if Owns(field, expected, row) {
            if strip {
              row := row - {field};
            }
            out := Found(Some(row));
          } else if throws {
            out := base.Run(m, op, MissArgs());
          } else {
            out := Found(None);
          }
      }
    }
  }

  lemma QueryKeepsOnLookup(s: Schema, op: Operation, a: Args, table: seq<Row>)
    requires op.FindUnique? || op.FindUniqueOrThrow?
    ensures Query(s, op, a, table).table == table
  {
  }
}
