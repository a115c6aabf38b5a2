/** The structural diff of two parsed JSON documents, and which differences break a client. */
module JsonDiff {
  import opened Wrappers
  import opened JsText

  predicate InNumeral(c: char) {
    '0' <= c <= '9' || c == '-' || c == '+' || c == '.' || c == 'e'
  }

  /** How the runtime prints a finite number: its shortest decimal form. */
  type Numeral = s: string
    | s != "" && (s[0] == '-' || '0' <= s[0] <= '9') && forall i | 0 <= i < |s| :: InNumeral(s[i]) witness "0"

  /**
   * A value as the source meets it. `Overflow` is a numeral too large for a double, which reads as an infinity.
   * `Function` and `Prototype` occur in no document: they are what a record inherits under some names.
   */
  datatype Json =
    | Null
    | Bool(value: bool)
    | Num(numeral: Numeral)
    | Overflow
    | Str(text: string)
    | Arr(items: seq<Json>)
    | Obj(fields: seq<Field>)
    | Function
    | Prototype
  {
    predicate IsRecord() { Obj? || Prototype? }
  }

  datatype Field = Field(key: string, value: Json)

  function Size(j: Json): (n: nat)
    ensures n >= 1
  {
    match j
    case Arr(items) => 1 + SizeOfItems(items)
    case Obj(fields) => 1 + SizeOfFields(fields)
    case _ => 1
  }

  function SizeOfItems(items: seq<Json>): nat {
    if items == [] then 0 else Size(items[0]) + SizeOfItems(items[1..])
  }

  function SizeOfFields(fields: seq<Field>): nat {
    if fields == [] then 0 else Size(fields[0].value) + SizeOfFields(fields[1..])
  }

  lemma {:induction false} ItemsAreSmaller(items: seq<Json>, i: nat)
    requires i < |items|
    ensures Size(items[i]) <= SizeOfItems(items)
  {
    if i > 0 { ItemsAreSmaller(items[1..], i - 1); }
  }

  function Item(j: Json, i: nat): (v: Json)
    requires j.Arr? && i < |j.items|
    ensures v == j.items[i] && Size(v) < Size(j)
  {
    ItemsAreSmaller(j.items, i);
    j.items[i]
  }

  // ----- members of a record --------------------------------------------------------------

  /** The names every record inherits. */
  const INHERITED_FUNCTIONS := {
    "constructor", "hasOwnProperty", "isPrototypeOf", "propertyIsEnumerable", "toLocaleString", "toString", "valueOf",
    "__defineGetter__", "__defineSetter__", "__lookupGetter__", "__lookupSetter__"
  }

  const PROTO := "__proto__"

  predicate IsInherited(key: string) { key == PROTO || key in INHERITED_FUNCTIONS }

  function Names(fields: seq<Field>): seq<string> {
    seq(|fields|, i requires 0 <= i < |fields| => fields[i].key)
  }

  /** `Object.keys`. */
  function OwnKeys(j: Json): seq<string>
    requires j.IsRecord()
  {
    if j.Obj? then Names(j.fields) else []
  }

  function Find(fields: seq<Field>, key: string): (m: Option<Json>)
    ensures m.Some? <==> key in Names(fields)
    ensures m.Some? ==> Size(m.value) <= SizeOfFields(fields)
  {
    if fields == [] then None
    else if fields[0].key == key then assert Names(fields)[0] == key; Some(fields[0].value)
    else
      assert Names(fields) == [fields[0].key] + Names(fields[1..]);
      Find(fields[1..], key)
  }

  /** What `key in record` and `record[key]` see: an own member, else an inherited one. */
  function Member(j: Json, key: string): (m: Option<Json>)
    requires j.IsRecord()
    ensures key in OwnKeys(j) ==> m.Some? && Size(m.value) < Size(j)
    ensures m.Some? ==> Size(m.value) <= Size(j)
    ensures m.Some? <==> key in OwnKeys(j) || IsInherited(key)
  {
    var own := if j.Obj? then Find(j.fields, key) else None;
    if own.Some? then own
    else if key == PROTO then Some(if j.Prototype? then Null else Prototype)
    else if key in INHERITED_FUNCTIONS then Some(Function)
    else None
  }

  // ----- printing -------------------------------------------------------------------------

  function Escape(c: char): string {
    if c == '"' then "\\\"" else if c == '\\' then "\\\\"
    else if c == '\U{8}' then "\\b" else if c == '\U{C}' then "\\f"
    else if c == '\n' then "\\n" else if c == '\r' then "\\r" else if c == '\t' then "\\t"
    else if c < ' ' then "\\u00" + [HexChar(c as int / 16), HexChar(c as int % 16)]
    else [c]
  }

  function EscapeAll(s: string): string {
    if s == "" then "" else Escape(s[0]) + EscapeAll(s[1..])
  }

  function Quote(s: string): string { "\"" + EscapeAll(s) + "\"" }

  /** The text `JSON.stringify` prints, or "undefined". */
  function Render(j: Json): string {
    match j
    case Null => "null"
    case Bool(value) => if value then "true" else "false"
    case Num(numeral) => numeral
    case Overflow => "null"
    case Str(text) => Quote(text)
    case Arr(items) => "[" + RenderItems(items) + "]"
    case Obj(fields) => "{" + RenderFields(fields) + "}"
    case Function => "undefined"
    case Prototype => "{}"
  }

  function RenderItems(items: seq<Json>): string {
    if items == [] then ""
    else if |items| == 1 then Render(items[0])
    else Render(items[0]) + "," + RenderItems(items[1..])
  }

  function RenderFields(fields: seq<Field>): string {
    if fields == [] then ""
    else
      var first := Quote(fields[0].key) + ":" + Render(fields[0].value);
      if |fields| == 1 then first else first + "," + RenderFields(fields[1..])
  }

  function Decimal(n: nat): string {
    if n < 10 then [('0' as int + n) as char] else Decimal(n / 10) + [('0' as int + n % 10) as char]
  }

  // ----- sorted union of keys -------------------------------------------------------------

  /** Where a character sorts by UTF-16 code units: surrogate pairs come before U+E000. */
  function Rank(c: char): nat {
    var n := c as int;
    if n >= 0x1_0000 then n - 0x1_0000 + 0xD800 else if n >= 0xE000 then n + 0x10_0000 else n
  }

  predicate Less(a: string, b: string) {
    b != "" && (a == "" || Rank(a[0]) < Rank(b[0]) || (a[0] == b[0] && Less(a[1..], b[1..])))
  }

  function Insert(key: string, keys: seq<string>): seq<string> {
    if keys == [] then [key]
    else if key == keys[0] then keys
    else if Less(key, keys[0]) then [key] + keys
    else [keys[0]] + Insert(key, keys[1..])
  }

  /** The distinct keys, sorted. */
  function SortedKeys(keys: seq<string>): seq<string> {
    if keys == [] then [] else Insert(keys[0], SortedKeys(keys[1..]))
  }

  ghost predicate Increasing(keys: seq<string>) {
    forall i, j | 0 <= i < j < |keys| :: Less(keys[i], keys[j])
  }

  lemma {:induction false} LessIsTotal(a: string, b: string)
    ensures a == b || Less(a, b) || Less(b, a)
    ensures !Less(a, a)
  {
    if a != "" {
      LessIsTotal(a[1..], a[1..]);
      if b != "" && a[0] == b[0] {
        LessIsTotal(a[1..], b[1..]);
        assert a == [a[0]] + a[1..] && b == [b[0]] + b[1..];
      }
    }
  }

  lemma {:induction false} LessIsTransitive(a: string, b: string, c: string)
    requires Less(a, b) && Less(b, c)
    ensures Less(a, c)
  {
    if a != "" && a[0] == b[0] && b[0] == c[0] { LessIsTransitive(a[1..], b[1..], c[1..]); }
  }

  lemma {:induction false} InsertKeepsOrder(key: string, keys: seq<string>)
    requires Increasing(keys)
    ensures Increasing(Insert(key, keys))
    ensures forall k :: k in Insert(key, keys) <==> k == key || k in keys
  {
    if keys != [] && key != keys[0] {
      var rest := keys[1..];
      assert keys == [keys[0]] + rest;
      LessIsTotal(key, keys[0]);
      if Less(key, keys[0]) {
        forall i | 0 < i < |keys| ensures Less(key, keys[i]) { LessIsTransitive(key, keys[0], keys[i]); }
      } else {
        InsertKeepsOrder(key, rest);
        var more := Insert(key, rest);
        forall i | 0 <= i < |more| ensures Less(keys[0], more[i]) {
          assert more[i] in more;
          if more[i] in rest { var j :| 0 <= j < |rest| && rest[j] == more[i]; assert keys[j + 1] == more[i]; }
        }
      }
    }
  }

  lemma {:induction false} SortedKeysSort(keys: seq<string>)
    ensures Increasing(SortedKeys(keys))
    ensures forall k :: k in SortedKeys(keys) <==> k in keys
  {
    if keys != [] {
      SortedKeysSort(keys[1..]);
      InsertKeepsOrder(keys[0], SortedKeys(keys[1..]));
      assert keys == [keys[0]] + keys[1..];
    }
  }

  /** A set of keys has one increasing list. */
  lemma {:induction false} IncreasingIsUnique(xs: seq<string>, ys: seq<string>)
    requires Increasing(xs) && Increasing(ys)
    requires forall k :: k in xs <==> k in ys
    ensures xs == ys
  {
    assert ys != [] ==> ys[0] in ys;
    if xs != [] {
      assert xs[0] in xs;
      FirstIsLeast(xs, ys);
      FirstIsLeast(ys, xs);
      LessIsTotal(xs[0], ys[0]);
      if Less(xs[0], ys[0]) && Less(ys[0], xs[0]) { LessIsTransitive(xs[0], ys[0], xs[0]); }
      TailLosesFirst(xs);
      TailLosesFirst(ys);
      IncreasingIsUnique(xs[1..], ys[1..]);
      assert xs == [xs[0]] + xs[1..] && ys == [ys[0]] + ys[1..];
    }
  }

  lemma FirstIsLeast(xs: seq<string>, ys: seq<string>)
    requires Increasing(xs) && xs != [] && ys != []
    requires forall k :: k in ys ==> k in xs
    ensures xs[0] == ys[0] || Less(xs[0], ys[0])
  {
    assert ys[0] in ys;
    var i :| 0 <= i < |xs| && xs[i] == ys[0];
  }

  lemma TailLosesFirst(xs: seq<string>)
    requires Increasing(xs) && xs != []
    ensures Increasing(xs[1..])
    ensures forall k :: k in xs[1..] <==> k in xs && k != xs[0]
  {
    assert xs == [xs[0]] + xs[1..];
    LessIsTotal(xs[0], xs[0]);
    forall i | 0 < i < |xs| ensures xs[i] != xs[0] { assert Less(xs[0], xs[i]); }
  }

  // ----- the diff -------------------------------------------------------------------------

  datatype Difference =
    | Added(path: string, generated: string)
    | Removed(path: string, committed: string)
    | Changed(path: string, committed: string, generated: string)

  function KeyPath(path: string, key: string): string {
    if path == "" then key else path + "." + key
  }

  function IndexPath(path: string, i: nat): string {
    path + "[" + Decimal(i) + "]"
  }

  function BothKeys(a: Json, b: Json): seq<string>
    requires a.IsRecord() && b.IsRecord()
  {
    SortedKeys(OwnKeys(a) + OwnKeys(b))
  }

  function Diff(a: Json, b: Json, path: string): seq<Difference>
    decreases Size(a) + Size(b), 2, 0
  {
    if a.IsRecord() && b.IsRecord() then
      SortedKeysSort(OwnKeys(a) + OwnKeys(b));
      DiffKeys(a, b, path, BothKeys(a, b))
    else if a.Arr? && b.Arr? then DiffItems(a, b, path, 0)
    else if Render(a) == Render(b) then []
    else [Changed(if path == "" then "(document)" else path, Render(a), Render(b))]
  }

  function DiffKeys(a: Json, b: Json, path: string, keys: seq<string>): seq<Difference>
    requires a.IsRecord() && b.IsRecord()
    requires forall k | k in keys :: k in OwnKeys(a) || k in OwnKeys(b)
    decreases Size(a) + Size(b), 1, |keys|
  {
    if keys == [] then [] else DiffKey(a, b, path, keys[0]) + DiffKeys(a, b, path, keys[1..])
  }

  function DiffKey(a: Json, b: Json, path: string, key: string): seq<Difference>
    requires a.IsRecord() && b.IsRecord()
    requires key in OwnKeys(a) || key in OwnKeys(b)
    decreases Size(a) + Size(b), 0, 0
  {
    var x, y, child := Member(a, key), Member(b, key), KeyPath(path, key);
    if x.None? then [Added(child, Render(y.value))]
    else if y.None? then [Removed(child, Render(x.value))]
    else Diff(x.value, y.value, child)
  }

  function DiffItems(a: Json, b: Json, path: string, i: nat): seq<Difference>
    requires a.Arr? && b.Arr?
    decreases Size(a) + Size(b), 1, |a.items| + |b.items| - i
  {
    if i >= |a.items| && i >= |b.items| then [] else DiffItem(a, b, path, i) + DiffItems(a, b, path, i + 1)
  }

  function DiffItem(a: Json, b: Json, path: string, i: nat): seq<Difference>
    requires a.Arr? && b.Arr? && (i < |a.items| || i < |b.items|)
    decreases Size(a) + Size(b), 0, 0
  {
    var child := IndexPath(path, i);
    if i >= |a.items| then [Added(child, Render(b.items[i]))]
    else if i >= |b.items| then [Removed(child, Render(a.items[i]))]
    else Diff(Item(a, i), Item(b, i), child)
  }

  /** Free prose: anything under `info`, and any member called `description` or `summary`. */
  predicate IsProseOnlyPath(path: string) {
    || "info." <= path || path == "info"
    || var parts := Split(path, '.'); parts[|parts| - 1] == "description" || parts[|parts| - 1] == "summary"
  }

  predicate IsBreaking(d: Difference) {
    !d.Added? && !IsProseOnlyPath(d.path)
  }

  predicate HasBreakingDifference(ds: seq<Difference>) {
    exists i | 0 <= i < |ds| :: IsBreaking(ds[i])
  }

  // ----- printed leaves are distinct ------------------------------------------------------

  lemma EscapeIsPrefixFree(c: char, x: string, d: char, y: string)
    requires Escape(c) + x == Escape(d) + y
    ensures c == d && x == y
  {
    var s, t := Escape(c) + x, Escape(d) + y;
    assert s[0] == Escape(c)[0] && t[0] == Escape(d)[0];
    if s[0] == '\\' {
      assert s[1] == Escape(c)[1] && t[1] == Escape(d)[1];
      if s[1] == 'u' { ControlsDiffer(c, x, d, y); }
    }
    assert x == s[|Escape(c)|..] && y == t[|Escape(d)|..];
  }

  lemma ControlsDiffer(c: char, x: string, d: char, y: string)
    requires |Escape(c)| == 6 && |Escape(d)| == 6 && Escape(c) + x == Escape(d) + y
    ensures c == d
  {
    var s, t := Escape(c) + x, Escape(d) + y;
    assert s[4] == Escape(c)[4] && t[4] == Escape(d)[4];
    assert s[5] == Escape(c)[5] && t[5] == Escape(d)[5];
    assert c as int == 16 * (c as int / 16) + c as int % 16 && d as int == 16 * (d as int / 16) + d as int % 16;
  }

  lemma {:induction false} QuoteIsInjective(a: string, b: string)
    requires EscapeAll(a) == EscapeAll(b)
    ensures a == b
  {
    assert a != "" ==> EscapeAll(a) != "";
    assert b != "" ==> EscapeAll(b) != "";
    if a != "" {
      EscapeIsPrefixFree(a[0], EscapeAll(a[1..]), b[0], EscapeAll(b[1..]));
      QuoteIsInjective(a[1..], b[1..]);
      assert a == [a[0]] + a[1..] && b == [b[0]] + b[1..];
    }
  }

  /** What printing forgets of a leaf: an overflowing numeral prints as null. */
  function Plain(j: Json): Json {
    if j.Overflow? then Null else j
  }

  /** Unless both are records or both are arrays, equal text means equal values. */
  lemma RenderDecides(a: Json, b: Json)
    requires !(a.IsRecord() && b.IsRecord()) && !(a.Arr? && b.Arr?)
    ensures Render(a) == Render(b) <==> Plain(a) == Plain(b)
  {
    assert Render(a) == Render(b) ==> Render(a)[0] == Render(b)[0];
    if a.Str? && b.Str? { QuotedDiffer(a.text, b.text); }
  }

  lemma QuotedDiffer(a: string, b: string)
    ensures Quote(a) == Quote(b) ==> a == b
  {
    assert Quote(a)[1..|Quote(a)| - 1] == EscapeAll(a) && Quote(b)[1..|Quote(b)| - 1] == EscapeAll(b);
    if Quote(a) == Quote(b) { QuoteIsInjective(a, b); }
  }

  // ----- an empty diff means the same document --------------------------------------------

  /** Agreement where the source looks: members by `in`, items by index, leaves as printed. */
  ghost predicate Agree(a: Json, b: Json)
    decreases Size(a) + Size(b)
  {
    if a.IsRecord() && b.IsRecord() then
      forall k | k in OwnKeys(a) || k in OwnKeys(b) ::
        Member(a, k).Some? && Member(b, k).Some? && Agree(Member(a, k).value, Member(b, k).value)
    else if a.Arr? && b.Arr? then
      |a.items| == |b.items| && forall i | 0 <= i < |a.items| :: Agree(Item(a, i), Item(b, i))
    else Plain(a) == Plain(b)
  }

  /** Equality up to the order of keys, and to overflowing numerals counting as null. */
  ghost predicate Equal(a: Json, b: Json)
    decreases Size(a) + Size(b)
  {
    if a.Obj? && b.Obj? then
      && (forall k :: k in Names(a.fields) <==> k in Names(b.fields))
      && forall k | k in Names(a.fields) && k in Names(b.fields) ::
           Equal(Find(a.fields, k).value, Find(b.fields, k).value)
    else if a.Arr? && b.Arr? then
      |a.items| == |b.items| && forall i | 0 <= i < |a.items| :: Equal(Item(a, i), Item(b, i))
    else Plain(a) == Plain(b)
  }

  /** A parsed document no record of which has an own key `__proto__`. */
  ghost predicate IsDocument(j: Json)
    decreases Size(j)
  {
    && !j.Function? && !j.Prototype?
    && (j.Obj? ==> forall k | k in Names(j.fields) :: k != PROTO && IsDocument(Find(j.fields, k).value))
    && (j.Arr? ==> forall i | 0 <= i < |j.items| :: IsDocument(Item(j, i)))
  }

  lemma {:induction false} DiffIsEmptyIffAgree(a: Json, b: Json, path: string)
    ensures Diff(a, b, path) == [] <==> Agree(a, b)
    decreases Size(a) + Size(b), 2, 0
  {
    if a.IsRecord() && b.IsRecord() {
      SortedKeysSort(OwnKeys(a) + OwnKeys(b));
      NoKeyDiffers(a, b, path, BothKeys(a, b));
      RecordAgrees(a, b);
      assert Diff(a, b, path) == DiffKeys(a, b, path, BothKeys(a, b));
    } else if a.Arr? && b.Arr? {
      NoItemDiffers(a, b, path, 0);
    } else {
      RenderDecides(a, b);
    }
  }

  ghost predicate KeyAgrees(a: Json, b: Json, k: string)
    requires a.IsRecord() && b.IsRecord()
  {
    Member(a, k).Some? && Member(b, k).Some? && Agree(Member(a, k).value, Member(b, k).value)
  }

  ghost predicate KeysAgree(a: Json, b: Json, keys: seq<string>)
    requires a.IsRecord() && b.IsRecord()
  {
    forall k | k in keys :: KeyAgrees(a, b, k)
  }

  lemma RecordAgrees(a: Json, b: Json)
    requires a.IsRecord() && b.IsRecord()
    ensures Agree(a, b) <==> KeysAgree(a, b, BothKeys(a, b))
  {
    SortedKeysSort(OwnKeys(a) + OwnKeys(b));
    assert forall k :: k in BothKeys(a, b) <==> k in OwnKeys(a) || k in OwnKeys(b);
    if KeysAgree(a, b, BothKeys(a, b)) {
      assert forall k {:trigger Member(a, k)} {:trigger Member(b, k)}
        | k in OwnKeys(a) || k in OwnKeys(b) :: KeyAgrees(a, b, k);
    }
  }

  lemma FirstKeyAgrees(a: Json, b: Json, keys: seq<string>)
    requires a.IsRecord() && b.IsRecord() && keys != []
    ensures KeysAgree(a, b, keys) <==> KeyAgrees(a, b, keys[0]) && KeysAgree(a, b, keys[1..])
  {
    assert keys == [keys[0]] + keys[1..];
    assert forall k :: k in keys <==> k == keys[0] || k in keys[1..];
  }

  lemma {:induction false} NoKeyDiffers(a: Json, b: Json, path: string, keys: seq<string>)
    requires a.IsRecord() && b.IsRecord()
    requires forall k | k in keys :: k in OwnKeys(a) || k in OwnKeys(b)
    ensures DiffKeys(a, b, path, keys) == [] <==> KeysAgree(a, b, keys)
    decreases Size(a) + Size(b), 1, |keys|
  {
    if keys != [] {
      NoKeyDiffers(a, b, path, keys[1..]);
      FirstKeyAgrees(a, b, keys);
      var x, y := Member(a, keys[0]), Member(b, keys[0]);
      if x.Some? && y.Some? { DiffIsEmptyIffAgree(x.value, y.value, KeyPath(path, keys[0])); }
    }
  }

  ghost predicate ItemsAgree(a: Json, b: Json, i: nat)
    requires a.Arr? && b.Arr?
  {
    forall k | i <= k < |a.items| && k < |b.items| :: Agree(Item(a, k), Item(b, k))
  }

  lemma ItemsAgreeNext(a: Json, b: Json, i: nat)
    requires a.Arr? && b.Arr? && i < |a.items| && i < |b.items|
    ensures ItemsAgree(a, b, i) <==> Agree(Item(a, i), Item(b, i)) && ItemsAgree(a, b, i + 1)
  {
  }

  lemma {:induction false} NoItemDiffers(a: Json, b: Json, path: string, i: nat)
    requires a.Arr? && b.Arr?
    ensures DiffItems(a, b, path, i) == []
      <==> (|a.items| == |b.items| || (i >= |a.items| && i >= |b.items|)) && ItemsAgree(a, b, i)
    decreases Size(a) + Size(b), 1, |a.items| + |b.items| - i
  {
    if i < |a.items| || i < |b.items| {
      NoItemDiffers(a, b, path, i + 1);
      if i < |a.items| && i < |b.items| {
        DiffIsEmptyIffAgree(Item(a, i), Item(b, i), IndexPath(path, i));
        ItemsAgreeNext(a, b, i);
      }
    }
  }

  lemma {:induction false} EqualDocumentsAgree(a: Json, b: Json)
    requires IsDocument(a) && IsDocument(b)
    ensures Agree(a, b) <==> Equal(a, b)
    decreases Size(a) + Size(b)
  {
    if a.Obj? && b.Obj? {
      forall k | k in Names(a.fields) && k in Names(b.fields)
        ensures Agree(Member(a, k).value, Member(b, k).value)
          <==> Equal(Find(a.fields, k).value, Find(b.fields, k).value)
      {
        EqualDocumentsAgree(Find(a.fields, k).value, Find(b.fields, k).value);
      }
      forall k | Agree(a, b) && (k in Names(a.fields) || k in Names(b.fields))
        ensures k in Names(a.fields) && k in Names(b.fields)
      {
        assert Agree(Member(a, k).value, Member(b, k).value);
      }
    } else if a.Arr? && b.Arr? && |a.items| == |b.items| {
      forall i | 0 <= i < |a.items| ensures Agree(Item(a, i), Item(b, i)) <==> Equal(Item(a, i), Item(b, i)) {
        EqualDocumentsAgree(Item(a, i), Item(b, i));
      }
    }
  }

  /** The diff is empty exactly when the documents are equal up to key order, an overflowing
      numeral counting as null. */
  lemma DiffIsEmptyIffEqual(a: Json, b: Json)
    requires IsDocument(a) && IsDocument(b)
    ensures Diff(a, b, "") == [] <==> Equal(a, b)
  {
    DiffIsEmptyIffAgree(a, b, "");
    EqualDocumentsAgree(a, b);
  }

  /** So a numeral too large for a double passes for null. */
  lemma OverflowPassesForNull(path: string)
    ensures Diff(Overflow, Null, path) == [] && Overflow != Null
  {
    DiffIsEmptyIffAgree(Overflow, Null, path);
  }

  // ----- every difference is a real one ---------------------------------------------------

  datatype Turn = Key(key: string) | Index(i: nat)

  /** The value at a position, if there is one. */
  function Follow(j: Json, turns: seq<Turn>): Option<Json>
    decreases |turns|
  {
    if turns == [] then Some(j)
    else match turns[0]
      case Key(key) => if j.IsRecord() && Member(j, key).Some? then Follow(Member(j, key).value, turns[1..]) else None
      case Index(i) => if j.Arr? && i < |j.items| then Follow(j.items[i], turns[1..]) else None
  }

  function PathOf(base: string, turns: seq<Turn>): string
    decreases |turns|
  {
    if turns == [] then base
    else match turns[0]
      case Key(key) => PathOf(KeyPath(base, key), turns[1..])
      case Index(i) => PathOf(IndexPath(base, i), turns[1..])
  }

  /** What a difference says is so at that position: present on one side only, or printed
      differently, with the text of each side. */
  ghost predicate Reports(a: Json, b: Json, base: string, turns: seq<Turn>, d: Difference) {
    var x, y, p := Follow(a, turns), Follow(b, turns), PathOf(base, turns);
    match d
    case Added(path, generated) => path == p && x.None? && y.Some? && generated == Render(y.value)
    case Removed(path, committed) => path == p && x.Some? && y.None? && committed == Render(x.value)
    case Changed(path, committed, generated) =>
      && path == (if p == "" then "(document)" else p)
      && x.Some? && y.Some? && committed == Render(x.value) && generated == Render(y.value) && committed != generated
  }

  /** Every difference names a position where the documents differ, and quotes both sides. */
  lemma {:induction false} DifferencesAreReal(a: Json, b: Json, base: string, d: Difference) returns (turns: seq<Turn>)
    requires d in Diff(a, b, base)
    ensures Reports(a, b, base, turns, d)
    decreases Size(a) + Size(b), 2, 0
  {
    if a.IsRecord() && b.IsRecord() {
      SortedKeysSort(OwnKeys(a) + OwnKeys(b));
      turns := KeyDifferencesAreReal(a, b, base, BothKeys(a, b), d);
    } else if a.Arr? && b.Arr? {
      turns := ItemDifferencesAreReal(a, b, base, 0, d);
    } else {
      turns := [];
    }
  }

  lemma {:induction false} KeyDifferencesAreReal(a: Json, b: Json, base: string, keys: seq<string>, d: Difference)
    returns (turns: seq<Turn>)
    requires a.IsRecord() && b.IsRecord()
    requires forall k | k in keys :: k in OwnKeys(a) || k in OwnKeys(b)
    requires d in DiffKeys(a, b, base, keys)
    ensures Reports(a, b, base, turns, d)
    decreases Size(a) + Size(b), 1, |keys|
  {
    if d in DiffKey(a, b, base, keys[0]) {
      turns := OneKeyIsReal(a, b, base, keys[0], d);
    } else {
      turns := KeyDifferencesAreReal(a, b, base, keys[1..], d);
    }
  }

  lemma {:induction false} OneKeyIsReal(a: Json, b: Json, base: string, key: string,
                                        d: Difference) returns (turns: seq<Turn>)
    requires a.IsRecord() && b.IsRecord() && (key in OwnKeys(a) || key in OwnKeys(b))
    requires d in DiffKey(a, b, base, key)
    ensures Reports(a, b, base, turns, d)
    decreases Size(a) + Size(b), 0, 0
  {
    var x, y, rest := Member(a, key), Member(b, key), [];
    if x.Some? && y.Some? { rest := DifferencesAreReal(x.value, y.value, KeyPath(base, key), d); }
    turns := [Key(key)] + rest;
    assert turns[1..] == rest;
  }

  lemma {:induction false} ItemDifferencesAreReal(a: Json, b: Json, base: string, i: nat, d: Difference)
    returns (turns: seq<Turn>)
    requires a.Arr? && b.Arr? && d in DiffItems(a, b, base, i)
    ensures Reports(a, b, base, turns, d)
    decreases Size(a) + Size(b), 1, |a.items| + |b.items| - i
  {
    if d in DiffItem(a, b, base, i) {
      turns := OneItemIsReal(a, b, base, i, d);
    } else {
      turns := ItemDifferencesAreReal(a, b, base, i + 1, d);
    }
  }

  lemma {:induction false} OneItemIsReal(a: Json, b: Json, base: string, i: nat,
                                         d: Difference) returns (turns: seq<Turn>)
    requires a.Arr? && b.Arr? && (i < |a.items| || i < |b.items|)
    requires d in DiffItem(a, b, base, i)
    ensures Reports(a, b, base, turns, d)
    decreases Size(a) + Size(b), 0, 0
  {
    var rest := [];
    if i < |a.items| && i < |b.items| { rest := DifferencesAreReal(Item(a, i), Item(b, i), IndexPath(base, i), d); }
    turns := [Index(i)] + rest;
    assert turns[1..] == rest;
  }

  // ----- swapping the documents -----------------------------------------------------------

  function Mirror(d: Difference): Difference {
    match d
    case Added(path, generated) => Removed(path, generated)
    case Removed(path, committed) => Added(path, committed)
    case Changed(path, committed, generated) => Changed(path, generated, committed)
  }

  function MirrorAll(ds: seq<Difference>): seq<Difference> {
    seq(|ds|, i requires 0 <= i < |ds| => Mirror(ds[i]))
  }

  lemma BothKeysCommute(a: Json, b: Json)
    requires a.IsRecord() && b.IsRecord()
    ensures BothKeys(a, b) == BothKeys(b, a)
  {
    SortedKeysSort(OwnKeys(a) + OwnKeys(b));
    SortedKeysSort(OwnKeys(b) + OwnKeys(a));
    IncreasingIsUnique(BothKeys(a, b), BothKeys(b, a));
  }

  /** Swapping the documents swaps added with removed, and the sides of a change, in the same order. */
  lemma {:induction false} SwapMirrors(a: Json, b: Json, path: string)
    ensures Diff(b, a, path) == MirrorAll(Diff(a, b, path))
    decreases Size(a) + Size(b), 2, 0
  {
    if a.IsRecord() && b.IsRecord() {
      SortedKeysSort(OwnKeys(a) + OwnKeys(b));
      BothKeysCommute(a, b);
      KeysMirror(a, b, path, BothKeys(a, b));
    } else if a.Arr? && b.Arr? {
      ItemsMirror(a, b, path, 0);
    }
  }

  lemma {:induction false} KeysMirror(a: Json, b: Json, path: string, keys: seq<string>)
    requires a.IsRecord() && b.IsRecord()
    requires forall k | k in keys :: k in OwnKeys(a) || k in OwnKeys(b)
    ensures DiffKeys(b, a, path, keys) == MirrorAll(DiffKeys(a, b, path, keys))
    decreases Size(a) + Size(b), 1, |keys|
  {
    if keys != [] {
      KeyMirrors(a, b, path, keys[0]);
      KeysMirror(a, b, path, keys[1..]);
      MirrorAppends(DiffKey(a, b, path, keys[0]), DiffKeys(a, b, path, keys[1..]));
    }
  }

  lemma {:induction false} KeyMirrors(a: Json, b: Json, path: string, key: string)
    requires a.IsRecord() && b.IsRecord()
    requires key in OwnKeys(a) || key in OwnKeys(b)
    ensures DiffKey(b, a, path, key) == MirrorAll(DiffKey(a, b, path, key))
    decreases Size(a) + Size(b), 0, 0
  {
    var x, y := Member(a, key), Member(b, key);
    if x.Some? && y.Some? { SwapMirrors(x.value, y.value, KeyPath(path, key)); }
  }

  lemma {:induction false} ItemsMirror(a: Json, b: Json, path: string, i: nat)
    requires a.Arr? && b.Arr?
    ensures DiffItems(b, a, path, i) == MirrorAll(DiffItems(a, b, path, i))
    decreases Size(a) + Size(b), 1, |a.items| + |b.items| - i
  {
    if i < |a.items| || i < |b.items| {
      if i < |a.items| && i < |b.items| { SwapMirrors(Item(a, i), Item(b, i), IndexPath(path, i)); }
      assert DiffItem(b, a, path, i) == MirrorAll(DiffItem(a, b, path, i));
      ItemsMirror(a, b, path, i + 1);
      MirrorAppends(DiffItem(a, b, path, i), DiffItems(a, b, path, i + 1));
    }
  }

  lemma MirrorAppends(xs: seq<Difference>, ys: seq<Difference>)
    ensures MirrorAll(xs + ys) == MirrorAll(xs) + MirrorAll(ys)
  {
  }

  // ----- what breaks a client -------------------------------------------------------------

  /** Every position of `a` is in `b` with the same leaf, except at prose-only paths. */
  ghost predicate Embeds(a: Json, b: Json, path: string)
    decreases Size(a) + Size(b)
  {
    if a.IsRecord() && b.IsRecord() then
      forall k | k in OwnKeys(a) || k in OwnKeys(b) ::
        var child := KeyPath(path, k);
        Member(a, k).Some? ==>
          if Member(b, k).Some? then Embeds(Member(a, k).value, Member(b, k).value, child) else IsProseOnlyPath(child)
    else if a.Arr? && b.Arr? then
      forall i | 0 <= i < |a.items| ::
        var child := IndexPath(path, i);
        if i < |b.items| then Embeds(Item(a, i), Item(b, i), child) else IsProseOnlyPath(child)
    else Plain(a) == Plain(b) || IsProseOnlyPath(path)
  }

  ghost predicate KeyEmbeds(a: Json, b: Json, path: string, k: string)
    requires a.IsRecord() && b.IsRecord() && (k in OwnKeys(a) || k in OwnKeys(b))
  {
    var child := KeyPath(path, k);
    Member(a, k).Some? ==>
      if Member(b, k).Some? then Embeds(Member(a, k).value, Member(b, k).value, child) else IsProseOnlyPath(child)
  }

  ghost predicate ItemEmbeds(a: Json, b: Json, path: string, i: nat)
    requires a.Arr? && b.Arr? && i < |a.items|
  {
    var child := IndexPath(path, i);
    if i < |b.items| then Embeds(Item(a, i), Item(b, i), child) else IsProseOnlyPath(child)
  }

  lemma RecordEmbeds(a: Json, b: Json, path: string)
    requires a.IsRecord() && b.IsRecord()
    ensures Embeds(a, b, path) <==> forall k | k in OwnKeys(a) || k in OwnKeys(b) :: KeyEmbeds(a, b, path, k)
  {
    if forall k | k in OwnKeys(a) || k in OwnKeys(b) :: KeyEmbeds(a, b, path, k) {
      assert forall k {:trigger KeyPath(path, k)} | k in OwnKeys(a) || k in OwnKeys(b) :: KeyEmbeds(a, b, path, k);
    }
  }

  lemma ArrayEmbeds(a: Json, b: Json, path: string)
    requires a.Arr? && b.Arr?
    ensures Embeds(a, b, path) <==> forall i | 0 <= i < |a.items| :: ItemEmbeds(a, b, path, i)
  {
    if forall i | 0 <= i < |a.items| :: ItemEmbeds(a, b, path, i) {
      assert forall i {:trigger IndexPath(path, i)} | 0 <= i < |a.items| :: ItemEmbeds(a, b, path, i);
    }
  }

  lemma BreakingAppends(xs: seq<Difference>, ys: seq<Difference>)
    ensures HasBreakingDifference(xs + ys) <==> HasBreakingDifference(xs) || HasBreakingDifference(ys)
  {
    if i :| 0 <= i < |xs| && IsBreaking(xs[i]) { assert IsBreaking((xs + ys)[i]); }
    if i :| 0 <= i < |ys| && IsBreaking(ys[i]) { assert IsBreaking((xs + ys)[|xs| + i]); }
  }

  lemma RootIsNotProse()
    ensures !IsProseOnlyPath("") && !IsProseOnlyPath("(document)")
  {
    SplitWithout("", '.');
    DocumentIsOnePiece();
  }

  lemma DocumentIsOnePiece()
    ensures Split("(document)", '.') == ["(document)"]
  {
    SplitWithout("(document)", '.');
  }

  /** Nothing breaks exactly when the committed document embeds into the generated one. */
  lemma {:induction false} NothingBreaksIffEmbeds(a: Json, b: Json, path: string)
    ensures !HasBreakingDifference(Diff(a, b, path)) <==> Embeds(a, b, path)
    decreases Size(a) + Size(b), 2, 0
  {
    if a.IsRecord() && b.IsRecord() {
      SortedKeysSort(OwnKeys(a) + OwnKeys(b));
      KeysEmbed(a, b, path, BothKeys(a, b));
      RecordEmbeds(a, b, path);
    } else if a.Arr? && b.Arr? {
      ItemsEmbed(a, b, path, 0);
      ArrayEmbeds(a, b, path);
    } else {
      RenderDecides(a, b);
      RootIsNotProse();
      LeafBreaks(a, b, path);
    }
  }

  lemma LeafBreaks(a: Json, b: Json, path: string)
    requires !(a.IsRecord() && b.IsRecord()) && !(a.Arr? && b.Arr?)
    requires !IsProseOnlyPath("") && !IsProseOnlyPath("(document)")
    ensures HasBreakingDifference(Diff(a, b, path)) <==> Render(a) != Render(b) && !IsProseOnlyPath(path)
  {
    var ds := Diff(a, b, path);
    assert ds != [] ==> (HasBreakingDifference(ds) <==> IsBreaking(ds[0]));
  }

  lemma {:induction false} KeysEmbed(a: Json, b: Json, path: string, keys: seq<string>)
    requires a.IsRecord() && b.IsRecord()
    requires forall k | k in keys :: k in OwnKeys(a) || k in OwnKeys(b)
    ensures !HasBreakingDifference(DiffKeys(a, b, path, keys)) <==> AllKeysEmbed(a, b, path, keys)
    decreases Size(a) + Size(b), 1, |keys|
  {
    if keys != [] {
      KeysEmbed(a, b, path, keys[1..]);
      KeyBreaksUnlessEmbeds(a, b, path, keys[0]);
      BreakingAppends(DiffKey(a, b, path, keys[0]), DiffKeys(a, b, path, keys[1..]));
      FirstKeyEmbeds(a, b, path, keys);
    }
  }

  ghost predicate AllKeysEmbed(a: Json, b: Json, path: string, keys: seq<string>)
    requires a.IsRecord() && b.IsRecord()
    requires forall k | k in keys :: k in OwnKeys(a) || k in OwnKeys(b)
  {
    forall k | k in keys :: KeyEmbeds(a, b, path, k)
  }

  lemma FirstKeyEmbeds(a: Json, b: Json, path: string, keys: seq<string>)
    requires a.IsRecord() && b.IsRecord() && keys != []
    requires forall k | k in keys :: k in OwnKeys(a) || k in OwnKeys(b)
    ensures AllKeysEmbed(a, b, path, keys) <==> KeyEmbeds(a, b, path, keys[0]) && AllKeysEmbed(a, b, path, keys[1..])
  {
    assert keys == [keys[0]] + keys[1..];
    assert forall k :: k in keys <==> k == keys[0] || k in keys[1..];
  }

  lemma {:induction false} KeyBreaksUnlessEmbeds(a: Json, b: Json, path: string, key: string)
    requires a.IsRecord() && b.IsRecord() && (key in OwnKeys(a) || key in OwnKeys(b))
    ensures !HasBreakingDifference(DiffKey(a, b, path, key)) <==> KeyEmbeds(a, b, path, key)
    decreases Size(a) + Size(b), 0, 0
  {
    var x, y := Member(a, key), Member(b, key);
    if x.Some? && y.Some? {
      NothingBreaksIffEmbeds(x.value, y.value, KeyPath(path, key));
    } else {
      OneBreaks(DiffKey(a, b, path, key));
    }
  }

  lemma OneBreaks(ds: seq<Difference>)
    ensures |ds| == 1 ==> (HasBreakingDifference(ds) <==> IsBreaking(ds[0]))
  {
  }

  ghost predicate ItemsFromEmbed(a: Json, b: Json, path: string, i: nat)
    requires a.Arr? && b.Arr?
  {
    forall k | i <= k < |a.items| :: ItemEmbeds(a, b, path, k)
  }

  lemma ItemsFromEmbedNext(a: Json, b: Json, path: string, i: nat)
    requires a.Arr? && b.Arr?
    ensures ItemsFromEmbed(a, b, path, i)
      <==> (i >= |a.items| || ItemEmbeds(a, b, path, i)) && ItemsFromEmbed(a, b, path, i + 1)
  {
  }

  lemma {:induction false} ItemsEmbed(a: Json, b: Json, path: string, i: nat)
    requires a.Arr? && b.Arr?
    ensures !HasBreakingDifference(DiffItems(a, b, path, i)) <==> ItemsFromEmbed(a, b, path, i)
    decreases Size(a) + Size(b), 1, |a.items| + |b.items| - i
  {
    if i < |a.items| || i < |b.items| {
      ItemsEmbed(a, b, path, i + 1);
      ItemBreaksUnlessEmbeds(a, b, path, i);
      BreakingAppends(DiffItem(a, b, path, i), DiffItems(a, b, path, i + 1));
      ItemsFromEmbedNext(a, b, path, i);
    }
  }

  lemma {:induction false} ItemBreaksUnlessEmbeds(a: Json, b: Json, path: string, i: nat)
    requires a.Arr? && b.Arr? && (i < |a.items| || i < |b.items|)
    ensures !HasBreakingDifference(DiffItem(a, b, path, i)) <==> i >= |a.items| || ItemEmbeds(a, b, path, i)
    decreases Size(a) + Size(b), 0, 0
  {
    if i < |a.items| && i < |b.items| {
      NothingBreaksIffEmbeds(Item(a, i), Item(b, i), IndexPath(path, i));
    } else {
      OneBreaks(DiffItem(a, b, path, i));
    }
  }

  lemma {:induction false} EmbedsInItself(a: Json, path: string)
    ensures Embeds(a, a, path) && Agree(a, a)
    decreases Size(a)
  {
    if a.IsRecord() {
      forall k | k in OwnKeys(a)
        ensures Embeds(Member(a, k).value, Member(a, k).value, KeyPath(path, k))
        ensures Agree(Member(a, k).value, Member(a, k).value)
      {
        EmbedsInItself(Member(a, k).value, KeyPath(path, k));
      }
    } else if a.Arr? {
      forall i | 0 <= i < |a.items|
        ensures Embeds(Item(a, i), Item(a, i), IndexPath(path, i)) && Agree(Item(a, i), Item(a, i))
      {
        EmbedsInItself(Item(a, i), IndexPath(path, i));
      }
    }
  }

  lemma {:induction false} FindWithMore(fields: seq<Field>, key: string, value: Json)
    requires key !in Names(fields)
    ensures Find(fields + [Field(key, value)], key) == Some(value)
    ensures forall k | k != key :: Find(fields + [Field(key, value)], k) == Find(fields, k)
  {
    var more := fields + [Field(key, value)];
    if fields != [] {
      assert more[1..] == fields[1..] + [Field(key, value)];
      assert Names(fields) == [fields[0].key] + Names(fields[1..]);
      FindWithMore(fields[1..], key, value);
    }
  }

  /** A new member is an addition, and never breaks a client, unless its name is one every record inherits. */
  lemma NewMemberBreaksIffInherited(fields: seq<Field>, key: string, value: Json, path: string)
    requires key !in Names(fields) && key != PROTO && !value.Function?
    ensures HasBreakingDifference(Diff(Obj(fields), Obj(fields + [Field(key, value)]), path))
      <==> key in INHERITED_FUNCTIONS && !IsProseOnlyPath(KeyPath(path, key))
  {
    var a, b := Obj(fields), Obj(fields + [Field(key, value)]);
    NothingBreaksIffEmbeds(a, b, path);
    OtherMembersAreShared(fields, key, value, path);
    RecordEmbeds(a, b, path);
    assert Embeds(a, b, path) <==> KeyEmbeds(a, b, path, key);
    assert Member(a, key).Some? ==> Embeds(Function, value, KeyPath(path, key)) == IsProseOnlyPath(KeyPath(path, key));
  }

  /** Taking a member called `description` or `summary` away breaks nobody, whatever the member means. */
  lemma ProseNamesMayGo(fields: seq<Field>, key: string, value: Json, path: string)
    requires key !in Names(fields) && key in {"description", "summary"}
    ensures !HasBreakingDifference(Diff(Obj(fields + [Field(key, value)]), Obj(fields), path))
  {
    var a, b := Obj(fields + [Field(key, value)]), Obj(fields);
    NothingBreaksIffEmbeds(a, b, path);
    OtherMembersAreShared(fields, key, value, path);
    KeyIsLeaf(path, key);
    RecordEmbeds(a, b, path);
    assert Embeds(a, b, path) <==> KeyEmbeds(a, b, path, key);
  }

  lemma {:induction false} LastPiece(s: string, key: string)
    requires '.' !in key
    ensures var parts := Split(s + "." + key, '.'); parts[|parts| - 1] == key
  {
    var all := s + "." + key;
    if s == "" {
      SplitFirst("", key, '.');
      SplitWithout(key, '.');
    } else {
      assert all[1..] == s[1..] + "." + key;
      LastPiece(s[1..], key);
      SplitsTwice(s[1..], key);
    }
  }

  lemma {:induction false} SplitsTwice(s: string, key: string)
    ensures |Split(s + "." + key, '.')| >= 2
  {
    if s != "" {
      assert (s + "." + key)[1..] == s[1..] + "." + key;
      SplitsTwice(s[1..], key);
    }
  }

  lemma KeyIsLeaf(path: string, key: string)
    requires key in {"description", "summary"}
    ensures IsProseOnlyPath(KeyPath(path, key))
  {
    if path == "" { SplitWithout(key, '.'); } else { LastPiece(path, key); }
  }

  lemma OtherMembersAreShared(fields: seq<Field>, key: string, value: Json, path: string)
    requires key !in Names(fields)
    ensures var a, b := Obj(fields), Obj(fields + [Field(key, value)]);
      && key in OwnKeys(b) && key !in OwnKeys(a) && Member(b, key) == Some(value)
      && forall k | k != key && (k in OwnKeys(a) || k in OwnKeys(b)) ::
           && k in OwnKeys(a) && k in OwnKeys(b) && KeyEmbeds(a, b, path, k) && KeyEmbeds(b, a, path, k)
           && Agree(Member(a, k).value, Member(b, k).value)
  {
    var a, b := Obj(fields), Obj(fields + [Field(key, value)]);
    FindWithMore(fields, key, value);
    forall k | k != key && (k in OwnKeys(a) || k in OwnKeys(b))
      ensures k in OwnKeys(a) && k in OwnKeys(b) && KeyEmbeds(a, b, path, k) && KeyEmbeds(b, a, path, k)
      ensures Agree(Member(a, k).value, Member(b, k).value)
    {
      assert Find(a.fields, k) == Find(b.fields, k);
      EmbedsInItself(Member(a, k).value, KeyPath(path, k));
    }
  }

  /** A `__proto__` member with no more in it than every record inherits. */
  ghost predicate Vanishes(value: Json) {
    value.Obj? && forall k | k in Names(value.fields) :: k == PROTO && Plain(Find(value.fields, k).value) == Null
  }

  /** A new `__proto__` member goes unseen exactly when it vanishes. */
  lemma ProtoMemberIsMissedIffItVanishes(fields: seq<Field>, value: Json, path: string)
    requires PROTO !in Names(fields) && !value.Prototype?
    requires value.Obj? ==> forall k | k in Names(value.fields) :: !Find(value.fields, k).value.Function?
    ensures Diff(Obj(fields), Obj(fields + [Field(PROTO, value)]), path) == [] <==> Vanishes(value)
    ensures !Equal(Obj(fields), Obj(fields + [Field(PROTO, value)]))
  {
    var a, b := Obj(fields), Obj(fields + [Field(PROTO, value)]);
    OtherMembersAreShared(fields, PROTO, value, path);
    DiffIsEmptyIffAgree(a, b, path);
    assert Member(a, PROTO) == Some(Prototype);
    assert Agree(a, b) <==> Agree(Prototype, value);
    AgreesWithPrototypeIffItVanishes(value);
  }

  lemma AgreesWithPrototypeIffItVanishes(value: Json)
    requires !value.Prototype?
    requires value.Obj? ==> forall k | k in Names(value.fields) :: !Find(value.fields, k).value.Function?
    ensures Agree(Prototype, value) <==> Vanishes(value)
  {
    if value.Obj? {
      forall k | k in Names(value.fields)
        ensures (Member(Prototype, k).Some? && Agree(Member(Prototype, k).value, Member(value, k).value))
          <==> k == PROTO && Plain(Find(value.fields, k).value) == Null
      {
      }
    }
  }

  /** So `{"__proto__": {}}` passes for `{}`. */
  lemma EmptyProtoMemberIsMissed()
    ensures Diff(Obj([]), Obj([Field(PROTO, Obj([]))]), "") == []
    ensures !Equal(Obj([]), Obj([Field(PROTO, Obj([]))]))
  {
    ProtoMemberIsMissedIffItVanishes([], Obj([]), "");
    assert [] + [Field(PROTO, Obj([]))] == [Field(PROTO, Obj([]))];
  }
}
