/** What the texts of the diff mean: prose paths, key order, numbers and printed values. */
module JsonLaws {
  import opened JsText
  import opened JsonDiff

  // ----- prose ----------------------------------------------------------------------------

  /** The path is the word, or its last member has that name. */
  predicate EndsIn(path: string, word: string) {
    || path == word
    || (|path| > |word| && path[|path| - |word|..] == word && path[|path| - |word| - 1] == '.')
  }

  lemma Regrouped(x: string, sep: char, y: string, z: string)
    ensures x + ([sep] + (y + ([sep] + z))) == (x + ([sep] + y)) + ([sep] + z)
  {
  }

  lemma {:induction false} LastPiece(s: string, sep: char) returns (a: string, b: string)
    ensures sep !in b && (s == b || s == a + ([sep] + b))
    ensures Split(s, sep)[|Split(s, sep)| - 1] == b
  {
    if sep !in s {
      a, b := "", s;
      SplitWithout(s, sep);
    } else {
      var i :| 0 <= i < |s| && s[i] == sep;
      var rest := s[i + 1..];
      assert s == s[..i] + ([sep] + rest);
      SplitAppends(s[..i], rest, sep);
      a, b := LastPiece(rest, sep);
      if rest == b {
        a := s[..i];
      } else {
        Regrouped(s[..i], sep, a, b);
        a := s[..i] + ([sep] + a);
      }
    }
  }

  lemma LastPieceIs(path: string, word: string)
    requires '.' !in word
    ensures var parts := Split(path, '.'); parts[|parts| - 1] == word <==> EndsIn(path, word)
  {
    var a, b := LastPiece(path, '.');
    if path != b { assert path[|path| - |b|..] == b && path[|path| - |b| - 1] == '.'; }
    if EndsIn(path, word) {
      if path == word {
        SplitWithout(path, '.');
      } else {
        var before := path[..|path| - |word| - 1];
        assert path == before + (['.'] + word);
        SplitAppends(before, word, '.');
        SplitWithout(word, '.');
      }
    }
  }

  /** Prose is `info`, what is under it, and members called `description` or `summary`; no other
      path is. */
  lemma ProseExactly(path: string)
    ensures IsProseOnlyPath(path) <==>
      || path == "info" || (|path| >= 5 && path[..5] == "info.")
      || EndsIn(path, "description") || EndsIn(path, "summary")
  {
    LastPieceIs(path, "description");
    LastPieceIs(path, "summary");
    assert "info." <= path <==> |path| >= 5 && path[..5] == "info.";
  }

  // ----- order ----------------------------------------------------------------------------

  /** The UTF-16 code units of a character, by section 2 of RFC 2781. */
  function Units(c: char): (u: seq<nat>)
    ensures u != []
  {
    var n := c as int;
    if n < 0x1_0000 then [n]
    else [0xD800 + (n - 0x1_0000) / 0x400, 0xDC00 + (n - 0x1_0000) % 0x400]
  }

  function Utf16(s: string): seq<nat> {
    if s == "" then [] else Units(s[0]) + Utf16(s[1..])
  }

  predicate Before(u: seq<nat>, v: seq<nat>) {
    v != [] && (u == [] || u[0] < v[0] || (u[0] == v[0] && Before(u[1..], v[1..])))
  }

  lemma {:induction false} BeforeAfterCommon(p: seq<nat>, u: seq<nat>, v: seq<nat>)
    ensures Before(p + u, p + v) <==> Before(u, v)
  {
    if p == [] {
      assert p + u == u && p + v == v;
    } else {
      assert (p + u)[1..] == p[1..] + u && (p + v)[1..] == p[1..] + v;
      BeforeAfterCommon(p[1..], u, v);
    }
  }

  lemma UnitsDecide(c: char, d: char, u: seq<nat>, v: seq<nat>)
    requires c != d
    ensures Before(Units(c) + u, Units(d) + v) <==> Rank(c) < Rank(d)
  {
    var x, y := Units(c) + u, Units(d) + v;
    assert x[0] == Units(c)[0] && y[0] == Units(d)[0];
    if x[0] == y[0] {
      assert c as int >= 0x1_0000 && d as int >= 0x1_0000;
      assert x[1..][0] == Units(c)[1] && y[1..][0] == Units(d)[1];
    }
  }

  /** Keys sort by their UTF-16 code units, as the runtime compares strings. */
  lemma {:induction false} LessIsUtf16Order(a: string, b: string)
    ensures Less(a, b) <==> Before(Utf16(a), Utf16(b))
  {
    if a != "" && b != "" {
      if a[0] == b[0] {
        LessIsUtf16Order(a[1..], b[1..]);
        BeforeAfterCommon(Units(a[0]), Utf16(a[1..]), Utf16(b[1..]));
      } else {
        UnitsDecide(a[0], b[0], Utf16(a[1..]), Utf16(b[1..]));
        RanksDiffer(a[0], b[0]);
      }
    }
  }

  lemma RanksDiffer(c: char, d: char)
    ensures Rank(c) == Rank(d) ==> c == d
  {
  }

  // ----- indices --------------------------------------------------------------------------

  function ValueOf(s: string): int {
    if s == "" then 0 else ValueOf(s[..|s| - 1]) * 10 + (s[|s| - 1] as int - '0' as int)
  }

  /** An index prints as its decimal digits, the first of them zero only for zero. */
  lemma {:induction false} DecimalReadsBack(n: nat)
    ensures ValueOf(Decimal(n)) == n
    ensures Decimal(n) != "" && forall i | 0 <= i < |Decimal(n)| :: '0' <= Decimal(n)[i] <= '9'
    ensures n > 0 ==> Decimal(n)[0] != '0'
  {
    if n < 10 {
      assert Decimal(n)[..0] == "";
    } else {
      var tens, last := Decimal(n / 10), [('0' as int + n % 10) as char];
      DecimalReadsBack(n / 10);
      assert (tens + last)[..|tens + last| - 1] == tens;
    }
  }

  // ----- paths and inherited names --------------------------------------------------------

  /** The text of a position: names after a dot, the first without; indices in brackets. */
  function TextOf(turns: seq<Turn>): string {
    if turns == [] then ""
    else
      var before, last := TextOf(turns[..|turns| - 1]), turns[|turns| - 1];
      if last.Index? then before + ("[" + (Decimal(last.i) + "]"))
      else if before == "" then last.key
      else before + ("." + last.key)
  }

  lemma {:induction false} PathSnoc(base: string, turns: seq<Turn>)
    requires turns != []
    ensures var n := |turns| - 1;
      var before := PathOf(base, turns[..n]);
      PathOf(base, turns) == match turns[n] case Key(key) => KeyPath(before, key) case Index(i) => IndexPath(before, i)
    decreases |turns|
  {
    if |turns| == 1 {
      assert turns[1..] == [] && turns[..0] == [];
    } else {
      var rest, n := turns[1..], |turns| - 1;
      var next := match turns[0] case Key(key) => KeyPath(base, key) case Index(i) => IndexPath(base, i);
      PathSnoc(next, rest);
      assert rest[..|rest| - 1] == turns[..n][1..] && turns[..n][0] == turns[0];
    }
  }

  /** The path of a difference is the text of its position. */
  lemma {:induction false} PathsAreText(turns: seq<Turn>)
    ensures PathOf("", turns) == TextOf(turns)
    decreases |turns|
  {
    if turns != [] {
      var n := |turns| - 1;
      PathsAreText(turns[..n]);
      PathSnoc("", turns);
      var before := TextOf(turns[..n]);
      match turns[n]
      case Key(key) => assert before + "." + key == before + ("." + key);
      case Index(i) => assert before + "[" + Decimal(i) + "]" == before + ("[" + (Decimal(i) + "]"));
    }
  }

  /** The twelve names that every record inherits, by section 20.1.3 of ECMA-262. */
  lemma InheritedExactly(key: string)
    ensures IsInherited(key) <==>
      || key == "constructor" || key == "hasOwnProperty" || key == "isPrototypeOf" || key == "propertyIsEnumerable"
      || key == "toLocaleString" || key == "toString" || key == "valueOf" || key == "__proto__"
      || key == "__defineGetter__" || key == "__defineSetter__" || key == "__lookupGetter__"
      || key == "__lookupSetter__"
  {
  }

  // ----- printed values -------------------------------------------------------------------

  function HexOf(c: char): nat {
    if '0' <= c <= '9' then c as int - '0' as int else if 'a' <= c <= 'f' then c as int - 'a' as int + 10 else 0
  }

  /** The characters that a quoted text stands for, by section 7 of RFC 8259; a reader of the
      forms that are printed. */
  function Unescape(s: string): string {
    if s == "" then ""
    else if s[0] != '\\' then [s[0]] + Unescape(s[1..])
    else if |s| >= 6 && s[1] == 'u' then [(HexOf(s[4]) * 16 + HexOf(s[5])) as char] + Unescape(s[6..])
    else if |s| >= 2 then [Named(s[1])] + Unescape(s[2..])
    else ""
  }

  function Named(c: char): char {
    if c == 'b' then '\U{8}' else if c == 't' then '\U{9}' else if c == 'n' then '\U{A}'
    else if c == 'f' then '\U{C}' else if c == 'r' then '\U{D}' else c
  }

  lemma EscapedReads(c: char, rest: string)
    ensures Unescape(Escape(c) + rest) == [c] + Unescape(rest)
  {
    var s := Escape(c) + rest;
    if |Escape(c)| == 1 {
      assert s[0] == c && s[1..] == rest;
    } else if |Escape(c)| == 2 {
      assert s[0] == Escape(c)[0] && s[1] == Escape(c)[1] && s[2..] == rest;
    } else {
      assert s[0] == Escape(c)[0] && s[1] == Escape(c)[1] && s[4] == Escape(c)[4] && s[5] == Escape(c)[5];
      assert s[6..] == rest;
      assert c as int == 16 * (c as int / 16) + c as int % 16;
    }
  }

  /** A printed string reads back as the string. */
  lemma {:induction false} PrintedTextReadsBack(s: string)
    ensures Unescape(EscapeAll(s)) == s
  {
    if s != "" {
      EscapedReads(s[0], EscapeAll(s[1..]));
      PrintedTextReadsBack(s[1..]);
      assert s == [s[0]] + s[1..];
    }
  }

  /** A value as parsing gives it. */
  predicate IsParsed(j: Json) {
    match j
    case Arr(items) => forall i | 0 <= i < |items| :: IsParsed(items[i])
    case Obj(fields) => forall i | 0 <= i < |fields| :: IsParsed(fields[i].value)
    case _ => !j.Function? && !j.Prototype?
  }

  /** The value with every overflowing numeral read as null. */
  function Finite(j: Json): Json {
    match j
    case Overflow => Null
    case Arr(items) => Arr(FiniteItems(items))
    case Obj(fields) => Obj(FiniteFields(fields))
    case _ => j
  }

  function FiniteItems(items: seq<Json>): seq<Json> {
    if items == [] then [] else [Finite(items[0])] + FiniteItems(items[1..])
  }

  function FiniteFields(fields: seq<Field>): seq<Field> {
    if fields == [] then [] else [Field(fields[0].key, Finite(fields[0].value))] + FiniteFields(fields[1..])
  }

  /** What may follow a printed value. */
  predicate Ends(rest: string) {
    rest == "" || rest[0] == ',' || rest[0] == ']' || rest[0] == '}'
  }

  /** The items of an array after the first, and its end. */
  function ItemsTail(items: seq<Json>): string {
    if items == [] then "]" else "," + (Render(items[0]) + ItemsTail(items[1..]))
  }

  function FieldText(f: Field): string { Quote(f.key) + ":" + Render(f.value) }

  function FieldsTail(fields: seq<Field>): string {
    if fields == [] then "}" else "," + (FieldText(fields[0]) + FieldsTail(fields[1..]))
  }

  lemma Uncons(c: char, u: string, d: char, v: string)
    requires [c] + u == [d] + v
    ensures c == d && u == v
  {
    assert ([c] + u)[0] == c && ([d] + v)[0] == d && ([c] + u)[1..] == u && ([d] + v)[1..] == v;
  }

  lemma Cat(a: string, b: string, c: string)
    ensures (a + b) + c == a + (b + c)
  {
  }

  lemma InsideNumeral(b: Numeral, y: string)
    ensures forall i | 0 <= i < |b| :: InNumeral((b + y)[i])
  {
    assert forall i | 0 <= i < |b| :: (b + y)[i] == b[i];
  }

  lemma AfterNumeral(a: Numeral, x: string)
    requires Ends(x)
    ensures x != "" ==> !InNumeral((a + x)[|a|])
  {
    assert x != "" ==> (a + x)[|a|] == x[0];
  }

  lemma NumeralPrefix(a: Numeral, x: string, b: Numeral, y: string)
    requires Ends(x) && a + x == b + y
    ensures |a| >= |b|
  {
    AfterNumeral(a, x);
    InsideNumeral(b, y);
  }

  lemma NumeralEnds(a: Numeral, x: string, b: Numeral, y: string)
    requires Ends(x) && Ends(y) && a + x == b + y
    ensures a == b && x == y
  {
    NumeralPrefix(a, x, b, y);
    NumeralPrefix(b, y, a, x);
    assert a == (a + x)[..|a|] && b == (b + y)[..|b|] && x == (a + x)[|a|..] && y == (b + y)[|b|..];
  }

  lemma EscapedText(a: string, x: string)
    ensures var s := EscapeAll(a) + (['"'] + x);
      if a == "" then s == ['"'] + x
      else s[0] != '"' && s == Escape(a[0]) + (EscapeAll(a[1..]) + (['"'] + x))
  {
    if a == "" {
      assert EscapeAll(a) + (['"'] + x) == ['"'] + x;
    } else {
      EscapeStarts(a[0]);
      Cat(Escape(a[0]), EscapeAll(a[1..]), ['"'] + x);
    }
  }

  lemma EscapeStarts(c: char)
    ensures Escape(c) != "" && Escape(c)[0] != '"'
  {
  }

  lemma {:induction false} EscapedEnds(a: string, x: string, b: string, y: string)
    requires EscapeAll(a) + (['"'] + x) == EscapeAll(b) + (['"'] + y)
    ensures a == b && x == y
  {
    EscapedText(a, x);
    EscapedText(b, y);
    if a == "" {
      Uncons('"', x, '"', y);
    } else {
      EscapeIsPrefixFree(a[0], EscapeAll(a[1..]) + (['"'] + x), b[0], EscapeAll(b[1..]) + (['"'] + y));
      EscapedEnds(a[1..], x, b[1..], y);
      assert a == [a[0]] + a[1..] && b == [b[0]] + b[1..];
    }
  }

  lemma QuoteInParts(a: string, x: string)
    ensures Quote(a) + x == ['"'] + (EscapeAll(a) + (['"'] + x))
  {
  }

  lemma QuotedEnds(a: string, x: string, b: string, y: string)
    requires Quote(a) + x == Quote(b) + y
    ensures a == b && x == y
  {
    QuoteInParts(a, x);
    QuoteInParts(b, y);
    Uncons('"', EscapeAll(a) + (['"'] + x), '"', EscapeAll(b) + (['"'] + y));
    EscapedEnds(a, x, b, y);
  }

  lemma FirstCharacter(j: Json, x: string)
    requires IsParsed(j)
    ensures var c := (Render(j) + x)[0];
      && (c == 'n' <==> j.Null? || j.Overflow?) && (c == 't' <==> j == Bool(true)) && (c == 'f' <==> j == Bool(false))
      && (c == '"' <==> j.Str?) && (c == '[' <==> j.Arr?) && (c == '{' <==> j.Obj?)
      && (c == '-' || '0' <= c <= '9' <==> j.Num?) && c != ']' && c != '}' && c != ','
  {
    assert (Render(j) + x)[0] == Render(j)[0];
  }

  lemma SameEnds(t: string, x: string, y: string)
    requires t + x == t + y
    ensures x == y
  {
    assert x == (t + x)[|t|..] && y == (t + y)[|t|..];
  }

  /** Printed values are told apart wherever they end. */
  lemma {:induction false} RenderEnds(a: Json, x: string, b: Json, y: string)
    requires IsParsed(a) && IsParsed(b) && Ends(x) && Ends(y) && Render(a) + x == Render(b) + y
    ensures Finite(a) == Finite(b) && x == y
    decreases a, 2
  {
    FirstCharacter(a, x);
    FirstCharacter(b, y);
    match a
    case Num(n) => NumeralEnds(n, x, b.numeral, y);
    case Str(s) => QuotedEnds(s, x, b.text, y);
    case Arr(items) => ArrayEnds(items, x, b.items, y);
    case Obj(fields) => ObjectEnds(fields, x, b.fields, y);
    case Null => SameEnds("null", x, y);
    case Overflow => SameEnds("null", x, y);
    case Bool(value) => SameEnds(Render(a), x, y);
  }

  lemma {:induction false} ItemsAsTail(items: seq<Json>)
    requires items != []
    ensures ItemsTail(items) == [','] + (RenderItems(items) + "]")
  {
    var first := Render(items[0]);
    if |items| == 1 {
      assert items[1..] == [];
    } else {
      ItemsAsTail(items[1..]);
      assert RenderItems(items) == first + "," + RenderItems(items[1..]);
      assert first + "," + RenderItems(items[1..]) + "]" == first + ([','] + (RenderItems(items[1..]) + "]"));
    }
  }

  lemma ArrayInParts(items: seq<Json>, x: string)
    requires IsParsed(Arr(items))
    ensures var body := (RenderItems(items) + "]") + x;
      && Render(Arr(items)) + x == ['['] + body && body != ""
      && (items == [] ==> body == [']'] + x)
      && (items != [] ==> body[0] != ']' && ItemsTail(items) + x == [','] + body)
  {
    var text := RenderItems(items) + "]";
    assert Render(Arr(items)) == ['['] + text;
    Cat(['['], text, x);
    if items != [] {
      ItemsAsTail(items);
      Cat([','], text, x);
      FirstCharacter(items[0], "");
      assert text[0] == Render(items[0])[0];
    }
  }

  lemma {:induction false} ArrayEnds(a: seq<Json>, x: string, b: seq<Json>, y: string)
    requires IsParsed(Arr(a)) && IsParsed(Arr(b)) && Ends(x) && Ends(y)
    requires Render(Arr(a)) + x == Render(Arr(b)) + y
    ensures FiniteItems(a) == FiniteItems(b) && x == y
    decreases a, 1
  {
    ArrayInParts(a, x);
    ArrayInParts(b, y);
    Uncons('[', (RenderItems(a) + "]") + x, '[', (RenderItems(b) + "]") + y);
    if a == [] { Uncons(']', x, ']', y); } else { ItemsTailEnds(a, x, b, y); }
  }

  lemma ItemsTailInParts(items: seq<Json>, x: string)
    ensures Ends(ItemsTail(items) + x)
    ensures ItemsTail(items) + x ==
      if items == [] then [']'] + x else [','] + (Render(items[0]) + (ItemsTail(items[1..]) + x))
  {
    if items != [] {
      Cat([','], Render(items[0]) + ItemsTail(items[1..]), x);
      Cat(Render(items[0]), ItemsTail(items[1..]), x);
    }
  }

  lemma {:induction false} ItemsTailEnds(a: seq<Json>, x: string, b: seq<Json>, y: string)
    requires (forall i | 0 <= i < |a| :: IsParsed(a[i])) && (forall i | 0 <= i < |b| :: IsParsed(b[i]))
    requires Ends(x) && Ends(y) && ItemsTail(a) + x == ItemsTail(b) + y
    ensures FiniteItems(a) == FiniteItems(b) && x == y
    decreases a, 0
  {
    ItemsTailInParts(a, x);
    ItemsTailInParts(b, y);
    if a == [] || b == [] {
      Uncons((ItemsTail(a) + x)[0], (ItemsTail(a) + x)[1..], (ItemsTail(b) + y)[0], (ItemsTail(b) + y)[1..]);
    } else {
      var u, v := ItemsTail(a[1..]) + x, ItemsTail(b[1..]) + y;
      Uncons(',', Render(a[0]) + u, ',', Render(b[0]) + v);
      ItemsTailInParts(a[1..], x);
      ItemsTailInParts(b[1..], y);
      RenderEnds(a[0], u, b[0], v);
      ItemsTailEnds(a[1..], x, b[1..], y);
    }
  }

  lemma FieldInParts(f: Field, x: string)
    ensures FieldText(f) + x == Quote(f.key) + ([':'] + (Render(f.value) + x))
    ensures (FieldText(f) + x)[0] == '"'
  {
    Cat(Quote(f.key), ":", Render(f.value));
    Cat(Quote(f.key), ":" + Render(f.value), x);
    Cat(":", Render(f.value), x);
  }

  lemma {:induction false} FieldEnds(f: Field, x: string, g: Field, y: string)
    requires IsParsed(f.value) && IsParsed(g.value) && Ends(x) && Ends(y) && FieldText(f) + x == FieldText(g) + y
    ensures f.key == g.key && Finite(f.value) == Finite(g.value) && x == y
    decreases f, 3
  {
    FieldInParts(f, x);
    FieldInParts(g, y);
    QuotedEnds(f.key, [':'] + (Render(f.value) + x), g.key, [':'] + (Render(g.value) + y));
    Uncons(':', Render(f.value) + x, ':', Render(g.value) + y);
    RenderEnds(f.value, x, g.value, y);
  }

  lemma {:induction false} FieldsAsTail(fields: seq<Field>)
    requires fields != []
    ensures FieldsTail(fields) == [','] + (RenderFields(fields) + "}")
  {
    var first := FieldText(fields[0]);
    if |fields| == 1 {
      assert fields[1..] == [];
    } else {
      var rest := RenderFields(fields[1..]);
      FieldsAsTail(fields[1..]);
      assert RenderFields(fields) == first + "," + rest;
      Cat(first + ",", rest, "}");
      Cat(first, ",", rest + "}");
    }
  }

  lemma ObjectInParts(fields: seq<Field>, x: string)
    ensures var body := (RenderFields(fields) + "}") + x;
      && Render(Obj(fields)) + x == ['{'] + body && body != ""
      && (fields == [] ==> body == ['}'] + x)
      && (fields != [] ==> body[0] != '}' && FieldsTail(fields) + x == [','] + body)
  {
    var text := RenderFields(fields) + "}";
    assert Render(Obj(fields)) == ['{'] + text;
    Cat(['{'], text, x);
    if fields != [] {
      FieldsAsTail(fields);
      Cat([','], text, x);
      FieldInParts(fields[0], "");
      assert text[0] == FieldText(fields[0])[0];
    }
  }

  lemma {:induction false} ObjectEnds(a: seq<Field>, x: string, b: seq<Field>, y: string)
    requires IsParsed(Obj(a)) && IsParsed(Obj(b)) && Ends(x) && Ends(y)
    requires Render(Obj(a)) + x == Render(Obj(b)) + y
    ensures FiniteFields(a) == FiniteFields(b) && x == y
    decreases a, 1
  {
    ObjectInParts(a, x);
    ObjectInParts(b, y);
    Uncons('{', (RenderFields(a) + "}") + x, '{', (RenderFields(b) + "}") + y);
    if a == [] { Uncons('}', x, '}', y); } else { FieldsTailEnds(a, x, b, y); }
  }

  lemma FieldsTailInParts(fields: seq<Field>, x: string)
    ensures Ends(FieldsTail(fields) + x)
    ensures FieldsTail(fields) + x ==
      if fields == [] then ['}'] + x else [','] + (FieldText(fields[0]) + (FieldsTail(fields[1..]) + x))
  {
    if fields != [] {
      Cat([','], FieldText(fields[0]) + FieldsTail(fields[1..]), x);
      Cat(FieldText(fields[0]), FieldsTail(fields[1..]), x);
    }
  }

  lemma {:induction false} FieldsTailEnds(a: seq<Field>, x: string, b: seq<Field>, y: string)
    requires (forall i | 0 <= i < |a| :: IsParsed(a[i].value)) && (forall i | 0 <= i < |b| :: IsParsed(b[i].value))
    requires Ends(x) && Ends(y) && FieldsTail(a) + x == FieldsTail(b) + y
    ensures FiniteFields(a) == FiniteFields(b) && x == y
    decreases a, 0
  {
    FieldsTailInParts(a, x);
    FieldsTailInParts(b, y);
    if a == [] || b == [] {
      Uncons((FieldsTail(a) + x)[0], (FieldsTail(a) + x)[1..], (FieldsTail(b) + y)[0], (FieldsTail(b) + y)[1..]);
    } else {
      var u, v := FieldsTail(a[1..]) + x, FieldsTail(b[1..]) + y;
      Uncons(',', FieldText(a[0]) + u, ',', FieldText(b[0]) + v);
      FieldsTailInParts(a[1..], x);
      FieldsTailInParts(b[1..], y);
      FieldEnds(a[0], u, b[0], v);
      FieldsTailEnds(a[1..], x, b[1..], y);
    }
  }

  lemma {:induction false} FinitePrintsAlike(j: Json)
    ensures Render(Finite(j)) == Render(j)
    decreases j, 1
  {
    match j
    case Arr(items) => FiniteItemsPrintAlike(items);
    case Obj(fields) => FiniteFieldsPrintAlike(fields);
    case _ =>
  }

  lemma {:induction false} FiniteItemsPrintAlike(items: seq<Json>)
    ensures |FiniteItems(items)| == |items| && RenderItems(FiniteItems(items)) == RenderItems(items)
    decreases items, 0
  {
    if items != [] {
      FinitePrintsAlike(items[0]);
      FiniteItemsPrintAlike(items[1..]);
      assert FiniteItems(items)[1..] == FiniteItems(items[1..]);
    }
  }

  lemma {:induction false} FiniteFieldsPrintAlike(fields: seq<Field>)
    ensures |FiniteFields(fields)| == |fields| && RenderFields(FiniteFields(fields)) == RenderFields(fields)
    decreases fields, 0
  {
    if fields != [] {
      FinitePrintsAlike(fields[0].value);
      FiniteFieldsPrintAlike(fields[1..]);
      assert FiniteFields(fields)[1..] == FiniteFields(fields[1..]);
    }
  }

  /** PRINTING LOSES NOTHING BUT OVERFLOW. Two parsed values print alike exactly when they are the
      same, items, keys and their order included, once overflowing numerals read as null. */
  lemma PrintedAlikeIffSame(a: Json, b: Json)
    requires IsParsed(a) && IsParsed(b)
    ensures Render(a) == Render(b) <==> Finite(a) == Finite(b)
  {
    if Render(a) == Render(b) {
      RenderEnds(a, "", b, "");
    } else {
      FinitePrintsAlike(a);
      FinitePrintsAlike(b);
    }
  }
}
