/** Prefixed identifiers: 16 bytes as 26 Crockford base32 symbols. */
module IdCodec {
  import opened Wrappers

  const ALPHABET := "0123456789ABCDEFGHJKMNPQRSTVWXYZ"
  const ID_BODY_LENGTH: nat := 26

  /** The registered prefixes, each its own name. */
  const ID_PREFIXES := ["org", "usr", "mbr", "ses", "crd", "rol", "prm", "inv", "aud", "req", "fnd", "scn",
                        "mfa", "vtk", "rcv", "idp", "pau"]

  /** Big-endian digits of base `b`. */
  ghost predicate Digits(ds: seq<int>, b: nat) {
    forall i | 0 <= i < |ds| :: 0 <= ds[i] < b
  }

  function Number(ds: seq<int>, b: nat): int {
    if ds == [] then 0 else Number(ds[..|ds| - 1], b) * b + ds[|ds| - 1]
  }

  function Pow(b: nat, n: nat): nat {
    if n == 0 then 1 else b * Pow(b, n - 1)
  }

  /** The `n` low base32 digits of a number, most significant first. */
  function Symbols(value: nat, n: nat): (ds: seq<int>)
    ensures |ds| == n && Digits(ds, 32)
  {
    if n == 0 then [] else Symbols(value / 32, n - 1) + [value % 32]
  }

  function Spell(ds: seq<int>): (s: string)
    requires Digits(ds, 32)
    ensures |s| == |ds| && forall i | 0 <= i < |s| :: s[i] == ALPHABET[ds[i]]
  {
    if ds == [] then "" else Spell(ds[..|ds| - 1]) + [ALPHABET[ds[|ds| - 1]]]
  }

  method EncodeCrockford(bytes: seq<int>) returns (out: string)
    requires Digits(bytes, 256)
    ensures Number(bytes, 256) >= 0
    ensures out == Spell(Symbols(Number(bytes, 256), ID_BODY_LENGTH))
  {
    var value := 0;
    for i := 0 to |bytes|
      invariant value == Number(bytes[..i], 256) >= 0
    {
      assert bytes[..i + 1][..i] == bytes[..i];
      value := value * 256 + bytes[i];
    }
    assert bytes[..|bytes|] == bytes;
    out := SpellLowDigits(value);
  }

  /** The low `n` base32 digits of a number, spelled out. */
  function LowDigits(value: nat, n: nat): string {
    Spell(Symbols(value, n))
  }

  /** The encoder's second loop: the low digits, written from the right. */
  method SpellLowDigits(number: nat) returns (out: string)
    ensures out == LowDigits(number, ID_BODY_LENGTH)
  {
    var value: nat := number;
    out := "";
    for index := 0 to ID_BODY_LENGTH
      invariant LowDigits(value, ID_BODY_LENGTH - index) + out == LowDigits(number, ID_BODY_LENGTH)
    {
      var symbol := [ALPHABET[value % 32]];
      SpellLast(value, ID_BODY_LENGTH - index);
      PrependOne(LowDigits(value / 32, ID_BODY_LENGTH - index - 1), symbol, out);
      out := symbol + out;
      value := value / 32;
    }
    NothingToSpell(value);
  }

  lemma PrependOne(a: string, b: string, c: string)
    ensures (a + b) + c == a + (b + c)
  {
  }

  lemma SpellLast(value: nat, n: nat)
    requires n > 0
    ensures LowDigits(value, n) == LowDigits(value / 32, n - 1) + [ALPHABET[value % 32]]
  {
    assert Symbols(value, n)[..n - 1] == Symbols(value / 32, n - 1);
  }

  lemma NothingToSpell(value: nat)
    ensures LowDigits(value, 0) == ""
  {
  }

  // ----- digits and numbers -----------------------------------------------------------

  lemma {:induction false} NumberBound(ds: seq<int>, b: nat)
    requires Digits(ds, b)
    ensures 0 <= Number(ds, b) < Pow(b, |ds|)
  {
    if ds != [] {
      var n := |ds| - 1;
      NumberBound(ds[..n], b);
      BoundStep(Number(ds[..n], b), ds[n], b, Pow(b, n));
    }
  }

  lemma BoundStep(x: int, d: int, b: nat, p: nat)
    requires 0 <= x < p && 0 <= d < b
    ensures 0 <= x * b + d < b * p
  {
    MulGrows(b, x + 1, p);
    MulGrows(b, 0, x);
    assert b * (x + 1) == b * x + b;
  }

  lemma MulGrows(m: nat, a: int, b: int)
    requires a <= b
    ensures m * a <= m * b && a * m <= b * m
  {
  }

  /** Reading symbols back gives the number, when it fits. */
  lemma {:induction false} SymbolsOfNumber(value: nat, n: nat)
    requires value < Pow(32, n)
    ensures Number(Symbols(value, n), 32) == value
  {
    if n > 0 {
      SymbolsOfNumber(value / 32, n - 1);
      assert Symbols(value, n)[..n - 1] == Symbols(value / 32, n - 1);
    }
  }

  /** Lexicographic order of two sequences of one length: at the first place where they
      differ, the smaller one comes first. */
  ghost predicate Before(a: seq<int>, c: seq<int>)
    requires |a| == |c|
  {
    exists i | 0 <= i < |a| :: FirstDifference(a, c, i) && a[i] < c[i]
  }

  ghost predicate FirstDifference(a: seq<int>, c: seq<int>, i: nat)
    requires i < |a| == |c|
  {
    a[..i] == c[..i] && a[i] != c[i]
  }

  lemma BeforeSnoc(a: seq<int>, c: seq<int>)
    requires |a| == |c| > 0
    ensures var n := |a| - 1; Before(a, c) <==> Before(a[..n], c[..n]) || (a[..n] == c[..n] && a[n] < c[n])
  {
    var n := |a| - 1;
    forall i | 0 <= i < n
      ensures FirstDifference(a, c, i) <==> FirstDifference(a[..n], c[..n], i)
    {
      assert a[..n][..i] == a[..i] && c[..n][..i] == c[..i];
    }
    if Before(a, c) {
      var i :| 0 <= i < |a| && FirstDifference(a, c, i) && a[i] < c[i];
      if i < n { assert FirstDifference(a[..n], c[..n], i); }
    }
    if Before(a[..n], c[..n]) {
      var i :| 0 <= i < n && FirstDifference(a[..n], c[..n], i) && a[..n][i] < c[..n][i];
      assert FirstDifference(a, c, i);
    }
    if a[..n] == c[..n] && a[n] < c[n] { assert FirstDifference(a, c, n); }
  }

  /** Numbers of one length compare as their digits do. */
  lemma {:induction false} NumberOrder(a: seq<int>, c: seq<int>, b: nat)
    requires |a| == |c| && Digits(a, b) && Digits(c, b)
    ensures Number(a, b) < Number(c, b) <==> Before(a, c)
    ensures Number(a, b) == Number(c, b) <==> a == c
    decreases |a|
  {
    if a != [] {
      var n := |a| - 1;
      NumberOrder(a[..n], c[..n], b);
      NumberOrder(c[..n], a[..n], b);
      BeforeSnoc(a, c);
      assert a == a[..n] + [a[n]] && c == c[..n] + [c[n]];
      NumberStep(Number(a[..n], b), a[n], Number(c[..n], b), c[n], b);
    }
  }

  lemma NumberStep(x: int, d: int, y: int, e: int, b: nat)
    requires 0 <= d < b && 0 <= e < b
    ensures x * b + d < y * b + e <==> x < y || (x == y && d < e)
    ensures x * b + d == y * b + e <==> x == y && d == e
  {
    if x < y { MulGrows(b, x + 1, y); }
    if y < x { MulGrows(b, y + 1, x); }
  }

  // ----- the codec ----------------------------------------------------------------------

  /** What the encoder returns for the 16 bytes of a UUID. */
  function Encode(bytes: seq<int>): string
    requires Digits(bytes, 256)
  {
    NumberBound(bytes, 256);
    Spell(Symbols(Number(bytes, 256), ID_BODY_LENGTH))
  }

  lemma SixteenBytesFit()
    ensures Pow(256, 16) < Pow(32, 26)
  {
    assert Pow(256, 4) == 0x1_0000_0000;
    PowAdds(256, 4, 4);
    PowAdds(256, 8, 8);
    assert Pow(32, 4) == 1048576;
    PowAdds(32, 4, 4);
    PowAdds(32, 8, 8);
    PowAdds(32, 16, 8);
    assert Pow(32, 2) == 1024;
    PowAdds(32, 24, 2);
  }

  lemma {:induction false} PowAdds(b: nat, m: nat, n: nat)
    ensures Pow(b, m + n) == Pow(b, m) * Pow(b, n)
  {
    if m > 0 {
      PowAdds(b, m - 1, n);
      MulAssociates(b, Pow(b, m - 1), Pow(b, n));
    }
  }

  lemma MulAssociates(a: int, b: int, c: int)
    ensures a * (b * c) == (a * b) * c
  {
  }

  /** The value of a symbol: its place in the alphabet. */
  function ValueOf(c: char): (v: int)
    ensures 0 <= v <= 32 && (v < 32 ==> ALPHABET[v] == c) && (v == 32 ==> c !in ALPHABET)
  {
    PlaceOf(c, 0)
  }

  function PlaceOf(c: char, from: nat): (v: int)
    requires from <= 32 && forall i | 0 <= i < from :: ALPHABET[i] != c
    ensures 0 <= v <= 32 && (v < 32 ==> ALPHABET[v] == c) && (v == 32 ==> c !in ALPHABET)
    decreases 32 - from
  {
    if from == 32 then 32 else if ALPHABET[from] == c then from else PlaceOf(c, from + 1)
  }

  lemma AlphabetAscends()
    ensures forall i, j | 0 <= i < j < 32 :: ALPHABET[i] < ALPHABET[j]
  {
    var a := ALPHABET;
    assert forall i | 0 <= i < 31 :: a[i] < a[i + 1];
    forall i, j | 0 <= i < j < 32 ensures a[i] < a[j] { Ascends(a, i, j); }
  }

  lemma {:induction false} Ascends(a: string, i: nat, j: nat)
    requires i < j < |a| && forall k | 0 <= k < |a| - 1 :: a[k] < a[k + 1]
    ensures a[i] < a[j]
    decreases j - i
  {
    if i + 1 < j { Ascends(a, i, j - 1); }
  }

  /** The number a body stands for. */
  function ReadBody(s: string): int {
    Number(seq(|s|, i requires 0 <= i < |s| => ValueOf(s[i])), 32)
  }

  /** The encoding has a left inverse: the body determines the bytes. */
  lemma BodyDeterminesBytes(bytes: seq<int>)
    requires |bytes| == 16 && Digits(bytes, 256)
    ensures |Encode(bytes)| == ID_BODY_LENGTH && ReadBody(Encode(bytes)) == Number(bytes, 256)
  {
    NumberBound(bytes, 256);
    SixteenBytesFit();
    var ds := Symbols(Number(bytes, 256), ID_BODY_LENGTH);
    SymbolsOfNumber(Number(bytes, 256), ID_BODY_LENGTH);
    var body := Spell(ds);
    AlphabetAscends();
    assert seq(|body|, i requires 0 <= i < |body| => ValueOf(body[i])) == ds;
  }

  /** The encoding strictly preserves order: bytes compare as the bodies do, so identifiers
      made later from time-ordered bytes sort later. */
  lemma EncodingPreservesOrder(a: seq<int>, c: seq<int>)
    requires |a| == |c| == 16 && Digits(a, 256) && Digits(c, 256)
    ensures Before(a, c) <==> TextBefore(Encode(a), Encode(c))
    ensures Encode(a) == Encode(c) <==> a == c
  {
    NumberBound(a, 256);
    NumberBound(c, 256);
    SixteenBytesFit();
    var x, y := Symbols(Number(a, 256), ID_BODY_LENGTH), Symbols(Number(c, 256), ID_BODY_LENGTH);
    SymbolsOfNumber(Number(a, 256), ID_BODY_LENGTH);
    SymbolsOfNumber(Number(c, 256), ID_BODY_LENGTH);
    NumberOrder(a, c, 256);
    NumberOrder(x, y, 32);
    SpellingPreservesOrder(x, y);
  }

  ghost predicate TextBefore(s: string, t: string)
    requires |s| == |t|
  {
    exists i | 0 <= i < |s| :: TextDiffersAt(s, t, i) && s[i] < t[i]
  }

  ghost predicate TextDiffersAt(s: string, t: string, i: nat)
    requires i < |s| == |t|
  {
    s[..i] == t[..i] && s[i] != t[i]
  }

  lemma SpellingPreservesOrder(x: seq<int>, y: seq<int>)
    requires |x| == |y| && Digits(x, 32) && Digits(y, 32)
    ensures TextBefore(Spell(x), Spell(y)) <==> Before(x, y)
    ensures Spell(x) == Spell(y) <==> x == y
  {
    AlphabetAscends();
    var s, t := Spell(x), Spell(y);
    forall i | 0 <= i < |x|
      ensures s[i] == t[i] <==> x[i] == y[i]
      ensures s[i] < t[i] <==> x[i] < y[i]
    {
      if x[i] < y[i] {} else if y[i] < x[i] {}
    }
    forall i | 0 <= i < |x| ensures TextDiffersAt(s, t, i) <==> FirstDifference(x, y, i) {
      assert s[..i] == t[..i] <==> x[..i] == y[..i] by {
        if s[..i] == t[..i] { forall k | 0 <= k < i ensures x[k] == y[k] { assert s[..i][k] == t[..i][k]; } }
        if x[..i] == y[..i] { forall k | 0 <= k < i ensures s[k] == t[k] { assert x[..i][k] == y[..i][k]; } }
      }
    }
    if s == t { forall k | 0 <= k < |x| ensures x[k] == y[k] {} }
  }

  // ----- identifiers ----------------------------------------------------------------------

  function NewId(prefix: string, bytes: seq<int>): string
    requires Digits(bytes, 256)
  {
    prefix + "_" + Encode(bytes)
  }

  predicate IsBody(s: string) {
    |s| == ID_BODY_LENGTH && forall c | c in s :: c in ALPHABET
  }

  /** The pattern anchors a three-letter prefix, an underscore and a body; the prefix must be
      registered. */
  function ParseIdPrefix(id: string): Option<string> {
    if |id| == 4 + ID_BODY_LENGTH && (forall c | c in id[..3] :: 'a' <= c <= 'z') && id[3] == '_' && IsBody(id[4..])
       && id[..3] in ID_PREFIXES
    then Some(id[..3]) else None
  }

  /** The contracts' own character class for a body. */
  predicate IsSchemaBody(s: string) {
    |s| == 26 && forall c | c in s :: InSchemaClass(c)
  }

  predicate IdSchema(prefix: string, value: string) {
    prefix + "_" <= value && IsSchemaBody(value[|prefix| + 1..])
  }

  /** Every identifier made under a registered prefix parses to that prefix. */
  lemma NewIdParses(prefix: string, bytes: seq<int>)
    requires prefix in ID_PREFIXES && |bytes| == 16 && Digits(bytes, 256)
    ensures ParseIdPrefix(NewId(prefix, bytes)) == Some(prefix)
  {
    PrefixesAreThreeLetters(prefix);
    BodyDeterminesBytes(bytes);
    var id := NewId(prefix, bytes);
    assert id[..3] == prefix && id[4..] == Encode(bytes);
    forall c | c in Encode(bytes) ensures c in ALPHABET {
      var i :| 0 <= i < |Encode(bytes)| && Encode(bytes)[i] == c;
    }
  }

  lemma PrefixesAreThreeLetters(prefix: string)
    requires prefix in ID_PREFIXES
    ensures |prefix| == 3 && forall c | c in prefix :: 'a' <= c <= 'z'
  {
    var i :| 0 <= i < |ID_PREFIXES| && ID_PREFIXES[i] == prefix;
    assert |ID_PREFIXES| == 17;
  }

  predicate InSchemaClass(c: char) {
    || '0' <= c <= '9' || 'A' <= c <= 'H' || c == 'J' || c == 'K' || c == 'M' || c == 'N'
    || 'P' <= c <= 'T' || 'V' <= c <= 'Z'
  }

  /** The two character classes are the same: the alphabet, and the schema's ranges. */
  lemma SameCharacters(c: char)
    ensures c in ALPHABET <==> InSchemaClass(c)
  {
    if c in ALPHABET { AlphabetInClass(c); }
    if InSchemaClass(c) { ClassInAlphabet(c); }
  }

  lemma AlphabetInClass(c: char)
    requires c in ALPHABET
    ensures InSchemaClass(c)
  {
    var i :| 0 <= i < 32 && ALPHABET[i] == c;
    if i < 16 { LowerHalfInClass(i); } else { UpperHalfInClass(i); }
  }

  lemma LowerHalfInClass(i: nat)
    requires i < 16
    ensures InSchemaClass(ALPHABET[i])
  {
    var a := ALPHABET;
    assert forall j | 0 <= j < 8 :: InSchemaClass(a[j]);
    assert forall j | 8 <= j < 16 :: InSchemaClass(a[j]);
  }

  lemma UpperHalfInClass(i: nat)
    requires 16 <= i < 32
    ensures InSchemaClass(ALPHABET[i])
  {
    var a := ALPHABET;
    assert forall j | 16 <= j < 24 :: InSchemaClass(a[j]);
    assert forall j | 24 <= j < 32 :: InSchemaClass(a[j]);
  }

  lemma ClassInAlphabet(c: char)
    requires InSchemaClass(c)
    ensures c in ALPHABET
  {
    var a := ALPHABET;
    var i := if c <= '9' then c as int - '0' as int
             else if c <= 'H' then c as int - 'A' as int + 10
             else if c <= 'K' then c as int - 'J' as int + 18
             else if c <= 'N' then c as int - 'M' as int + 20
             else if c <= 'T' then c as int - 'P' as int + 22
             else c as int - 'V' as int + 27;
    assert 0 <= i < 32 && a[i] == c;
  }

  /** Validation and parsing agree: for every registered prefix the schema accepts exactly
      the strings that parse to it. */
  lemma SchemaAcceptsWhatParses(prefix: string, value: string)
    requires prefix in ID_PREFIXES
    ensures IdSchema(prefix, value) <==> ParseIdPrefix(value) == Some(prefix)
  {
    PrefixesAreThreeLetters(prefix);
    if |value| >= 4 {
      assert prefix + "_" <= value <==> value[..3] == prefix && value[3] == '_' by {
        if prefix + "_" <= value { assert value[..4] == prefix + "_"; assert value[..3] == value[..4][..3]; }
        if value[..3] == prefix && value[3] == '_' { assert value[..4] == prefix + "_"; }
      }
      forall c | c in value[4..] { SameCharacters(c); }
    }
  }

  predicate IsRegistered(prefix: string) {
    || prefix == "org" || prefix == "usr" || prefix == "mbr" || prefix == "ses" || prefix == "crd" || prefix == "rol"
    || prefix == "prm" || prefix == "inv" || prefix == "aud" || prefix == "req" || prefix == "fnd" || prefix == "scn"
    || prefix == "mfa" || prefix == "vtk" || prefix == "rcv" || prefix == "idp" || prefix == "pau"
  }

  /** A digit or capital letter, except the four that are easily misread. */
  predicate IsBase32(c: char) {
    ('0' <= c <= '9' || 'A' <= c <= 'Z') && c != 'I' && c != 'L' && c != 'O' && c != 'U'
  }

  ghost predicate IsIdentifier(value: string, prefix: string, body: string) {
    && IsRegistered(prefix) && value == prefix + "_" + body
    && |body| == 26 && forall i | 0 <= i < |body| :: IsBase32(body[i])
  }

  lemma RegisteredPrefixes(prefix: string)
    ensures IsRegistered(prefix) <==> prefix in ID_PREFIXES
  {
    assert |ID_PREFIXES| == 17 && forall i | 0 <= i < 17 :: ID_PREFIXES[i] in ID_PREFIXES;
    if IsRegistered(prefix) {
      var i :=
        if prefix == "org" then 0 else if prefix == "usr" then 1 else if prefix == "mbr" then 2
        else if prefix == "ses" then 3 else if prefix == "crd" then 4 else if prefix == "rol" then 5
        else if prefix == "prm" then 6 else if prefix == "inv" then 7 else if prefix == "aud" then 8
        else if prefix == "req" then 9 else if prefix == "fnd" then 10 else if prefix == "scn" then 11
        else if prefix == "mfa" then 12 else if prefix == "vtk" then 13 else if prefix == "rcv" then 14
        else if prefix == "idp" then 15 else 16;
      assert ID_PREFIXES[i] == prefix;
    }
  }

  lemma BodiesInText(s: string)
    ensures IsBody(s) <==> |s| == 26 && forall i | 0 <= i < |s| :: IsBase32(s[i])
  {
    forall i | 0 <= i < |s| ensures s[i] in ALPHABET <==> IsBase32(s[i]) { SameCharacters(s[i]); }
    forall c | c in s && !(c in ALPHABET) ensures exists i :: 0 <= i < |s| && !IsBase32(s[i]) {
      var i :| 0 <= i < |s| && s[i] == c;
      assert !IsBase32(s[i]);
    }
  }

  /** A text parses to a prefix exactly when it is that prefix, registered, an underscore and 26
      base32 characters. */
  lemma ParsesExactly(value: string, prefix: string)
    ensures ParseIdPrefix(value) == Some(prefix) <==> exists body :: IsIdentifier(value, prefix, body)
  {
    RegisteredPrefixes(prefix);
    if ParseIdPrefix(value) == Some(prefix) {
      BodiesInText(value[4..]);
      assert value == prefix + "_" + value[4..];
      assert IsIdentifier(value, prefix, value[4..]);
    }
    if body :| IsIdentifier(value, prefix, body) {
      PrefixesAreThreeLetters(prefix);
      BodiesInText(body);
      assert value[..3] == prefix && value[4..] == body;
    }
  }

  /** A UUIDv7 opens with 48 bits of time (section 5.7 of RFC 9562): an identifier with a
      later time sorts later, under one prefix. */
  lemma LaterIdsSortLater(prefix: string, a: seq<int>, c: seq<int>)
    requires |a| == |c| == 16 && Digits(a, 256) && Digits(c, 256) && Before(a[..6], c[..6])
    ensures |NewId(prefix, a)| == |NewId(prefix, c)| && TextBefore(NewId(prefix, a), NewId(prefix, c))
  {
    var i :| 0 <= i < 6 && FirstDifference(a[..6], c[..6], i) && a[..6][i] < c[..6][i];
    assert a[..6][..i] == a[..i] && c[..6][..i] == c[..i];
    assert FirstDifference(a, c, i);
    EncodingPreservesOrder(a, c);
    BodyDeterminesBytes(a);
    BodyDeterminesBytes(c);
    SameHeadKeepsOrder(prefix + "_", Encode(a), Encode(c));
  }

  lemma SameHeadKeepsOrder(head: string, s: string, t: string)
    requires |s| == |t| && TextBefore(s, t)
    ensures |head + s| == |head + t| && TextBefore(head + s, head + t)
  {
    var k :| 0 <= k < |s| && TextDiffersAt(s, t, k) && s[k] < t[k];
    assert (head + s)[..|head| + k] == head + s[..k] && (head + t)[..|head| + k] == head + t[..k];
    assert TextDiffersAt(head + s, head + t, |head| + k);
  }
}
