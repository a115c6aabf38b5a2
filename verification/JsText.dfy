/** The string operations of the source's runtime that the model needs. */
module JsText {
  /** White space and line terminators, as `trim` removes them. */
  predicate IsBlank(c: char) {
    || c == ' ' || c == '\t' || c == '\n' || c == '\r' || '\U{B}' <= c <= '\U{C}' || c == '\U{A0}' || c == '\U{FEFF}'
    || c == '\U{1680}' || '\U{2000}' <= c <= '\U{200A}' || c == '\U{2028}' || c == '\U{2029}' || c == '\U{202F}'
    || c == '\U{205F}' || c == '\U{3000}'
  }

  function TrimStart(s: string): string {
    if s != [] && IsBlank(s[0]) then TrimStart(s[1..]) else s
  }

  function TrimEnd(s: string): string {
    if s != [] && IsBlank(s[|s| - 1]) then TrimEnd(s[..|s| - 1]) else s
  }

  function Trim(s: string): string {
    TrimEnd(TrimStart(s))
  }

  /** Nothing to trim at either end. */
  predicate Trimmed(s: string) {
    s != [] ==> !IsBlank(s[0]) && !IsBlank(s[|s| - 1])
  }

  lemma {:induction false} TrimStartTrims(s: string)
    ensures var t := TrimStart(s); t != [] ==> !IsBlank(t[0])
    ensures TrimStart(s) != [] ==> TrimStart(s)[|TrimStart(s)| - 1] == s[|s| - 1]
    ensures |TrimStart(s)| <= |s|
  {
    if s != [] && IsBlank(s[0]) { TrimStartTrims(s[1..]); }
  }

  lemma {:induction false} TrimEndTrims(s: string)
    ensures var t := TrimEnd(s); t != [] ==> !IsBlank(t[|t| - 1]) && t[0] == s[0]
    ensures |TrimEnd(s)| <= |s|
  {
    if s != [] && IsBlank(s[|s| - 1]) { TrimEndTrims(s[..|s| - 1]); }
  }

  lemma TrimTrims(s: string)
    ensures Trimmed(Trim(s))
    ensures Trimmed(s) ==> Trim(s) == s
  {
    TrimStartTrims(s);
    TrimEndTrims(TrimStart(s));
  }

  predicate AllBlank(s: string) {
    forall c | c in s :: IsBlank(c)
  }

  /** Blanks are the white space and line terminators of sections 12.2 and 12.3 of ECMA-262, by code. */
  lemma BlankCodes(c: char)
    ensures IsBlank(c) <==>
      var n := c as int;
      n in {9, 10, 11, 12, 13, 32, 160, 0x1680, 0x2028, 0x2029, 0x202F, 0x205F, 0x3000, 0xFEFF} || 0x2000 <= n <= 0x200A
  {
  }

  lemma {:induction false} TrimStartParts(s: string) returns (l: string)
    ensures s == l + TrimStart(s) && AllBlank(l)
  {
    l := "";
    if s != [] && IsBlank(s[0]) {
      var k := TrimStartParts(s[1..]);
      l := [s[0]] + k;
      assert s == [s[0]] + s[1..];
    }
  }

  lemma {:induction false} TrimEndParts(s: string) returns (r: string)
    ensures s == TrimEnd(s) + r && AllBlank(r)
  {
    r := "";
    if s != [] && IsBlank(s[|s| - 1]) {
      var k := TrimEndParts(s[..|s| - 1]);
      r := k + [s[|s| - 1]];
      assert s == s[..|s| - 1] + [s[|s| - 1]];
    }
  }

  /** Trimming takes blanks off both ends, and nothing else. */
  lemma TrimParts(s: string) returns (l: string, r: string)
    ensures s == l + Trim(s) + r && AllBlank(l) && AllBlank(r) && Trimmed(Trim(s))
    ensures Trim(s) == "" <==> AllBlank(s)
  {
    TrimTrims(s);
    l := TrimStartParts(s);
    r := TrimEndParts(TrimStart(s));
    assert s == l + (Trim(s) + r) == l + Trim(s) + r;
    if Trim(s) != "" { assert Trim(s)[0] in s; }
  }

  /** What remains is fixed: a text with nothing to trim, between blanks. */
  lemma TrimBetween(l: string, t: string, r: string)
    requires AllBlank(l) && AllBlank(r) && Trimmed(t)
    ensures Trim(l + t + r) == t
  {
    assert l + t + r == l + (t + r);
    if t == "" {
      var a, b := TrimParts(l + t + r);
    } else {
      TrimStartBefore(l, t + r);
      TrimEndAfter(t, r);
    }
  }

  lemma {:induction false} TrimStartBefore(l: string, s: string)
    requires AllBlank(l) && s != "" && !IsBlank(s[0])
    ensures TrimStart(l + s) == s
  {
    if l == "" {
      assert l + s == s;
    } else {
      assert (l + s)[1..] == l[1..] + s;
      TrimStartBefore(l[1..], s);
    }
  }

  lemma {:induction false} TrimEndAfter(s: string, r: string)
    requires AllBlank(r) && s != "" && !IsBlank(s[|s| - 1])
    ensures TrimEnd(s + r) == s
  {
    if r == "" {
      assert s + r == s;
    } else {
      var n := |r| - 1;
      assert (s + r)[..|s + r| - 1] == s + r[..n] && (s + r)[|s + r| - 1] == r[n];
      assert r[n] in r;
      TrimEndAfter(s, r[..n]);
    }
  }

  /** Text before a separator that it does not contain is fixed by the whole. */
  lemma SplitsAtFirst(a: string, b: string, c: string, d: string, sep: char)
    requires sep !in a && sep !in c
    requires a + [sep] + b == c + [sep] + d
    ensures a == c && b == d
  {
    var x, y := a + [sep] + b, c + [sep] + d;
    assert x[|a|] == sep && y[|c|] == sep;
    assert forall i | 0 <= i < |a| :: x[i] == a[i] && a[i] != sep;
    assert forall i | 0 <= i < |c| :: y[i] == c[i] && c[i] != sep;
    assert |a| == |c|;
    assert a == x[..|a|] && c == y[..|c|];
    assert b == x[|a| + 1..] && d == y[|c| + 1..];
  }

  /** A lower-case hexadecimal digit. */
  function HexChar(d: nat): char
    requires d < 16
  {
    if d < 10 then ('0' as int + d) as char else ('a' as int + (d - 10)) as char
  }

  /** `split(sep)`: the pieces between separators, one more than there are separators. */
  function Split(s: string, sep: char): (parts: seq<string>)
    ensures parts != []
  {
    if s == "" then [""]
    else
      var rest := Split(s[1..], sep);
      if s[0] == sep then [""] + rest else [[s[0]] + rest[0]] + rest[1..]
  }

  lemma {:induction false} SplitWithout(s: string, sep: char)
    requires sep !in s
    ensures Split(s, sep) == [s]
  {
    if s != "" {
      SplitWithout(s[1..], sep);
      assert s == [s[0]] + s[1..];
    }
  }

  lemma {:induction false} SplitFirst(s: string, rest: string, sep: char)
    requires sep !in s
    ensures Split(s + [sep] + rest, sep) == [s] + Split(rest, sep)
  {
    var all := s + [sep] + rest;
    if s == "" {
      assert all[1..] == rest;
    } else {
      SplitFirst(s[1..], rest, sep);
      assert all[1..] == s[1..] + [sep] + rest;
      assert [s[0]] + s[1..] == s;
    }
  }

  /** The pieces of a text with one more character in front. */
  function ConsOnto(c: char, parts: seq<string>, sep: char): seq<string>
    requires parts != []
  {
    if c == sep then [""] + parts else [[c] + parts[0]] + parts[1..]
  }

  lemma SplitCons(c: char, rest: string, sep: char)
    ensures Split([c] + rest, sep) == ConsOnto(c, Split(rest, sep), sep)
  {
    assert ([c] + rest)[1..] == rest;
  }

  lemma ConsOntoAppends(c: char, a: seq<string>, b: seq<string>, sep: char)
    requires a != []
    ensures ConsOnto(c, a + b, sep) == ConsOnto(c, a, sep) + b
  {
    assert (a + b)[1..] == a[1..] + b;
  }

  /** Text before a separator and text after it are split apart. */
  lemma {:induction false} SplitAppends(s: string, rest: string, sep: char)
    ensures Split(s + ([sep] + rest), sep) == Split(s, sep) + Split(rest, sep)
  {
    if s == "" {
      assert s + ([sep] + rest) == [sep] + rest;
      SplitCons(sep, rest, sep);
    } else {
      var tail := s[1..] + ([sep] + rest);
      SplitAppends(s[1..], rest, sep);
      SplitCons(s[0], s[1..], sep);
      SplitCons(s[0], tail, sep);
      ConsOntoAppends(s[0], Split(s[1..], sep), Split(rest, sep), sep);
      assert s == [s[0]] + s[1..] && s + ([sep] + rest) == [s[0]] + tail;
    }
  }

  function JoinPieces(p: seq<string>, q: seq<string>): seq<string>
    requires p != [] && q != []
  {
    p[..|p| - 1] + [p[|p| - 1] + q[0]] + q[1..]
  }

  /** Joining two texts joins the last piece of the one with the first of the other. */
  lemma {:induction false} SplitConcat(a: string, b: string, sep: char)
    ensures Split(a + b, sep) == JoinPieces(Split(a, sep), Split(b, sep))
  {
    if a == "" {
      assert a + b == b;
      JoinNothing(Split(b, sep));
    } else {
      SplitConcat(a[1..], b, sep);
      SplitCons(a[0], a[1..], sep);
      SplitCons(a[0], a[1..] + b, sep);
      assert a == [a[0]] + a[1..] && a + b == [a[0]] + (a[1..] + b);
      ConsOntoJoin(a[0], Split(a[1..], sep), Split(b, sep), sep);
    }
  }

  lemma JoinNothing(q: seq<string>)
    requires q != []
    ensures JoinPieces([""], q) == q
  {
    assert "" + q[0] == q[0];
  }

  lemma TailOfThree(a: seq<string>, b: seq<string>, c: seq<string>)
    requires a != []
    ensures (a + b + c)[0] == a[0] && (a + b + c)[1..] == a[1..] + b + c
  {
  }

  lemma ConsThree(x: string, a: seq<string>, b: seq<string>, c: seq<string>)
    ensures [x] + (a + b + c) == ([x] + a) + b + c
  {
  }

  lemma InitOfCons(x: string, p: seq<string>)
    requires p != []
    ensures ([x] + p)[..|p|] == [x] + p[..|p| - 1] && ([x] + p)[|p|] == p[|p| - 1]
  {
  }

  lemma ConsOntoJoin(c: char, p: seq<string>, q: seq<string>, sep: char)
    requires p != [] && q != []
    ensures ConsOnto(c, JoinPieces(p, q), sep) == JoinPieces(ConsOnto(c, p, sep), q)
  {
    var first, middle := p[..|p| - 1], [p[|p| - 1] + q[0]];
    if c == sep {
      InitOfCons("", p);
      ConsThree("", first, middle, q[1..]);
    } else if |p| == 1 {
      assert [c] + (p[0] + q[0]) == ([c] + p[0]) + q[0];
    } else {
      InitOfCons([c] + p[0], p[1..]);
      TailOfThree(first, middle, q[1..]);
      ConsThree([c] + p[0], first[1..], middle, q[1..]);
      assert first[1..] == p[1..][..|p| - 2];
    }
  }
}
