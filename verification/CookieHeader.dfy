/** Reading the Cookie header: a name seen twice is no value at all. */
module CookieHeader {
  import opened Wrappers
  import opened JsText

  /** The header as the runtime presents it: absent, one string, or several. */
  datatype Header = Absent | Single(s: string) | Several(ss: seq<string>)

  function Segments(h: Header): seq<string> {
    match h
    case Absent => []
    case Single(s) => Split(s, ';')
    case Several(ss) => SplitAll(ss)
  }

  function SplitAll(ss: seq<string>): seq<string> {
    if ss == [] then [] else Split(ss[0], ';') + SplitAll(ss[1..])
  }

  /** The index of the first `=`, or the length when there is none. */
  function IndexOfEquals(s: string): (i: nat)
    ensures i <= |s| && '=' !in s[..i] && (i < |s| ==> s[i] == '=')
  {
    if s == "" || s[0] == '=' then 0 else 1 + IndexOfEquals(s[1..])
  }

  datatype Pair = Pair(name: string, value: string)

  /** A segment is a cookie when it has a name before its first `=`. */
  function PairOf(segment: string): Option<Pair> {
    var i := IndexOfEquals(segment);
    if i == 0 || i == |segment| then None
    else
      var name := Trim(segment[..i]);
      if name == "" then None else Some(Pair(name, Trim(segment[i + 1..])))
  }

  predicate Names(segment: string, name: string) {
    PairOf(segment).Some? && PairOf(segment).value.name == name
  }

  function Count(segments: seq<string>, name: string): nat {
    if segments == [] then 0
    else Count(segments[..|segments| - 1], name) + if Names(segments[|segments| - 1], name) then 1 else 0
  }

  /** The map a header parses to: a name is in it exactly when one well-formed segment
      carries it, with that segment's value. */
  ghost predicate Parses(segments: seq<string>, values: map<string, string>) {
    && (forall name :: name in values <==> Count(segments, name) == 1)
    && (forall s | s in segments && PairOf(s).Some? && PairOf(s).value.name in values ::
         values[PairOf(s).value.name] == PairOf(s).value.value)
  }

  /** What the loop knows of the segments it has read. */
  ghost predicate Seen(segments: seq<string>, values: map<string, string>, duplicated: set<string>) {
    Parses(segments, values) && forall name :: name in duplicated <==> Count(segments, name) >= 2
  }

  method ParseCookieHeader(h: Header) returns (values: map<string, string>)
    ensures Parses(Segments(h), values)
  {
    var segments := Segments(h);
    values := map[];
    var duplicated: set<string> := {};
    for i := 0 to |segments|
      invariant Seen(segments[..i], values, duplicated)
    {
      var segment := segments[i];
      assert segments[..i + 1] == segments[..i] + [segment];
      SeenNext(segments[..i], segment, values, duplicated);
      var separator := IndexOfEquals(segment);
      if separator == 0 || separator == |segment| {
        continue;
      }
      var name := Trim(segment[..separator]);
      if name == "" {
        continue;
      }
      var value := Trim(segment[separator + 1..]);
      if name in values || name in duplicated {
        values := values - {name};
        duplicated := duplicated + {name};
        continue;
      }
      values := values[name := value];
    }
    assert segments[..|segments|] == segments;
  }

  /** One more segment: no cookie, a name seen already, or a new one. */
  lemma SeenNext(before: seq<string>, s: string, values: map<string, string>, duplicated: set<string>)
    requires Seen(before, values, duplicated)
    ensures PairOf(s).None? ==> Seen(before + [s], values, duplicated)
    ensures PairOf(s).Some? ==>
      var p := PairOf(s).value;
      if p.name in values || p.name in duplicated then Seen(before + [s], values - {p.name}, duplicated + {p.name})
      else Seen(before + [s], values[p.name := p.value], duplicated)
  {
    CountSnoc(before, s);
    if PairOf(s).Some? && PairOf(s).value.name !in values && PairOf(s).value.name !in duplicated {
      NoneNamed(before, PairOf(s).value.name);
    }
  }

  /** Some segment gives the name a value that is not empty. */
  ghost predicate HoldsValue(segments: seq<string>, name: string) {
    exists s :: s in segments && Names(s, name) && PairOf(s).value.value != ""
  }

  method ReadCookie(h: Header, name: string) returns (r: Option<string>)
    ensures r.Some? <==> Count(Segments(h), name) == 1 && HoldsValue(Segments(h), name)
    ensures r.Some? ==> exists s :: s in Segments(h) && Names(s, name) && PairOf(s).value.value == r.value
  {
    var values := ParseCookieHeader(h);
    if name in values {
      OneNamed(Segments(h), name);
    }
    if name !in values || values[name] == "" {
      return None;
    }
    return Some(values[name]);
  }

  lemma CountSnoc(segments: seq<string>, s: string)
    ensures forall name :: Count(segments + [s], name) == Count(segments, name) + if Names(s, name) then 1 else 0
  {
    assert (segments + [s])[..|segments|] == segments;
  }

  lemma {:induction false} NoneNamed(segments: seq<string>, name: string)
    requires Count(segments, name) == 0
    ensures forall s | s in segments :: !Names(s, name)
  {
    if segments != [] {
      NoneNamed(segments[..|segments| - 1], name);
      assert forall s | s in segments :: s in segments[..|segments| - 1] || s == segments[|segments| - 1];
    }
  }

  lemma {:induction false} OneNamed(segments: seq<string>, name: string)
    requires Count(segments, name) >= 1
    ensures exists s :: s in segments && Names(s, name)
  {
    var n := |segments| - 1;
    if Names(segments[n], name) {
      assert segments[n] in segments;
    } else {
      OneNamed(segments[..n], name);
      var s :| s in segments[..n] && Names(s, name);
      assert s in segments;
    }
  }

  // ----- what a segment and a header say, in text ------------------------------------------

  /** The segment reads `name=value` with blanks around both; the name has no `=` and is not
      empty, the value may hold `=`. */
  ghost predicate Reads(segment: string, name: string, value: string) {
    && name != "" && Trimmed(name) && Trimmed(value) && '=' !in name
    && exists a, b, c, d | AllBlank(a) && AllBlank(b) && AllBlank(c) && AllBlank(d) ::
         segment == (a + name + b) + (['='] + (c + value + d))
  }

  lemma {:induction false} EqualsAt(before: string, after: string)
    requires '=' !in before
    ensures IndexOfEquals(before + (['='] + after)) == |before|
  {
    var all := before + (['='] + after);
    if before != "" {
      assert all[1..] == before[1..] + (['='] + after);
      EqualsAt(before[1..], after);
    }
  }

  lemma BlanksHoldNoEquals(s: string)
    requires AllBlank(s)
    ensures '=' !in s
  {
    BlankCodes('=');
  }

  /** A segment is a cookie exactly when it reads as a name and a value. */
  lemma PairExactly(segment: string, name: string, value: string)
    ensures PairOf(segment) == Some(Pair(name, value)) <==> Reads(segment, name, value)
  {
    if PairOf(segment) == Some(Pair(name, value)) { PairReads(segment, name, value); }
    if Reads(segment, name, value) {
      var a, b, c, d :| AllBlank(a) && AllBlank(b) && AllBlank(c) && AllBlank(d)
        && segment == (a + name + b) + (['='] + (c + value + d));
      BlanksHoldNoEquals(a);
      BlanksHoldNoEquals(b);
      TrimBetween(a, name, b);
      TrimBetween(c, value, d);
      PairOfParts(a + name + b, c + value + d);
    }
  }

  lemma PairOfParts(before: string, after: string)
    requires '=' !in before && Trim(before) != ""
    ensures PairOf(before + (['='] + after)) == Some(Pair(Trim(before), Trim(after)))
  {
    var segment := before + (['='] + after);
    EqualsAt(before, after);
    assert segment[..|before|] == before && segment[|before| + 1..] == after;
    if before == "" { TrimTrims(before); }
  }

  lemma PairReads(segment: string, name: string, value: string)
    requires PairOf(segment) == Some(Pair(name, value))
    ensures Reads(segment, name, value)
  {
    var i := IndexOfEquals(segment);
    var before, after := segment[..i], segment[i + 1..];
    var a, b := TrimParts(before);
    var c, d := TrimParts(after);
    CutAt(segment, i);
    MiddleHasNo(a, name, b, '=');
    assert segment == (a + name + b) + (['='] + (c + value + d));
  }

  lemma CutAt(s: string, i: nat)
    requires i < |s|
    ensures s == s[..i] + ([s[i]] + s[i + 1..])
  {
  }

  lemma MiddleHasNo(a: string, s: string, b: string, ch: char)
    requires ch !in a + s + b
    ensures ch !in s
  {
    assert forall i | 0 <= i < |s| :: s[i] == (a + s + b)[|a| + i];
  }

  /** The one segment that carries the name. */
  ghost predicate OnlyAt(segments: seq<string>, name: string, i: nat) {
    && i < |segments| && Names(segments[i], name)
    && forall j | 0 <= j < |segments| && j != i :: !Names(segments[j], name)
  }

  lemma {:induction false} NoneCounted(segments: seq<string>, name: string)
    ensures Count(segments, name) == 0 <==> forall i | 0 <= i < |segments| :: !Names(segments[i], name)
  {
    if segments != [] {
      var n := |segments| - 1;
      NoneCounted(segments[..n], name);
      assert forall i | 0 <= i < n :: segments[..n][i] == segments[i];
    }
  }

  lemma {:induction false} OneCounted(segments: seq<string>, name: string)
    ensures Count(segments, name) == 1 <==> exists i :: OnlyAt(segments, name, i)
  {
    if segments != [] {
      var prev := segments[..|segments| - 1];
      OneCounted(prev, name);
      NoneCounted(prev, name);
      OnlyAtSnoc(segments, name);
    }
  }

  lemma OnlyAtSnoc(segments: seq<string>, name: string)
    requires segments != []
    ensures var n := |segments| - 1;
      if Names(segments[n], name) then
        (exists i :: OnlyAt(segments, name, i)) <==> forall i | 0 <= i < n :: !Names(segments[..n][i], name)
      else forall i :: OnlyAt(segments, name, i) <==> OnlyAt(segments[..n], name, i)
  {
    var n := |segments| - 1;
    var prev := segments[..n];
    assert forall i | 0 <= i < n :: prev[i] == segments[i];
    if Names(segments[n], name) {
      if i :| OnlyAt(segments, name, i) { assert i == n; }
      if forall i | 0 <= i < n :: !Names(prev[i], name) { assert OnlyAt(segments, name, n); }
    }
  }

  /** The segment at `i` reads as this cookie, and no other segment as one of its name. */
  ghost predicate OnlyReads(segments: seq<string>, name: string, value: string, i: nat) {
    && i < |segments| && Reads(segments[i], name, value)
    && forall j, other | 0 <= j < |segments| && j != i :: !Reads(segments[j], name, other)
  }

  lemma NamesMeans(segment: string, name: string)
    ensures Names(segment, name) <==> exists value :: Reads(segment, name, value)
  {
    if Names(segment, name) { PairExactly(segment, name, PairOf(segment).value.value); }
    if value :| Reads(segment, name, value) { PairExactly(segment, name, value); }
  }

  lemma OnlyReadsMeans(segments: seq<string>, name: string, value: string, i: nat)
    ensures OnlyReads(segments, name, value, i)
      <==> OnlyAt(segments, name, i) && PairOf(segments[i]) == Some(Pair(name, value))
  {
    if i < |segments| { PairExactly(segments[i], name, value); }
    forall j | 0 <= j < |segments| ensures Names(segments[j], name) <==> exists v :: Reads(segments[j], name, v) {
      NamesMeans(segments[j], name);
    }
  }

  /** WHAT A HEADER PARSES TO. A name has a value exactly when one segment reads as that name and
      value, and no other segment reads as that name. */
  lemma ParsedExactly(segments: seq<string>, values: map<string, string>, name: string, value: string)
    requires Parses(segments, values)
    ensures name in values && values[name] == value <==> exists i :: OnlyReads(segments, name, value, i)
  {
    if name in values && values[name] == value {
      OneCounted(segments, name);
      var i :| OnlyAt(segments, name, i);
      ValueIsThere(segments, values, name, i);
      OnlyReadsMeans(segments, name, value, i);
    }
    if i: nat :| OnlyReads(segments, name, value, i) {
      OnlyReadsMeans(segments, name, value, i);
      ValueIsThere(segments, values, name, i);
    }
  }

  lemma ValueIsThere(segments: seq<string>, values: map<string, string>, name: string, i: nat)
    requires Parses(segments, values) && OnlyAt(segments, name, i)
    ensures name in values && PairOf(segments[i]) == Some(Pair(name, values[name]))
  {
    OneCounted(segments, name);
    assert segments[i] in segments;
  }

  function JoinLines(lines: seq<string>): string
    requires lines != []
  {
    if |lines| == 1 then lines[0] else lines[0] + ([';'] + JoinLines(lines[1..]))
  }

  /** Several header lines read as one line in which they are joined by semicolons. */
  lemma {:induction false} SeveralLinesReadAsOne(lines: seq<string>)
    requires lines != []
    ensures Segments(Several(lines)) == Segments(Single(JoinLines(lines)))
  {
    if |lines| == 1 {
      assert SplitAll(lines) == Split(lines[0], ';') + [] == Split(lines[0], ';');
    } else {
      SeveralLinesReadAsOne(lines[1..]);
      SplitAppends(lines[0], JoinLines(lines[1..]), ';');
    }
  }

  // ----- what order and additions can do ------------------------------------------------

  lemma {:induction false} CountAppends(a: seq<string>, b: seq<string>, name: string)
    ensures Count(a + b, name) == Count(a, name) + Count(b, name)
  {
    if b == [] {
      assert a + b == a;
    } else {
      var n := |b| - 1;
      CountAppends(a, b[..n], name);
      assert a + b == (a + b[..n]) + [b[n]];
      CountSnoc(a + b[..n], b[n]);
    }
  }

  /** Only which segments there are counts, not their order. */
  lemma {:induction false} CountIgnoresOrder(a: seq<string>, b: seq<string>, name: string)
    requires multiset(a) == multiset(b)
    ensures Count(a, name) == Count(b, name)
    decreases |a|
  {
    if a == [] {
      assert |multiset(b)| == 0;
    } else {
      var n := |a| - 1;
      var last := a[n];
      assert last in multiset(b);
      var k :| 0 <= k < |b| && b[k] == last;
      RestOfMultiset(a, n);
      RestOfMultiset(b, k);
      assert a[..n] + a[n + 1..] == a[..n];
      CountIgnoresOrder(a[..n], b[..k] + b[k + 1..], name);
      CountWithout(a, n, name);
      CountWithout(b, k, name);
    }
  }

  lemma RestOfMultiset(s: seq<string>, k: nat)
    requires k < |s|
    ensures multiset(s[..k] + s[k + 1..]) == multiset(s) - multiset{s[k]}
  {
    assert s == s[..k] + [s[k]] + s[k + 1..];
  }

  lemma CountWithout(s: seq<string>, k: nat, name: string)
    requires k < |s|
    ensures Count(s, name) == Count(s[..k] + s[k + 1..], name) + if Names(s[k], name) then 1 else 0
  {
    assert s == s[..k] + [s[k]] + s[k + 1..];
    CountSnoc(s[..k], s[k]);
    CountAppends(s[..k] + [s[k]], s[k + 1..], name);
    CountAppends(s[..k], s[k + 1..], name);
  }

  lemma PermutationParsesAlike(a: seq<string>, b: seq<string>, v: map<string, string>, w: map<string, string>)
    requires multiset(a) == multiset(b) && Parses(a, v) && Parses(b, w)
    ensures v == w
  {
    forall name ensures name in v <==> name in w { CountIgnoresOrder(a, b, name); }
    forall name | name in v ensures v[name] == w[name] {
      OneNamed(a, name);
      var s :| s in a && Names(s, name);
      assert s in multiset(b);
    }
  }

  /** Segments put before and after a header can remove a name from the result but never
      give it another value; and they remove it exactly when one of them carries it. */
  lemma AdditionsNeverReplace(before: seq<string>, h: seq<string>, after: seq<string>,
                              v: map<string, string>, w: map<string, string>, name: string)
    requires Parses(h, v) && Parses(before + h + after, w) && name in v
    ensures name in w <==> Count(before, name) + Count(after, name) == 0
    ensures name in w ==> w[name] == v[name]
  {
    CountAppends(before + h, after, name);
    CountAppends(before, h, name);
    OneNamed(h, name);
    var s :| s in h && Names(s, name);
    assert s in before + h + after;
  }

  /** What can be put before a header: nothing, or text that ends a segment. */
  predicate EndsSegment(text: string) { text == "" || text[|text| - 1] == ';' }

  /** What can be put after a header: nothing, or text that starts a segment. */
  predicate StartsSegment(text: string) { text == "" || text[0] == ';' }

  function SegmentsBefore(text: string): seq<string>
    requires EndsSegment(text)
  {
    if text == "" then [] else Split(text[..|text| - 1], ';')
  }

  function SegmentsAfter(text: string): seq<string>
    requires StartsSegment(text)
  {
    if text == "" then [] else Split(text[1..], ';')
  }

  lemma SegmentsInFront(before: string, rest: string)
    requires EndsSegment(before)
    ensures Split(before + rest, ';') == SegmentsBefore(before) + Split(rest, ';')
  {
    if before == "" {
      assert before + rest == rest;
    } else {
      assert before + rest == before[..|before| - 1] + ([';'] + rest);
      SplitAppends(before[..|before| - 1], rest, ';');
    }
  }

  lemma SegmentsBehind(h: string, after: string)
    requires StartsSegment(after)
    ensures Split(h + after, ';') == Split(h, ';') + SegmentsAfter(after)
  {
    if after == "" {
      assert h + after == h;
    } else {
      assert h + after == h + ([';'] + after[1..]);
      SplitAppends(h, after[1..], ';');
    }
  }

  lemma SegmentsOfText(before: string, h: string, after: string)
    requires EndsSegment(before) && StartsSegment(after)
    ensures Split(before + h + after, ';') == SegmentsBefore(before) + Split(h, ';') + SegmentsAfter(after)
  {
    assert before + h + after == before + (h + after);
    SegmentsInFront(before, h + after);
    SegmentsBehind(h, after);
  }

  /** Text put before or after a header, a semicolon between, never gives one of its names
      another value, and takes the name away exactly when it carries it. */
  lemma TextAroundNeverReplaces(before: string, h: string, after: string,
                                v: map<string, string>, w: map<string, string>, name: string)
    requires EndsSegment(before) && StartsSegment(after)
    requires Parses(Segments(Single(h)), v) && Parses(Segments(Single(before + h + after)), w) && name in v
    ensures name in w <==> Count(SegmentsBefore(before), name) + Count(SegmentsAfter(after), name) == 0
    ensures name in w ==> w[name] == v[name]
  {
    SegmentsOfText(before, h, after);
    AdditionsNeverReplace(SegmentsBefore(before), Split(h, ';'), SegmentsAfter(after), v, w, name);
  }

  /** Any text at all, even without a semicolon, only reaches the outermost segments: a name
      that neither the first nor the last segment carries keeps its value or is taken away. */
  lemma AnyTextReachesOutermostSegmentsOnly(before: string, h: string, after: string,
                                            v: map<string, string>, w: map<string, string>, name: string)
    requires Parses(Segments(Single(h)), v) && Parses(Segments(Single(before + h + after)), w) && name in v
    requires var segments := Split(h, ';'); !Names(segments[0], name) && !Names(segments[|segments| - 1], name)
    ensures name in w ==> w[name] == v[name]
  {
    var i := InnerNamed(Split(h, ';'), name);
    InnerSegmentsStay(before, h, after, i);
    KeepsValueOf(Split(h, ';'), Split(before + h + after, ';'), v, w, name, i);
  }

  lemma InnerNamed(segments: seq<string>, name: string) returns (i: nat)
    requires Count(segments, name) == 1 && segments != []
    requires !Names(segments[0], name) && !Names(segments[|segments| - 1], name)
    ensures 0 < i < |segments| - 1 && Names(segments[i], name)
  {
    OneNamed(segments, name);
    var s :| s in segments && Names(s, name);
    i :| 0 <= i < |segments| && segments[i] == s;
  }

  lemma KeepsValueOf(a: seq<string>, b: seq<string>, v: map<string, string>, w: map<string, string>,
                     name: string, i: nat)
    requires Parses(a, v) && Parses(b, w) && name in v && i < |a| && Names(a[i], name) && a[i] in b
    ensures name in w ==> w[name] == v[name]
  {
    assert a[i] in a;
  }

  lemma InnerSegmentsStay(before: string, h: string, after: string, i: nat)
    requires 0 < i < |Split(h, ';')| - 1
    ensures Split(h, ';')[i] in Split(before + h + after, ';')
  {
    var x := h + after;
    SplitConcat(h, after, ';');
    InnerPiece(Split(h, ';'), Split(after, ';'), i);
    SplitConcat(before, x, ';');
    LaterPiece(Split(before, ';'), Split(x, ';'), i);
    assert before + h + after == before + x;
  }

  lemma InnerPiece(p: seq<string>, q: seq<string>, i: nat)
    requires q != [] && i < |p| - 1
    ensures JoinPieces(p, q)[i] == p[i]
  {
  }

  lemma LaterPiece(p: seq<string>, q: seq<string>, i: nat)
    requires p != [] && 0 < i < |q|
    ensures q[i] in JoinPieces(p, q)
  {
    assert JoinPieces(p, q)[|p| - 1 + i] == q[i];
  }

  // ----- round trip ------------------------------------------------------------------------

  /** Names and values as they are sent: no separators inside, nothing to trim. */
  ghost predicate Sendable(p: Pair) {
    && p.name != "" && Trimmed(p.name) && '=' !in p.name && ';' !in p.name
    && Trimmed(p.value) && ';' !in p.value
  }

  /** The header of section 4.2.1 of RFC 6265: pairs joined by a semicolon and a space. */
  function Serialise(ps: seq<Pair>): string {
    if ps == [] then ""
    else if |ps| == 1 then ps[0].name + "=" + ps[0].value
    else ps[0].name + "=" + ps[0].value + "; " + Serialise(ps[1..])
  }

  lemma {:induction false} EqualsAfter(name: string, value: string)
    requires '=' !in name
    ensures IndexOfEquals(name + "=" + value) == |name|
  {
    var all := name + "=" + value;
    if name != "" {
      assert all[1..] == name[1..] + "=" + value;
      EqualsAfter(name[1..], value);
    }
  }

  lemma PairOfSent(p: Pair, space: string)
    requires Sendable(p) && (space == "" || space == " ")
    ensures PairOf(space + (p.name + "=" + p.value)) == Some(p)
  {
    var segment := space + (p.name + "=" + p.value);
    var lead := space + p.name;
    assert segment == lead + "=" + p.value;
    EqualsAfter(lead, p.value);
    assert segment[..|lead|] == lead && segment[|lead| + 1..] == p.value;
    TrimTrims(p.name);
    TrimTrims(p.value);
    TrimSpace(p.name, space);
  }

  lemma TrimSpace(s: string, space: string)
    requires space == "" || space == " "
    ensures Trim(space + s) == Trim(s)
  {
    if space == " " {
      assert (space + s)[1..] == s;
    } else {
      assert space + s == s;
    }
  }

  lemma SerialiseCons(ps: seq<Pair>, space: string)
    requires |ps| > 1
    ensures space + Serialise(ps) == (space + (ps[0].name + "=" + ps[0].value)) + [';'] + (" " + Serialise(ps[1..]))
  {
    Regroup(space, ps[0].name + "=" + ps[0].value, Serialise(ps[1..]));
  }

  lemma Regroup(a: string, b: string, c: string)
    ensures a + (b + "; " + c) == (a + b) + [';'] + (" " + c)
  {
    assert "; " == [';'] + " ";
  }

  /** The segments of a sent header are its pairs, in order; each but the first opens with
      the space after a semicolon. */
  ghost predicate Carries(segments: seq<string>, ps: seq<Pair>) {
    |segments| == |ps| && forall i | 0 <= i < |ps| :: PairOf(segments[i]) == Some(ps[i])
  }

  lemma {:induction false} SegmentsOfSent(ps: seq<Pair>, space: string)
    requires ps != [] && (space == "" || space == " ") && forall p | p in ps :: Sendable(p)
    ensures Carries(Split(space + Serialise(ps), ';'), ps)
    decreases |ps|
  {
    var first := space + (ps[0].name + "=" + ps[0].value);
    assert ps[0] in ps && ';' !in first;
    PairOfSent(ps[0], space);
    if |ps| == 1 {
      SplitWithout(first, ';');
    } else {
      SegmentsOfSent(ps[1..], " ");
      SerialiseCons(ps, space);
      SplitFirst(first, " " + Serialise(ps[1..]), ';');
      CarriesCons(first, Split(" " + Serialise(ps[1..]), ';'), ps);
    }
  }

  lemma CarriesCons(first: string, rest: seq<string>, ps: seq<Pair>)
    requires ps != [] && PairOf(first) == Some(ps[0]) && Carries(rest, ps[1..])
    ensures Carries([first] + rest, ps)
  {
    forall i | 0 <= i < |ps| ensures PairOf(([first] + rest)[i]) == Some(ps[i]) {
      if i > 0 { assert PairOf(rest[i - 1]) == Some(ps[1..][i - 1]); }
    }
  }

  /** Serialising distinct pairs and parsing gives them back, and nothing else. */
  lemma SentPairsComeBack(ps: seq<Pair>, values: map<string, string>)
    requires forall p | p in ps :: Sendable(p)
    requires forall i, j | 0 <= i < j < |ps| :: ps[i].name != ps[j].name
    requires Parses(Segments(Single(Serialise(ps))), values)
    ensures forall p | p in ps :: p.name in values && values[p.name] == p.value
    ensures forall name | name in values :: exists p :: p in ps && p.name == name
  {
    var segments := Split(Serialise(ps), ';');
    if ps == [] {
      assert segments == [""];
      forall name ensures Count(segments, name) == 0 { assert segments[..0] == [] && !Names("", name); }
    } else {
      SegmentsOfSent(ps, "");
      assert "" + Serialise(ps) == Serialise(ps);
      CarriedPairsParse(ps, segments, values);
    }
  }

  lemma CarriedPairsParse(ps: seq<Pair>, segments: seq<string>, values: map<string, string>)
    requires Carries(segments, ps) && Parses(segments, values)
    requires forall i, j | 0 <= i < j < |ps| :: ps[i].name != ps[j].name
    ensures forall p | p in ps :: p.name in values && values[p.name] == p.value
    ensures forall name | name in values :: exists p :: p in ps && p.name == name
  {
    forall i | 0 <= i < |ps| ensures ps[i].name in values && values[ps[i].name] == ps[i].value {
      CountOfSent(ps, segments, i);
      assert segments[i] in segments;
    }
    forall name | name in values ensures exists p :: p in ps && p.name == name {
      OneNamed(segments, name);
      var s :| s in segments && Names(s, name);
      var i :| 0 <= i < |segments| && segments[i] == s;
      assert ps[i] in ps;
    }
  }

  lemma {:induction false} CountOfSent(ps: seq<Pair>, segments: seq<string>, i: nat)
    requires |segments| == |ps| && i < |ps| && forall k | 0 <= k < |ps| :: PairOf(segments[k]) == Some(ps[k])
    requires forall a, b | 0 <= a < b < |ps| :: ps[a].name != ps[b].name
    ensures Count(segments, ps[i].name) == 1
  {
    var n := |ps| - 1;
    if i == n {
      CountNone(ps[..n], segments[..n], ps[n].name);
    } else {
      CountOfSent(ps[..n], segments[..n], i);
    }
  }

  lemma {:induction false} CountNone(ps: seq<Pair>, segments: seq<string>, name: string)
    requires |segments| == |ps| && forall k | 0 <= k < |ps| :: PairOf(segments[k]) == Some(ps[k]) && ps[k].name != name
    ensures Count(segments, name) == 0
  {
    if ps != [] { CountNone(ps[..|ps| - 1], segments[..|ps| - 1], name); }
  }
}
