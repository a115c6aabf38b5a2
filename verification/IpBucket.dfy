/** The address a per-address limit is keyed by: an IPv4 address, or an IPv6 /64. */
module IpBucket {
  import opened JsText

  function Lower(s: string): (t: string)
    ensures |t| == |s|
  {
    if s == "" then "" else [LowerChar(s[0])] + Lower(s[1..])
  }

  function LowerChar(c: char): char {
    if 'A' <= c <= 'Z' then (c as int + 32) as char else c
  }

  predicate IsDigit(c: char) { '0' <= c <= '9' }

  /** Four groups of one to three decimal digits. */
  predicate IsDottedQuad(s: string) {
    var parts := Split(s, '.');
    |parts| == 4 && forall p | p in parts :: 1 <= |p| <= 3 && forall c | c in p :: IsDigit(c)
  }

  predicate IsMapped(address: string) {
    |address| >= 7 && Lower(address[..7]) == "::ffff:" && IsDottedQuad(address[7..])
  }

  function NormaliseIp(address: string): string {
    if IsMapped(address) then address[7..]
    else
      var lower := Lower(address);
      if ':' !in lower then lower else ExpandIpv6Prefix(lower) + "::/64"
  }

  /** The index of the first `::`, or the length when there is none. */
  function DoubleColon(s: string): (i: nat)
    ensures i <= |s|
  {
    if |s| < 2 then |s| else if s[0] == ':' && s[1] == ':' then 0 else 1 + DoubleColon(s[1..])
  }

  function Parts(s: string): seq<string> {
    if s == "" then [] else Split(s, ':')
  }

  function Zeros(n: nat): seq<string> {
    seq(n, i => "0")
  }

  /** Leading zeros go, the last digit stays; an empty group is zero. */
  function Canonical(part: string): string {
    if part == "" then "0" else Strip(part)
  }

  function Strip(part: string): string {
    if |part| > 1 && part[0] == '0' then Strip(part[1..]) else part
  }

  function CanonicalAll(parts: seq<string>): seq<string> {
    seq(|parts|, i requires 0 <= i < |parts| => Canonical(parts[i]))
  }

  function Join(parts: seq<string>, sep: char): string {
    if parts == [] then "" else if |parts| == 1 then parts[0] else parts[0] + [sep] + Join(parts[1..], sep)
  }

  function FirstFour(parts: seq<string>): seq<string> {
    if |parts| <= 4 then parts else parts[..4]
  }

  /** All hextets, `::` written out. */
  function Hextets(address: string): seq<string> {
    var i := DoubleColon(address);
    if |address| < 2 || i > |address| - 2 then Parts(address)
    else
      var after := address[i + 2..];
      var j := DoubleColon(after);
      var head, tail := Parts(address[..i]), Parts(if |after| >= 2 && j <= |after| - 2 then after[..j] else after);
      head + Zeros(if |head| + |tail| <= 8 then 8 - |head| - |tail| else 0) + tail
  }

  function ExpandIpv6Prefix(address: string): string {
    Join(CanonicalAll(FirstFour(Hextets(address))), ':')
  }

  // ----- addresses and their spellings ----------------------------------------------------

  predicate IsHex(c: char) { IsDigit(c) || 'a' <= c <= 'f' || 'A' <= c <= 'F' }

  /** One to four hexadecimal digits. */
  ghost predicate IsGroup(s: string) { 1 <= |s| <= 4 && AllHex(s) }

  ghost predicate AreGroups(ss: seq<string>) { forall i | 0 <= i < |ss| :: IsGroup(ss[i]) }

  /** The text forms 1 and 2 of section 2.2 of RFC 4291. */
  datatype Spelling = Full(groups: seq<string>) | Compressed(head: seq<string>, tail: seq<string>)

  ghost predicate Legal(sp: Spelling) {
    match sp
    case Full(groups) => |groups| == 8 && AreGroups(groups)
    case Compressed(head, tail) => |head| + |tail| <= 7 && AreGroups(head) && AreGroups(tail)
  }

  function Text(sp: Spelling): string {
    match sp
    case Full(groups) => Join(groups, ':')
    case Compressed(head, tail) => Join(head, ':') + "::" + Join(tail, ':')
  }

  function HexDigit(c: char): nat {
    if IsDigit(c) then c as int - '0' as int
    else if 'a' <= c <= 'f' then c as int - 'a' as int + 10
    else if 'A' <= c <= 'F' then c as int - 'A' as int + 10
    else 0
  }

  function HexValue(s: string): nat {
    if s == "" then 0 else HexValue(s[..|s| - 1]) * 16 + HexDigit(s[|s| - 1])
  }

  function HexValues(ss: seq<string>): seq<nat> {
    seq(|ss|, i requires 0 <= i < |ss| => HexValue(ss[i]))
  }

  function ZeroGroups(n: nat): seq<nat> {
    seq(n, i => 0)
  }

  /** The eight 16-bit groups a spelling stands for. */
  function Address(sp: Spelling): seq<nat>
    requires sp.Compressed? ==> |sp.head| + |sp.tail| <= 8
  {
    match sp
    case Full(groups) => HexValues(groups)
    case Compressed(head, tail) => HexValues(head) + ZeroGroups(8 - |head| - |tail|) + HexValues(tail)
  }

  /** A group in lower-case hexadecimal without leading zeros. */
  function Hex(v: nat): string {
    if v < 16 then [HexChar(v)] else Hex(v / 16) + [HexChar(v % 16)]
  }

  function HexAll(vs: seq<nat>): seq<string> {
    seq(|vs|, i requires 0 <= i < |vs| => Hex(vs[i]))
  }

  /** The bucket of the top 64 bits. */
  function Bucket(top: seq<nat>): string {
    Join(HexAll(top), ':') + "::/64"
  }

  // ----- groups ---------------------------------------------------------------------------

  predicate AllZeros(s: string) { s == "" || (s[0] == '0' && AllZeros(s[1..])) }

  lemma {:induction false} AllZerosSnoc(p: string, c: char)
    ensures AllZeros(p + [c]) <==> AllZeros(p) && c == '0'
  {
    if p == "" {
      assert p + [c] == [c];
    } else {
      assert (p + [c])[1..] == p[1..] + [c];
      AllZerosSnoc(p[1..], c);
    }
  }

  lemma {:induction false} StripSnoc(p: string, c: char)
    requires p != ""
    ensures Strip(p + [c]) == if AllZeros(p) then [c] else Strip(p) + [c]
  {
    assert (p + [c])[1..] == p[1..] + [c];
    if p[0] == '0' {
      if |p| == 1 {
        assert p[1..] + [c] == [c];
      } else {
        StripSnoc(p[1..], c);
      }
    }
  }

  ghost predicate AllHex(s: string) { forall i | 0 <= i < |s| :: IsHex(s[i]) }

  lemma {:induction false} ZeroIsZeros(s: string)
    requires AllHex(s)
    ensures HexValue(s) == 0 <==> AllZeros(s)
  {
    if s != "" {
      var n := |s| - 1;
      assert s == s[..n] + [s[n]];
      ZeroIsZeros(s[..n]);
      AllZerosSnoc(s[..n], s[n]);
    }
  }

  lemma {:induction false} LowerAt(s: string)
    ensures forall i | 0 <= i < |s| :: Lower(s)[i] == LowerChar(s[i])
  {
    if s != "" { LowerAt(s[1..]); }
  }

  lemma {:induction false} LowerAppends(a: string, b: string)
    ensures Lower(a + b) == Lower(a) + Lower(b)
  {
    if a == "" {
      assert a + b == b;
    } else {
      assert a + b == [a[0]] + (a[1..] + b);
      LowerAppends(a[1..], b);
    }
  }

  lemma LowerOfDigit(c: char)
    requires IsHex(c)
    ensures LowerChar(c) == HexChar(HexDigit(c)) && HexDigit(c) < 16
    ensures LowerChar(c) == '0' <==> c == '0'
  {
  }

  lemma HexValueSnoc(p: string, c: char)
    ensures HexValue(p + [c]) == HexValue(p) * 16 + HexDigit(c)
  {
    assert (p + [c])[..|p|] == p;
  }

  lemma LowerSnoc(p: string, c: char)
    ensures Lower(p + [c]) == Lower(p) + [LowerChar(c)]
  {
    LowerAppends(p, [c]);
    assert Lower([c]) == [LowerChar(c)];
  }

  lemma OneDigit(c: char)
    requires IsHex(c)
    ensures Lower([c]) == Hex(HexValue([c]))
  {
    LowerOfDigit(c);
    LowerSnoc("", c);
    HexValueSnoc("", c);
    assert "" + [c] == [c];
  }

  /** However a group is written, its bucket form is the value's own. */
  lemma {:induction false} GroupIsCanonical(s: string)
    requires s != "" && AllHex(s)
    ensures Canonical(Lower(s)) == Hex(HexValue(s))
  {
    var p, c := s[..|s| - 1], s[|s| - 1];
    assert s == p + [c];
    if p == "" {
      OneDigit(c);
    } else {
      GroupIsCanonical(p);
      LongGroup(p, c);
      LowerSnoc(p, c);
      HexValueSnoc(p, c);
    }
  }

  lemma LongGroup(p: string, c: char)
    requires p != "" && AllHex(p) && IsHex(c)
    requires Strip(Lower(p)) == Hex(HexValue(p))
    ensures Strip(Lower(p) + [LowerChar(c)]) == Hex(HexValue(p) * 16 + HexDigit(c))
  {
    LowerOfDigit(c);
    StripSnoc(Lower(p), LowerChar(c));
    ZeroIsZeros(p);
    LowerKeepsZeros(p);
    HexSnoc(HexValue(p), HexDigit(c));
  }

  lemma {:induction false} LowerKeepsZeros(p: string)
    requires AllHex(p)
    ensures AllZeros(Lower(p)) <==> AllZeros(p)
  {
    if p != "" {
      LowerOfDigit(p[0]);
      LowerKeepsZeros(p[1..]);
      assert Lower(p) == [LowerChar(p[0])] + Lower(p[1..]);
    }
  }

  lemma HexSnoc(v: nat, d: nat)
    requires d < 16
    ensures Hex(v * 16 + d) == if v == 0 then [HexChar(d)] else Hex(v) + [HexChar(d)]
  {
    assert (v * 16 + d) / 16 == v && (v * 16 + d) % 16 == d;
  }

  lemma {:induction false} HexReads(v: nat)
    ensures HexValue(Hex(v)) == v && Hex(v) != "" && ':' !in Hex(v)
  {
    if v < 16 {
      assert [HexChar(v)][..0] == "";
    } else {
      HexReads(v / 16);
      var h := Hex(v / 16) + [HexChar(v % 16)];
      assert h[..|h| - 1] == Hex(v / 16);
    }
  }

  // ----- joining and splitting ------------------------------------------------------------

  /** No part is empty or holds the separator. */
  ghost predicate ColonFree(parts: seq<string>) {
    forall i | 0 <= i < |parts| :: parts[i] != "" && ':' !in parts[i]
  }

  lemma {:induction false} SplitJoin(parts: seq<string>)
    requires ColonFree(parts)
    ensures Parts(Join(parts, ':')) == parts
    ensures parts != [] ==> Join(parts, ':') != ""
  {
    if |parts| == 1 {
      SplitWithout(parts[0], ':');
    } else if |parts| > 1 {
      SplitJoin(parts[1..]);
      SplitFirst(parts[0], Join(parts[1..], ':'), ':');
    }
  }

  /** No two colons in a row, and none at either end. */
  ghost predicate SingleColons(s: string) {
    && (s != "" ==> s[0] != ':' && s[|s| - 1] != ':')
    && forall i | 0 < i < |s| :: !(s[i - 1] == ':' && s[i] == ':')
  }

  lemma {:induction false} JoinIsSingle(parts: seq<string>)
    requires ColonFree(parts)
    ensures SingleColons(Join(parts, ':'))
  {
    if |parts| > 1 {
      var rest := Join(parts[1..], ':');
      JoinIsSingle(parts[1..]);
      SplitJoin(parts[1..]);
      var all := Join(parts, ':');
      assert all == parts[0] + [':'] + rest;
      assert forall i | |parts[0]| < i < |all| :: all[i] == rest[i - |parts[0]| - 1];
    }
  }

  lemma {:induction false} NoDoubleColon(s: string)
    requires forall i | 0 < i < |s| :: !(s[i - 1] == ':' && s[i] == ':')
    ensures DoubleColon(s) == |s|
  {
    if |s| >= 2 {
      assert !(s[1 - 1] == ':' && s[1] == ':');
      forall i | 0 < i < |s[1..]| ensures !(s[1..][i - 1] == ':' && s[1..][i] == ':') {
        assert s[1..][i - 1] == s[i + 1 - 1] && s[1..][i] == s[i + 1];
      }
      NoDoubleColon(s[1..]);
    }
  }

  lemma {:induction false} FirstDoubleColon(a: string, b: string)
    requires a != "" ==> a[|a| - 1] != ':'
    requires forall i | 0 < i < |a| :: !(a[i - 1] == ':' && a[i] == ':')
    ensures DoubleColon(a + "::" + b) == |a|
  {
    var s := a + "::" + b;
    if a != "" {
      assert s[1..] == a[1..] + "::" + b;
      if |a| > 1 {
        assert s[0] == a[1 - 1] && s[1] == a[1];
        forall i | 0 < i < |a[1..]| ensures !(a[1..][i - 1] == ':' && a[1..][i] == ':') {
          assert a[1..][i - 1] == a[i + 1 - 1] && a[1..][i] == a[i + 1];
        }
      }
      FirstDoubleColon(a[1..], b);
    }
  }

  // ----- one bucket per /64 ---------------------------------------------------------------

  function LowerAll(ss: seq<string>): seq<string> {
    seq(|ss|, i requires 0 <= i < |ss| => Lower(ss[i]))
  }

  lemma {:induction false} LowerJoin(parts: seq<string>)
    ensures Lower(Join(parts, ':')) == Join(LowerAll(parts), ':')
  {
    if |parts| > 1 {
      LowerJoin(parts[1..]);
      assert LowerAll(parts)[1..] == LowerAll(parts[1..]);
      LowerAppends(parts[0] + [':'], Join(parts[1..], ':'));
      LowerAppends(parts[0], [':']);
      assert Lower([':']) == [':'];
    }
  }

  lemma LoweredGroups(groups: seq<string>)
    requires AreGroups(groups)
    ensures ColonFree(LowerAll(groups)) && ColonFree(groups)
    ensures CanonicalAll(LowerAll(groups)) == HexAll(HexValues(groups))
  {
    forall i | 0 <= i < |groups|
      ensures ':' !in groups[i] && ':' !in Lower(groups[i]) && Canonical(Lower(groups[i])) == Hex(HexValue(groups[i]))
    {
      GroupIsCanonical(groups[i]);
      LowerAt(groups[i]);
      forall j | 0 <= j < |groups[i]| ensures Lower(groups[i])[j] != ':' { LowerOfDigit(groups[i][j]); }
    }
  }

  lemma {:induction false} JoinHasNoDot(groups: seq<string>)
    requires AreGroups(groups)
    ensures '.' !in Join(groups, ':')
  {
    if |groups| > 1 { JoinHasNoDot(groups[1..]); }
  }

  lemma NoDotIsNotMapped(address: string)
    requires '.' !in address
    ensures !IsMapped(address)
  {
    if |address| >= 7 { SplitWithout(address[7..], '.'); }
  }

  lemma ColonStays(address: string, i: nat)
    requires i < |address| && address[i] == ':'
    ensures ':' in Lower(address)
  {
    LowerAt(address);
    assert Lower(address)[i] == ':';
  }

  lemma ExpandFull(groups: seq<string>)
    requires |groups| == 8 && AreGroups(groups)
    ensures ExpandIpv6Prefix(Join(LowerAll(groups), ':')) == Join(HexAll(HexValues(groups)[..4]), ':')
  {
    var parts := LowerAll(groups);
    LoweredGroups(groups);
    SplitJoin(parts);
    JoinIsSingle(parts);
    NoDoubleColon(Join(parts, ':'));
    assert CanonicalAll(parts[..4]) == CanonicalAll(parts)[..4] == HexAll(HexValues(groups)[..4]);
  }

  lemma ExpandCompressed(head: seq<string>, tail: seq<string>, n: nat)
    requires |head| + n + |tail| == 8 && AreGroups(head) && AreGroups(tail)
    ensures ExpandIpv6Prefix(Join(LowerAll(head), ':') + "::" + Join(LowerAll(tail), ':'))
         == Join(HexAll((HexValues(head) + ZeroGroups(n) + HexValues(tail))[..4]), ':')
  {
    Canonicalised(head, tail, n);
    LoweredGroups(head);
    LoweredGroups(tail);
    ExpandAroundDoubleColon(LowerAll(head), LowerAll(tail), n);
  }

  lemma HextetsAround(address: string, a: string, b: string)
    requires address == a + "::" + b && DoubleColon(address) == |a| && DoubleColon(b) == |b|
    requires |Parts(a)| + |Parts(b)| <= 8
    ensures Hextets(address) == Parts(a) + Zeros(8 - |Parts(a)| - |Parts(b)|) + Parts(b)
  {
    assert address[..|a|] == a && address[|a| + 2..] == b;
  }

  lemma OneDoubleColon(h: seq<string>, t: seq<string>)
    requires ColonFree(h) && ColonFree(t)
    ensures var a, b := Join(h, ':'), Join(t, ':');
      DoubleColon(a + "::" + b) == |a| && DoubleColon(b) == |b|
  {
    JoinIsSingle(h);
    JoinIsSingle(t);
    FirstDoubleColon(Join(h, ':'), Join(t, ':'));
    NoDoubleColon(Join(t, ':'));
  }

  /** The two sides of a double colon, and zeros between them. */
  lemma ExpandAroundDoubleColon(h: seq<string>, t: seq<string>, n: nat)
    requires ColonFree(h) && ColonFree(t) && |h| + n + |t| == 8
    ensures ExpandIpv6Prefix(Join(h, ':') + "::" + Join(t, ':')) == Join(CanonicalAll(FirstFour(h + Zeros(n) + t)), ':')
  {
    var a, b := Join(h, ':'), Join(t, ':');
    SplitJoin(h);
    SplitJoin(t);
    OneDoubleColon(h, t);
    HextetsAround(a + "::" + b, a, b);
  }

  lemma Canonicalised(head: seq<string>, tail: seq<string>, n: nat)
    requires |head| + n + |tail| == 8 && AreGroups(head) && AreGroups(tail)
    ensures CanonicalAll(FirstFour(LowerAll(head) + Zeros(n) + LowerAll(tail)))
         == HexAll((HexValues(head) + ZeroGroups(n) + HexValues(tail))[..4])
  {
    LoweredGroups(head);
    LoweredGroups(tail);
    var full := LowerAll(head) + Zeros(n) + LowerAll(tail);
    var top := HexValues(head) + ZeroGroups(n) + HexValues(tail);
    assert Canonical("0") == Hex(0);
    forall i | 0 <= i < 4 ensures Canonical(full[i]) == Hex(top[i]) {
      if i < |head| {
        assert CanonicalAll(LowerAll(head))[i] == HexAll(HexValues(head))[i];
      } else if i >= |head| + n {
        var k := i - |head| - n;
        assert CanonicalAll(LowerAll(tail))[k] == HexAll(HexValues(tail))[k];
      }
    }
  }

  lemma LowerText(head: seq<string>, tail: seq<string>)
    ensures Lower(Join(head, ':') + "::" + Join(tail, ':'))
         == Join(LowerAll(head), ':') + "::" + Join(LowerAll(tail), ':')
  {
    LowerAppends(Join(head, ':') + "::", Join(tail, ':'));
    LowerAppends(Join(head, ':'), "::");
    assert Lower("::") == "::";
    LowerJoin(head);
    LowerJoin(tail);
  }

  lemma UnmappedBucket(address: string, lower: string, top: seq<nat>)
    requires !IsMapped(address) && lower == Lower(address) && ':' in lower
    requires ExpandIpv6Prefix(lower) == Join(HexAll(top), ':')
    ensures NormaliseIp(address) == Bucket(top)
  {
  }

  /** Case, leading zeros and where `::` stands never matter: the bucket is a function of the top 64 bits. */
  lemma BucketOfSpelling(sp: Spelling)
    requires Legal(sp)
    ensures NormaliseIp(Text(sp)) == Bucket(Address(sp)[..4])
  {
    if sp.Full? { FullSpelling(sp.groups); } else { CompressedSpelling(sp.head, sp.tail); }
  }

  lemma FullSpelling(groups: seq<string>)
    requires |groups| == 8 && AreGroups(groups)
    ensures NormaliseIp(Text(Full(groups))) == Bucket(Address(Full(groups))[..4])
  {
    BucketOfFull(groups);
    assert Text(Full(groups)) == Join(groups, ':') && Address(Full(groups)) == HexValues(groups);
  }

  lemma CompressedSpelling(head: seq<string>, tail: seq<string>)
    requires |head| + |tail| <= 7 && AreGroups(head) && AreGroups(tail)
    ensures NormaliseIp(Text(Compressed(head, tail))) == Bucket(Address(Compressed(head, tail))[..4])
  {
    var n := 8 - |head| - |tail|;
    BucketOfCompressed(head, tail, n);
    assert Text(Compressed(head, tail)) == Join(head, ':') + "::" + Join(tail, ':');
    assert Address(Compressed(head, tail)) == HexValues(head) + ZeroGroups(n) + HexValues(tail);
  }

  lemma BucketOfFull(groups: seq<string>)
    requires |groups| == 8 && AreGroups(groups)
    ensures NormaliseIp(Join(groups, ':')) == Bucket(HexValues(groups)[..4])
  {
    JoinHasNoDot(groups);
    NoDotIsNotMapped(Join(groups, ':'));
    ColonStays(Join(groups, ':'), |groups[0]|);
    LowerJoin(groups);
    ExpandFull(groups);
    UnmappedBucket(Join(groups, ':'), Join(LowerAll(groups), ':'), HexValues(groups)[..4]);
  }

  lemma BucketOfCompressed(head: seq<string>, tail: seq<string>, n: nat)
    requires |head| + n + |tail| == 8 && AreGroups(head) && AreGroups(tail)
    ensures NormaliseIp(Join(head, ':') + "::" + Join(tail, ':'))
         == Bucket((HexValues(head) + ZeroGroups(n) + HexValues(tail))[..4])
  {
    var lower := Join(LowerAll(head), ':') + "::" + Join(LowerAll(tail), ':');
    CompressedIsNotMapped(head, tail);
    LowerText(head, tail);
    ExpandCompressed(head, tail, n);
    var top := HexValues(head) + ZeroGroups(n) + HexValues(tail);
    UnmappedBucket(Join(head, ':') + "::" + Join(tail, ':'), lower, top[..4]);
  }

  lemma CompressedIsNotMapped(head: seq<string>, tail: seq<string>)
    requires AreGroups(head) && AreGroups(tail)
    ensures var t := Join(head, ':') + "::" + Join(tail, ':'); !IsMapped(t) && ':' in Lower(t)
  {
    var t := Join(head, ':') + "::" + Join(tail, ':');
    JoinHasNoDot(head);
    JoinHasNoDot(tail);
    NoDotIsNotMapped(t);
    ColonStays(t, |Join(head, ':')|);
  }

  lemma BucketDeterminesTop(a: seq<nat>, b: seq<nat>)
    requires Bucket(a) == Bucket(b)
    ensures a == b
  {
    var x, y := Join(HexAll(a), ':'), Join(HexAll(b), ':');
    assert Bucket(a)[..|Bucket(a)| - 5] == x && Bucket(b)[..|Bucket(b)| - 5] == y;
    forall v: nat ensures Hex(v) != "" && ':' !in Hex(v) && HexValue(Hex(v)) == v { HexReads(v); }
    SplitJoin(HexAll(a));
    SplitJoin(HexAll(b));
    assert HexAll(a) == HexAll(b);
    forall i | 0 <= i < |a| ensures a[i] == b[i] {
      assert HexAll(a)[i] == HexAll(b)[i];
    }
  }

  /** Two spellings share a bucket exactly when the addresses share their top 64 bits. */
  lemma SameBucketIffSamePrefix(x: Spelling, y: Spelling)
    requires Legal(x) && Legal(y)
    ensures NormaliseIp(Text(x)) == NormaliseIp(Text(y)) <==> Address(x)[..4] == Address(y)[..4]
  {
    BucketOfSpelling(x);
    BucketOfSpelling(y);
    if NormaliseIp(Text(x)) == NormaliseIp(Text(y)) {
      BucketDeterminesTop(Address(x)[..4], Address(y)[..4]);
    }
  }

  lemma {:induction false} SplitPieces(s: string, sep: char)
    ensures s == Join(Split(s, sep), sep)
  {
    if s != "" {
      SplitPieces(s[1..], sep);
      var rest := Split(s[1..], sep);
      if s[0] == sep {
        assert Join([""] + rest, sep) == "" + [sep] + Join(rest, sep) by { assert ([""] + rest)[1..] == rest; }
      } else {
        var first := [s[0]] + rest[0];
        assert ([first] + rest[1..])[1..] == rest[1..];
        if |rest| > 1 {
          assert Join([first] + rest[1..], sep) == first + [sep] + Join(rest[1..], sep);
        }
      }
      assert s == [s[0]] + s[1..];
    }
  }

  ghost predicate Spelled(s: string) { forall i | 0 <= i < |s| :: s[i] == '.' || IsDigit(s[i]) }

  lemma {:induction false} JoinIsSpelled(parts: seq<string>)
    requires forall i | 0 <= i < |parts| :: Spelled(parts[i])
    ensures Spelled(Join(parts, '.'))
  {
    if |parts| > 1 { JoinIsSpelled(parts[1..]); }
  }

  lemma DottedQuadHasNoColon(q: string)
    requires IsDottedQuad(q)
    ensures ':' !in q && Lower(q) == q
  {
    SplitPieces(q, '.');
    var parts := Split(q, '.');
    forall i | 0 <= i < |parts| ensures Spelled(parts[i]) { assert parts[i] in parts; }
    JoinIsSpelled(parts);
    LowerAt(q);
  }

  // ----- IPv4 -----------------------------------------------------------------------------

  /** One to three decimal digits. */
  ghost predicate IsOctet(s: string) {
    (|s| == 1 || |s| == 2 || |s| == 3) && forall i | 0 <= i < |s| :: '0' <= s[i] <= '9'
  }

  ghost predicate AreOctets(a: string, b: string, c: string, d: string) {
    IsOctet(a) && IsOctet(b) && IsOctet(c) && IsOctet(d)
  }

  function Dotted(a: string, b: string, c: string, d: string): string {
    a + "." + (b + "." + (c + "." + d))
  }

  /** Nothing, or `::ffff:` in any case. */
  ghost predicate IsIpv4Prefix(p: string) {
    || p == ""
    || (&& |p| == 7 && p[0] == ':' && p[1] == ':' && p[6] == ':'
        && forall i | 2 <= i < 6 :: p[i] == 'f' || p[i] == 'F')
  }

  lemma OctetParts(s: string)
    ensures IsOctet(s) <==> 1 <= |s| <= 3 && forall c | c in s :: IsDigit(c)
    ensures IsOctet(s) ==> '.' !in s
  {
    assert IsOctet(s) ==> forall c | c in s :: IsDigit(c);
    if 1 <= |s| <= 3 && forall c | c in s :: IsDigit(c) {
      forall i | 0 <= i < |s| ensures '0' <= s[i] <= '9' { assert s[i] in s; }
    }
  }

  lemma SplitDotted(a: string, b: string, c: string, d: string)
    requires '.' !in a && '.' !in b && '.' !in c && '.' !in d
    ensures Split(Dotted(a, b, c, d), '.') == [a, b, c, d]
  {
    var three, two := b + "." + (c + "." + d), c + "." + d;
    SplitFirst(a, three, '.');
    SplitFirst(b, two, '.');
    SplitFirst(c, d, '.');
    SplitWithout(d, '.');
  }

  lemma JoinFour(parts: seq<string>)
    requires |parts| == 4
    ensures Join(parts, '.') == Dotted(parts[0], parts[1], parts[2], parts[3])
  {
    assert parts[1..][1..][1..] == [parts[3]];
    assert Join(parts[1..][1..], '.') == parts[2] + "." + parts[3];
    assert Join(parts[1..], '.') == parts[1] + "." + Join(parts[1..][1..], '.');
  }

  ghost predicate IsQuadOf(q: string, a: string, b: string, c: string, d: string) {
    AreOctets(a, b, c, d) && q == Dotted(a, b, c, d)
  }

  /** A dotted quad is four texts of one to three decimal digits, joined by dots. */
  lemma QuadIsFourOctets(q: string)
    ensures IsDottedQuad(q) <==> exists a, b, c, d :: IsQuadOf(q, a, b, c, d)
  {
    if IsDottedQuad(q) {
      var parts := Split(q, '.');
      SplitPieces(q, '.');
      JoinFour(parts);
      forall i | 0 <= i < 4 ensures IsOctet(parts[i]) { assert parts[i] in parts; OctetParts(parts[i]); }
      assert IsQuadOf(q, parts[0], parts[1], parts[2], parts[3]);
    }
    if a, b, c, d :| IsQuadOf(q, a, b, c, d) { OctetsMakeQuad(a, b, c, d); }
  }

  lemma OctetsMakeQuad(a: string, b: string, c: string, d: string)
    requires AreOctets(a, b, c, d)
    ensures IsDottedQuad(Dotted(a, b, c, d))
  {
    OctetParts(a);
    OctetParts(b);
    OctetParts(c);
    OctetParts(d);
    SplitDotted(a, b, c, d);
  }

  lemma PrefixLowers(p: string)
    requires |p| == 7 && IsIpv4Prefix(p)
    ensures Lower(p) == "::ffff:"
  {
    LowerAt(p);
    forall i | 0 <= i < 7 ensures Lower(p)[i] == "::ffff:"[i] {}
  }

  lemma LoweredIsPrefix(p: string)
    requires |p| == 7 && Lower(p) == "::ffff:"
    ensures IsIpv4Prefix(p)
  {
    LowerAt(p);
    forall i | 0 <= i < 7 ensures LowerChar(p[i]) == "::ffff:"[i] {}
  }

  ghost predicate IsMappedOf(address: string, p: string, a: string, b: string, c: string, d: string) {
    p != "" && IsIpv4Prefix(p) && AreOctets(a, b, c, d) && address == p + Dotted(a, b, c, d)
  }

  /** The form that is stripped is such a prefix before a dotted quad, and no other text. */
  lemma MappedExactly(address: string)
    ensures IsMapped(address) <==> exists p, a, b, c, d :: IsMappedOf(address, p, a, b, c, d)
  {
    if IsMapped(address) { MappedHasOctets(address); }
    if p, a, b, c, d :| IsMappedOf(address, p, a, b, c, d) { MappedOfIsMapped(address, p, a, b, c, d); }
  }

  lemma MappedOfIsMapped(address: string, p: string, a: string, b: string, c: string, d: string)
    requires IsMappedOf(address, p, a, b, c, d)
    ensures IsMapped(address)
  {
    PrefixLowers(p);
    OctetsMakeQuad(a, b, c, d);
    assert address[..7] == p && address[7..] == Dotted(a, b, c, d);
  }

  lemma MappedHasOctets(address: string)
    requires IsMapped(address)
    ensures exists p, a, b, c, d :: IsMappedOf(address, p, a, b, c, d)
  {
    LoweredIsPrefix(address[..7]);
    QuadIsFourOctets(address[7..]);
    var a, b, c, d :| IsQuadOf(address[7..], a, b, c, d);
    assert address == address[..7] + address[7..];
    assert IsMappedOf(address, address[..7], a, b, c, d);
  }

  /** An IPv4 client has one bucket, its own address, plain or mapped, in any case. */
  lemma QuadBucket(prefix: string, a: string, b: string, c: string, d: string)
    requires IsIpv4Prefix(prefix) && AreOctets(a, b, c, d)
    ensures NormaliseIp(prefix + Dotted(a, b, c, d)) == Dotted(a, b, c, d)
  {
    var quad := Dotted(a, b, c, d);
    OctetsMakeQuad(a, b, c, d);
    DottedQuadHasNoColon(quad);
    if prefix == "" {
      assert prefix + quad == quad;
      QuadIsNotMapped(quad);
    } else {
      PrefixLowers(prefix);
      MappedQuad(prefix, quad);
    }
  }

  /** Any two IPv4 clients, however each is written, share a bucket exactly when their addresses
      are the same text; and no IPv6 client shares it. */
  lemma QuadsShareIffSame(p: string, a: string, b: string, c: string, d: string,
                          q: string, e: string, f: string, g: string, h: string, sp: Spelling)
    requires IsIpv4Prefix(p) && AreOctets(a, b, c, d) && IsIpv4Prefix(q) && AreOctets(e, f, g, h) && Legal(sp)
    ensures NormaliseIp(p + Dotted(a, b, c, d)) == NormaliseIp(q + Dotted(e, f, g, h))
      <==> a == e && b == f && c == g && d == h
    ensures NormaliseIp(p + Dotted(a, b, c, d)) != NormaliseIp(Text(sp))
  {
    QuadBucket(p, a, b, c, d);
    QuadBucket(q, e, f, g, h);
    OctetParts(a);
    OctetParts(b);
    OctetParts(c);
    OctetParts(e);
    OctetParts(f);
    OctetParts(g);
    if Dotted(a, b, c, d) == Dotted(e, f, g, h) {
      SplitsAtFirst(a, b + "." + (c + "." + d), e, f + "." + (g + "." + h), '.');
      SplitsAtFirst(b, c + "." + d, f, g + "." + h, '.');
      SplitsAtFirst(c, d, g, h, '.');
    }
    OctetsMakeQuad(a, b, c, d);
    DottedQuadHasNoColon(Dotted(a, b, c, d));
    assert ':' in NormaliseIp(Text(sp)) by {
      BucketOfSpelling(sp);
      BucketHasColon(Address(sp)[..4]);
    }
  }

  /** Every other text without a colon is its own bucket, in lower case. */
  lemma OtherTextIsLowered(text: string)
    requires ':' !in text
    ensures NormaliseIp(text) == Lower(text)
  {
    QuadIsNotMapped(text);
    LowerAt(text);
    assert ':' !in Lower(text);
  }

  lemma MappedQuad(prefix: string, quad: string)
    requires |prefix| == 7 && Lower(prefix) == "::ffff:" && IsDottedQuad(quad)
    ensures NormaliseIp(prefix + quad) == quad
  {
    assert (prefix + quad)[..7] == prefix && (prefix + quad)[7..] == quad;
  }

  lemma BucketHasColon(top: seq<nat>)
    ensures ':' in Bucket(top)
  {
    var b := Bucket(top);
    assert b[|b| - 5] == ':';
  }

  lemma QuadIsNotMapped(quad: string)
    requires ':' !in quad
    ensures !IsMapped(quad)
  {
    if |quad| >= 7 {
      LowerAt(quad[..7]);
      assert Lower(quad[..7])[0] == LowerChar(quad[0]);
    }
  }
}
