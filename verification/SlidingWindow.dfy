/** The sliding-window log: one sorted set per key, pruned, counted and added to by one
    atomic script, with an expiry on the key. Times are milliseconds. */
module SlidingWindow {
  import opened Wrappers

  /** `${now}-${randomUUID()}`. */
  datatype Member = Member(now: int, uuid: nat)

  datatype Entry = Entry(score: int, member: Member)

  /** A sorted set, lowest score first. */
  type ZSet = seq<Entry>

  datatype Window = Window(limit: nat, windowSeconds: nat) {
    function Ms(): nat { windowSeconds * 1000 }
  }

  datatype Reply = Reply(allowed: bool, count: nat, oldestScore: int)

  datatype WindowDecision = WindowDecision(allowed: bool, limit: nat, remaining: nat, resetSeconds: nat)

  // ----- the script on one set ------------------------------------------------

  /** ZREMRANGEBYSCORE key 0 hi. */
  function Prune(z: ZSet, hi: int): ZSet {
    if z == [] then []
    else if 0 <= z[0].score <= hi then Prune(z[1..], hi)
    else [z[0]] + Prune(z[1..], hi)
  }

  function Without(z: ZSet, m: Member): ZSet {
    if z == [] then []
    else if z[0].member == m then Without(z[1..], m)
    else [z[0]] + Without(z[1..], m)
  }

  function Insert(z: ZSet, e: Entry): ZSet {
    if z == [] || e.score < z[0].score then [e] + z else [z[0]] + Insert(z[1..], e)
  }

  /** ZADD: a member already in the set is moved, not added twice. */
  function Add(z: ZSet, score: int, m: Member): ZSet {
    Insert(Without(z, m), Entry(score, m))
  }

  function Oldest(z: ZSet): int {
    if z == [] then -1 else z[0].score
  }

  datatype Scripted = Scripted(z: ZSet, reply: Reply)

  /** The script without its PEXPIRE. */
  function Script(z: ZSet, now: int, w: Window, m: Member): Scripted {
    var pruned := Prune(z, now - w.Ms());
    if |pruned| < w.limit then
      var added := Add(pruned, now, m);
      Scripted(added, Reply(true, |pruned| + 1, Oldest(added)))
    else
      Scripted(pruned, Reply(false, |pruned|, Oldest(pruned)))
  }

  function Max(a: int, b: int): int { if a < b then b else a }

  function Min(a: int, b: int): int { if a < b then a else b }

  /** Math.ceil(ms / 1000) for a non-negative duration. */
  function CeilSeconds(ms: nat): nat { (ms + 999) / 1000 }

  function Decide(r: Reply, w: Window, now: int): WindowDecision {
    var resetMs := if r.oldestScore < 0 then 0 else r.oldestScore + w.Ms() - now;
    WindowDecision(r.allowed, w.limit, Max(0, w.limit - r.count),
      Min(w.windowSeconds, Max(if r.allowed then 0 else 1, CeilSeconds(Max(resetMs, 0)))))
  }

  // ----- the key with its expiry ------------------------------------------------

  /** A live key: its set and the instant of Redis's clock it lives up to. */
  datatype Slot = Slot(z: ZSet, deadline: real)

  function Live(slot: Option<Slot>, at: real): ZSet {
    if slot.Some? && at <= slot.value.deadline then slot.value.z else []
  }

  datatype Consumed = Consumed(slot: Option<Slot>, reply: Reply)

  /** One run of the whole script at instant `at` of Redis's clock. A set that is empty is
      no key, and a PEXPIRE that is not positive deletes the key before ZRANGE reads it. */
  function Consume(slot: Option<Slot>, at: real, now: int, w: Window, m: Member): Consumed {
    var s := Script(Live(slot, at), now, w, m);
    if w.Ms() == 0 then Consumed(None, s.reply.(oldestScore := -1))
    else if s.z == [] then Consumed(None, s.reply)
    else Consumed(Some(Slot(s.z, at + w.Ms() as real)), s.reply)
  }

  type Keys = map<string, Slot>

  function SlotOf(keys: Keys, key: string): Option<Slot> {
    if key in keys then Some(keys[key]) else None
  }

  function PutSlot(keys: Keys, key: string, slot: Option<Slot>): Keys {
    if slot.Some? then keys[key := slot.value] else keys - {key}
  }

  /** The server: commands on keys, and the script that runs them to completion. */
  class Redis {
    var keys: Keys

    constructor ()
      ensures keys == map[]
    {
      keys := map[];
    }

    method ConsumeScript(key: string, at: real, now: int, w: Window, m: Member) returns (reply: Reply)
      modifies this
      ensures var c := Consume(SlotOf(old(keys), key), at, now, w, m);
        reply == c.reply && keys == PutSlot(old(keys), key, c.slot)
    {
      var z := Live(SlotOf(keys, key), at);
      z := Prune(z, now - w.Ms());
      var count := |z|;
      var allowed := false;
      if count < w.limit {
        z := Add(z, now, m);
        count := count + 1;
        allowed := true;
      }
      if z == [] || w.Ms() == 0 {
        z := [];
        keys := keys - {key};
      } else {
        keys := keys[key := Slot(z, at + w.Ms() as real)];
      }
      reply := Reply(allowed, count, Oldest(z));
    }
  }

  /** After so many seconds the oldest entry, if there is one, has left the window; a refused
      caller is told to wait at least one. */
  predicate Suffices(seconds: int, r: Reply, w: Window, now: int) {
    && (!r.allowed ==> seconds >= 1)
    && (r.oldestScore >= 0 ==> r.oldestScore + w.windowSeconds * 1000 <= now + seconds * 1000)
  }

  /** What a decision reports: the script's answer, the limit, the room that is left, and the
      least number of seconds that suffices, or the whole window when none shorter does. */
  ghost predicate Reports(d: WindowDecision, r: Reply, w: Window, now: int) {
    && d.allowed == r.allowed && d.limit == w.limit
    && d.remaining == (if r.count < w.limit then w.limit - r.count else 0)
    && d.resetSeconds <= w.windowSeconds
    && (d.resetSeconds < w.windowSeconds ==> Suffices(d.resetSeconds, r, w, now))
    && forall k | 0 <= k < d.resetSeconds :: !Suffices(k, r, w, now)
  }

  lemma DecisionReports(r: Reply, w: Window, now: int)
    ensures Reports(Decide(r, w, now), r, w, now)
  {
  }

  /** Takes one slot from the window of `key`, or is refused one. */
  method ConsumeSlidingWindow(redis: Redis, key: string, at: real, now: int, w: Window,
                              uuid: nat) returns (d: WindowDecision)
    modifies redis
    ensures var c := Consume(SlotOf(old(redis.keys), key), at, now, w, Member(now, uuid));
      d == Decide(c.reply, w, now) && redis.keys == PutSlot(old(redis.keys), key, c.slot)
    ensures Reports(d, Consume(SlotOf(old(redis.keys), key), at, now, w, Member(now, uuid)).reply, w, now)
  {
    var reply := redis.ConsumeScript(key, at, now, w, Member(now, uuid));
    var resetMs := if reply.oldestScore < 0 then 0 else reply.oldestScore + w.Ms() - now;
    var floor := if reply.allowed then 0 else 1;
    d := WindowDecision(reply.allowed, w.limit, Max(0, w.limit - reply.count),
                        Min(w.windowSeconds, Max(floor, CeilSeconds(Max(resetMs, 0)))));
    DecisionReports(reply, w, now);
  }

  // ----- sets ---------------------------------------------------------------------

  ghost predicate Sorted(z: ZSet) {
    z == [] || ((forall x | x in z :: z[0].score <= x.score) && Sorted(z[1..]))
  }

  lemma {:induction false} PruneMembers(z: ZSet, hi: int)
    ensures forall e :: e in Prune(z, hi) <==> e in z && !(0 <= e.score <= hi)
    ensures |Prune(z, hi)| <= |z|
    ensures |Prune(z, hi)| == |z| ==> Prune(z, hi) == z
  {
    if z != [] {
      PruneMembers(z[1..], hi);
      assert forall e :: e in z <==> e == z[0] || e in z[1..];
    }
  }

  lemma {:induction false} PruneSorted(z: ZSet, hi: int)
    requires Sorted(z)
    ensures Sorted(Prune(z, hi))
  {
    if z != [] {
      PruneSorted(z[1..], hi);
      PruneMembers(z, hi);
      ConsTail(z[0], Prune(z[1..], hi));
    }
  }

  lemma ConsTail(e: Entry, rest: ZSet)
    ensures ([e] + rest)[0] == e && ([e] + rest)[1..] == rest
  {
  }

  lemma {:induction false} WithoutAbsent(z: ZSet, m: Member)
    requires forall e | e in z :: e.member != m
    ensures Without(z, m) == z
  {
    if z != [] { WithoutAbsent(z[1..], m); }
  }

  lemma {:induction false} InsertMembers(z: ZSet, e: Entry)
    ensures |Insert(z, e)| == |z| + 1
    ensures forall x :: x in Insert(z, e) <==> x == e || x in z
  {
    if z != [] && !(e.score < z[0].score) {
      InsertMembers(z[1..], e);
      assert forall x :: x in z <==> x == z[0] || x in z[1..];
    }
  }

  lemma {:induction false} InsertSorted(z: ZSet, e: Entry)
    requires Sorted(z)
    ensures Sorted(Insert(z, e))
  {
    InsertMembers(z, e);
    if z == [] || e.score < z[0].score {
      ConsTail(e, z);
    } else {
      InsertSorted(z[1..], e);
      ConsTail(z[0], Insert(z[1..], e));
    }
  }

  lemma {:induction false} WithoutMembers(z: ZSet, m: Member)
    ensures forall e :: e in Without(z, m) <==> e in z && e.member != m
    ensures Sorted(z) ==> Sorted(Without(z, m))
  {
    if z != [] {
      WithoutMembers(z[1..], m);
      assert forall e :: e in z <==> e == z[0] || e in z[1..];
      if Sorted(z) && z[0].member != m { ConsTail(z[0], Without(z[1..], m)); }
    }
  }

  /** Adding moves a member that is already there: it is in the set with its new score only, and
      all other entries stay. */
  lemma AddHoldsMemberOnce(z: ZSet, score: int, m: Member)
    ensures forall e :: e in Add(z, score, m) <==> e == Entry(score, m) || (e in z && e.member != m)
    ensures |Add(z, score, m)| == |Without(z, m)| + 1
    ensures Sorted(z) ==> Sorted(Add(z, score, m))
  {
    WithoutMembers(z, m);
    InsertMembers(Without(z, m), Entry(score, m));
    if Sorted(z) { InsertSorted(Without(z, m), Entry(score, m)); }
  }

  /** What one run does to the set, when its member is new. */
  lemma ScriptEffect(z: ZSet, now: int, w: Window, m: Member)
    requires forall e | e in z :: e.member != m
    ensures var s := Script(z, now, w, m);
      && (forall e :: e in s.z <==>
            (e in z && !(0 <= e.score <= now - w.Ms())) || (s.reply.allowed && e == Entry(now, m)))
      && |s.z| == s.reply.count && (|z| <= w.limit ==> |s.z| <= w.limit)
      && (!s.reply.allowed ==> |z| >= w.limit)
  {
    var pruned := Prune(z, now - w.Ms());
    PruneMembers(z, now - w.Ms());
    WithoutAbsent(pruned, m);
    InsertMembers(pruned, Entry(now, m));
  }

  lemma ScriptSorted(z: ZSet, now: int, w: Window, m: Member)
    requires Sorted(z) && forall e | e in z :: e.member != m
    ensures Sorted(Script(z, now, w, m).z)
  {
    PruneSorted(z, now - w.Ms());
    PruneMembers(z, now - w.Ms());
    WithoutAbsent(Prune(z, now - w.Ms()), m);
    InsertSorted(Prune(z, now - w.Ms()), Entry(now, m));
  }

  // ----- the bound ----------------------------------------------------------------

  /** One attempt on a key: executed at `at` of Redis's clock with the caller's timestamp
      `now`; `event` is the instant an admission takes effect. */
  datatype Attempt = Attempt(at: real, now: int, member: Member, event: real)

  /** The key after a run of attempts, in execution order, on a fresh key. */
  function After(w: Window, es: seq<Attempt>): Option<Slot> {
    if es == [] then None
    else var e := es[|es| - 1]; Consume(After(w, es[..|es| - 1]), e.at, e.now, w, e.member).slot
  }

  function ReplyTo(w: Window, es: seq<Attempt>): Reply
    requires es != []
  {
    var e := es[|es| - 1];
    Consume(After(w, es[..|es| - 1]), e.at, e.now, w, e.member).reply
  }

  /** The attempts of the run that were admitted. */
  function Admitted(w: Window, es: seq<Attempt>): seq<Attempt> {
    if es == [] then []
    else Admitted(w, es[..|es| - 1]) + if ReplyTo(w, es).allowed then [es[|es| - 1]] else []
  }

  function Within(es: seq<Attempt>, span: real -> bool): seq<Attempt> {
    if es == [] then []
    else Within(es[..|es| - 1], span) + if span(es[|es| - 1].event) then [es[|es| - 1]] else []
  }

  ghost predicate InOrder(es: seq<Attempt>) {
    && (forall i, j | 0 <= i < j < |es| :: es[i].at <= es[j].at && es[i].member != es[j].member)
    && (forall i | 0 <= i < |es| :: 0 <= es[i].now)
  }

  /** Timestamps run at most `ahead` before Redis's clock, and an admission takes effect no
      earlier than it is executed and at most `behind` after its timestamp. */
  ghost predicate Skewed(w: Window, es: seq<Attempt>, behind: real, ahead: real) {
    && (forall i | 0 <= i < |es| :: es[i].now as real <= es[i].at + ahead)
    && (forall e | e in Admitted(w, es) :: e.at <= e.event <= e.now as real + behind)
  }

  lemma {:induction false} AdmittedAreAttempts(w: Window, es: seq<Attempt>)
    ensures forall e | e in Admitted(w, es) :: e in es
  {
    if es != [] {
      AdmittedAreAttempts(w, es[..|es| - 1]);
      assert forall e | e in es[..|es| - 1] :: e in es;
    }
  }

  function SetOf(slot: Option<Slot>): ZSet {
    if slot.Some? then slot.value.z else []
  }

  lemma LastRun(w: Window, es: seq<Attempt>)
    requires w.windowSeconds >= 1 && es != []
    ensures var e, prev := es[|es| - 1], es[..|es| - 1];
      var s := Script(Live(After(w, prev), e.at), e.now, w, e.member);
      && SetOf(After(w, es)) == s.z && ReplyTo(w, es) == s.reply
      && (After(w, es).Some? ==> After(w, es).value.deadline == e.at + w.Ms() as real)
  {
  }

  ghost predicate FromRun(x: Entry, es: seq<Attempt>) {
    exists i | 0 <= i < |es| :: x == Entry(es[i].now, es[i].member)
  }

  /** Everything in the set was put there by an attempt, so a new member is new. */
  lemma {:induction false} LogHoldsAttempts(w: Window, es: seq<Attempt>, x: Entry)
    requires w.windowSeconds >= 1 && InOrder(es)
    requires x in SetOf(After(w, es))
    ensures FromRun(x, es)
    decreases |es|, 0
  {
    var n := |es| - 1;
    var e, prev := es[n], es[..n];
    LastSplit(es);
    LastRun(w, es);
    NextIsNew(w, prev, e);
    ScriptEffect(Live(After(w, prev), e.at), e.now, w, e.member);
    if x != Entry(e.now, e.member) {
      LogHoldsAttempts(w, prev, x);
      var i :| 0 <= i < |prev| && x == Entry(prev[i].now, prev[i].member);
      assert es[i] == prev[i];
    }
  }

  lemma NextIsNew(w: Window, prev: seq<Attempt>, e: Attempt)
    requires w.windowSeconds >= 1 && InOrder(prev + [e])
    ensures forall x | x in Live(After(w, prev), e.at) :: x.member != e.member
    decreases |prev|, 1
  {
    assert (prev + [e])[..|prev|] == prev;
    LastSplit(prev + [e]);
    forall x | x in Live(After(w, prev), e.at) ensures x.member != e.member {
      LogHoldsAttempts(w, prev, x);
      var i :| 0 <= i < |prev| && x == Entry(prev[i].now, prev[i].member);
      assert (prev + [e])[i] == prev[i] && (prev + [e])[|prev|] == e;
    }
  }

  lemma LastSplit(es: seq<Attempt>)
    requires es != []
    ensures es[..|es| - 1] + [es[|es| - 1]] == es
    ensures InOrder(es) ==> InOrder(es[..|es| - 1])
  {
    if InOrder(es) {
      var prev := es[..|es| - 1];
      assert forall i | 0 <= i < |prev| :: prev[i] == es[i];
    }
  }

  /** A run's last step, with its member new. */
  lemma LastEffect(w: Window, es: seq<Attempt>)
    requires w.windowSeconds >= 1 && es != [] && InOrder(es)
    ensures var e, prev := es[|es| - 1], es[..|es| - 1];
      var z := Live(After(w, prev), e.at);
      && (forall x :: x in SetOf(After(w, es)) <==>
            (x in z && !(0 <= x.score <= e.now - w.Ms())) || (ReplyTo(w, es).allowed && x == Entry(e.now, e.member)))
      && (|z| <= w.limit ==> |SetOf(After(w, es))| <= w.limit)
      && |SetOf(After(w, es))| == ReplyTo(w, es).count
  {
    var e, prev := es[|es| - 1], es[..|es| - 1];
    LastSplit(es);
    LastRun(w, es);
    NextIsNew(w, prev, e);
    ScriptEffect(Live(After(w, prev), e.at), e.now, w, e.member);
  }

  /** A key never holds more than `limit` entries. */
  lemma {:induction false} CardinalityNeverExceedsLimit(w: Window, es: seq<Attempt>)
    requires w.windowSeconds >= 1 && InOrder(es)
    ensures |SetOf(After(w, es))| <= w.limit
  {
    if es != [] {
      LastSplit(es);
      CardinalityNeverExceedsLimit(w, es[..|es| - 1]);
      LastEffect(w, es);
    }
  }

  /** The log is complete: an admitted attempt stays in the set while no timestamp has
      passed its own by a window and less than a window has gone by on Redis's clock. */
  lemma {:induction false} LogIsComplete(w: Window, es: seq<Attempt>, high: int, a: Attempt)
    requires w.windowSeconds >= 1 && es != [] && InOrder(es)
    requires forall e | e in es :: e.now <= high
    requires a in Admitted(w, es)
    requires a.now > high - w.Ms() && a.at >= es[|es| - 1].at - w.Ms() as real
    ensures Entry(a.now, a.member) in SetOf(After(w, es))
  {
    var n := |es| - 1;
    var e, prev := es[n], es[..n];
    LastSplit(es);
    LastEffect(w, es);
    assert e in es;
    if !(ReplyTo(w, es).allowed && a == e) {
      assert a in Admitted(w, prev);
      AdmittedBefore(w, prev, a);
      assert forall p | p in prev :: p in es;
      assert prev[n - 1] == es[n - 1];
      LogIsComplete(w, prev, high, a);
      LastRun(w, prev);
    }
  }

  lemma AdmittedBefore(w: Window, es: seq<Attempt>, a: Attempt)
    requires a in Admitted(w, es) && InOrder(es)
    ensures es != [] && a.at <= es[|es| - 1].at
  {
    AdmittedAreAttempts(w, es);
    var i :| 0 <= i < |es| && es[i] == a;
  }

  /** Admissions cannot outnumber the entries that record them. */
  lemma {:induction false} NoMoreThanRecorded(es: seq<Attempt>, z: ZSet)
    requires forall i, j | 0 <= i < j < |es| :: es[i].member != es[j].member
    requires forall e | e in es :: Entry(e.now, e.member) in z
    ensures |es| <= |z|
  {
    if es != [] {
      var e := es[|es| - 1];
      var x := Entry(e.now, e.member);
      var k :| 0 <= k < |z| && z[k] == x;
      var z' := z[..k] + z[k + 1..];
      var prev := es[..|es| - 1];
      forall p | p in prev ensures Entry(p.now, p.member) in z' {
        var i :| 0 <= i < |prev| && prev[i] == p;
        assert p in es && es[i].member != e.member;
        var j :| 0 <= j < |z| && z[j] == Entry(p.now, p.member);
        assert j != k && z' == z[..k] + z[k + 1..];
        assert z[j] == if j < k then z'[j] else z'[j - 1];
      }
      NoMoreThanRecorded(prev, z');
    }
  }

  lemma {:induction false} WithinAdmitted(w: Window, es: seq<Attempt>, span: real -> bool)
    requires InOrder(es)
    ensures var c := Within(Admitted(w, es), span);
      && (forall e | e in c :: e in Admitted(w, es) && span(e.event))
      && (forall i, j | 0 <= i < j < |c| :: c[i].member != c[j].member)
  {
    if es != [] {
      var n := |es| - 1;
      LastSplit(es);
      WithinAdmitted(w, es[..n], span);
      AdmittedAreAttempts(w, es[..n]);
      var c := Within(Admitted(w, es[..n]), span);
      WithinSnoc(w, es, span);
      forall i | 0 <= i < |c| ensures c[i].member != es[n].member {
        assert c[i] in c && c[i] in es[..n];
        var j :| 0 <= j < n && es[j] == c[i];
      }
    }
  }

  lemma WithinSnoc(w: Window, es: seq<Attempt>, span: real -> bool)
    requires es != []
    ensures var e, prev := es[|es| - 1], es[..|es| - 1];
      Within(Admitted(w, es), span)
        == Within(Admitted(w, prev), span) + if ReplyTo(w, es).allowed && span(e.event) then [e] else []
  {
    var e, prev := es[|es| - 1], es[..|es| - 1];
    var a := Admitted(w, prev);
    if ReplyTo(w, es).allowed {
      assert Admitted(w, es) == a + [e] && (a + [e])[..|a|] == a;
    } else {
      assert Admitted(w, es) == a;
    }
  }

  /** THE LIMIT. Take any set of instants no two of which are `windowMs - (behind + ahead)`
      or more apart, such as a half-open interval of that length: at most `limit`
      admissions take effect in it, whatever the interleaving, refusals and expiries. */
  lemma {:induction false} AtMostLimitPerWindow(w: Window, es: seq<Attempt>, span: real -> bool, behind: real,
                                                ahead: real)
    requires w.windowSeconds >= 1 && InOrder(es) && Skewed(w, es, behind, ahead) && behind + ahead >= 0.0
    requires forall x, y | span(x) && span(y) :: y - x < w.Ms() as real - (behind + ahead)
    ensures |Within(Admitted(w, es), span)| <= w.limit
  {
    if es != [] {
      var n := |es| - 1;
      var e := es[n];
      LastSplit(es);
      WithinSnoc(w, es, span);
      if ReplyTo(w, es).allowed && span(e.event) {
        assert e in Admitted(w, es);
        SpanIsRecorded(w, es, span, behind, ahead);
        WithinAdmitted(w, es, span);
        NoMoreThanRecorded(Within(Admitted(w, es), span), SetOf(After(w, es)));
        CardinalityNeverExceedsLimit(w, es);
      } else {
        assert forall i | 0 <= i < n :: es[..n][i] == es[i];
        assert forall a | a in Admitted(w, es[..n]) :: a in Admitted(w, es);
        AtMostLimitPerWindow(w, es[..n], span, behind, ahead);
      }
    }
  }

  lemma StillInWindow(w: Window, a: Attempt, last: Attempt, high: int, behind: real, ahead: real)
    requires last.event - a.event < w.Ms() as real - (behind + ahead)
    requires last.at <= last.event && a.event <= a.now as real + behind && a.now as real <= a.at + ahead
    requires high as real <= last.at + ahead
    ensures a.now > high - w.Ms() && a.at >= last.at - w.Ms() as real
  {
    var now, ms: real := a.now as real, w.Ms() as real;
    assert now > last.at + ahead - ms >= high as real - ms;
  }

  /** When the last attempt is admitted inside the span, everything admitted there before
      it is still in the set. */
  lemma SpanIsRecorded(w: Window, es: seq<Attempt>, span: real -> bool, behind: real, ahead: real)
    requires w.windowSeconds >= 1 && es != [] && InOrder(es) && Skewed(w, es, behind, ahead) && behind + ahead >= 0.0
    requires forall x, y | span(x) && span(y) :: y - x < w.Ms() as real - (behind + ahead)
    requires es[|es| - 1] in Admitted(w, es) && span(es[|es| - 1].event)
    ensures forall a | a in Within(Admitted(w, es), span) :: Entry(a.now, a.member) in SetOf(After(w, es))
  {
    var last := es[|es| - 1];
    WithinAdmitted(w, es, span);
    forall a | a in Within(Admitted(w, es), span) ensures Entry(a.now, a.member) in SetOf(After(w, es)) {
      assert last.event - a.event < w.Ms() as real - (behind + ahead);
      CloseAdmissionIsRecorded(w, es, a, behind, ahead);
    }
  }

  lemma CloseAdmissionIsRecorded(w: Window, es: seq<Attempt>, a: Attempt, behind: real, ahead: real)
    requires w.windowSeconds >= 1 && es != [] && InOrder(es) && Skewed(w, es, behind, ahead)
    requires a in Admitted(w, es) && es[|es| - 1] in Admitted(w, es)
    requires es[|es| - 1].event - a.event < w.Ms() as real - (behind + ahead)
    ensures Entry(a.now, a.member) in SetOf(After(w, es))
  {
    var last := es[|es| - 1];
    var high := (last.at + ahead).Floor;
    TimestampsBelow(w, es, high, behind, ahead);
    AdmittedAreAttempts(w, es);
    assert a.now as real <= a.at + ahead by { var i :| 0 <= i < |es| && es[i] == a; }
    StillInWindow(w, a, last, high, behind, ahead);
    LogIsComplete(w, es, high, a);
  }

  lemma TimestampsBelow(w: Window, es: seq<Attempt>, high: int, behind: real, ahead: real)
    requires es != [] && InOrder(es) && Skewed(w, es, behind, ahead) && high == (es[|es| - 1].at + ahead).Floor
    ensures forall m | m in es :: m.now <= high
  {
    forall m | m in es ensures m.now <= high {
      var i :| 0 <= i < |es| && es[i] == m;
      assert m.now as real <= es[|es| - 1].at + ahead;
    }
  }

  function HalfOpen(lo: real, hi: real): real -> bool {
    x => lo < x <= hi
  }

  /** With one clock that never goes back, every half-open interval (t - windowMs, t] holds
      at most `limit` admitted requests. */
  lemma AtMostLimitPerWindowOnOneClock(w: Window, es: seq<Attempt>, t: real)
    requires w.windowSeconds >= 1 && InOrder(es)
    requires forall i | 0 <= i < |es| :: es[i].at == es[i].now as real == es[i].event
    ensures |Within(Admitted(w, es), HalfOpen(t - w.Ms() as real, t))| <= w.limit
  {
    AdmittedAreAttempts(w, es);
    AtMostLimitPerWindow(w, es, HalfOpen(t - w.Ms() as real, t), 0.0, 0.0);
  }

  // ----- expiry ---------------------------------------------------------------------

  /** The same run by the script without its PEXPIRE. */
  function PlainAfter(w: Window, es: seq<Attempt>): ZSet {
    if es == [] then []
    else var e := es[|es| - 1]; Script(PlainAfter(w, es[..|es| - 1]), e.now, w, e.member).z
  }

  function PlainReplyTo(w: Window, es: seq<Attempt>): Reply
    requires es != []
  {
    var e := es[|es| - 1];
    Script(PlainAfter(w, es[..|es| - 1]), e.now, w, e.member).reply
  }

  lemma ScoresAreTimestamps(w: Window, es: seq<Attempt>)
    requires w.windowSeconds >= 1 && InOrder(es) && es != []
    requires forall i | 0 <= i < |es| :: es[i].at == es[i].now as real
    ensures forall x | x in SetOf(After(w, es)) :: 0 <= x.score <= es[|es| - 1].now
  {
    forall x | x in SetOf(After(w, es)) ensures 0 <= x.score <= es[|es| - 1].now {
      LogHoldsAttempts(w, es, x);
      var i :| 0 <= i < |es| && x == Entry(es[i].now, es[i].member);
      NotAfterLast(es, i);
    }
  }

  lemma NotAfterLast(es: seq<Attempt>, i: nat)
    requires InOrder(es) && i < |es| && es[i].at == es[i].now as real && es[|es| - 1].at == es[|es| - 1].now as real
    ensures 0 <= es[i].now <= es[|es| - 1].now
  {
    assert es[i].at <= es[|es| - 1].at;
  }

  lemma {:induction false} PruneAll(z: ZSet, hi: int)
    requires forall x | x in z :: 0 <= x.score <= hi
    ensures Prune(z, hi) == []
  {
    if z != [] {
      assert z[0] in z;
      PruneAll(z[1..], hi);
    }
  }

  /** While caller time and Redis time agree and never go back, dropping an idle key never
      changes an answer: the script with PEXPIRE replies on every run as without it. */
  lemma {:induction false} ExpiryNeverChangesAnAnswer(w: Window, es: seq<Attempt>)
    requires w.windowSeconds >= 1 && InOrder(es)
    requires forall i | 0 <= i < |es| :: es[i].at == es[i].now as real
    ensures SetOf(After(w, es)) == PlainAfter(w, es)
    ensures es != [] ==> ReplyTo(w, es) == PlainReplyTo(w, es)
  {
    if es != [] {
      var e, prev := es[|es| - 1], es[..|es| - 1];
      LastSplit(es);
      assert forall i | 0 <= i < |prev| :: prev[i] == es[i];
      ExpiryNeverChangesAnAnswer(w, prev);
      ExpiryKeepsNextAnswer(w, prev, e);
      LastRun(w, es);
    }
  }

  lemma ExpiryKeepsNextAnswer(w: Window, prev: seq<Attempt>, e: Attempt)
    requires w.windowSeconds >= 1 && InOrder(prev)
    requires forall i | 0 <= i < |prev| :: prev[i].at == prev[i].now as real && prev[i].at <= e.at
    requires e.at == e.now as real
    ensures Script(Live(After(w, prev), e.at), e.now, w, e.member) == Script(SetOf(After(w, prev)), e.now, w, e.member)
  {
    if prev != [] {
      assert Prune(Live(After(w, prev), e.at), e.now - w.Ms()) == Prune(SetOf(After(w, prev)), e.now - w.Ms()) by {
        ExpiredIsPruned(w, prev, e);
      }
      ScriptReadsPruned(Live(After(w, prev), e.at), SetOf(After(w, prev)), e.now, w, e.member);
    }
  }

  lemma ScriptReadsPruned(a: ZSet, b: ZSet, now: int, w: Window, m: Member)
    requires Prune(a, now - w.Ms()) == Prune(b, now - w.Ms())
    ensures Script(a, now, w, m) == Script(b, now, w, m)
  {
  }

  /** Whatever an expiry drops, the next run would have pruned. */
  lemma ExpiredIsPruned(w: Window, prev: seq<Attempt>, e: Attempt)
    requires w.windowSeconds >= 1 && InOrder(prev) && prev != []
    requires forall i | 0 <= i < |prev| :: prev[i].at == prev[i].now as real
    requires e.at == e.now as real && prev[|prev| - 1].at <= e.at
    ensures Prune(Live(After(w, prev), e.at), e.now - w.Ms()) == Prune(SetOf(After(w, prev)), e.now - w.Ms())
  {
    if After(w, prev).Some? && After(w, prev).value.deadline < e.at {
      OldKeyIsPruned(w, prev, e);
    }
  }

  lemma OldKeyIsPruned(w: Window, prev: seq<Attempt>, e: Attempt)
    requires w.windowSeconds >= 1 && InOrder(prev) && prev != []
    requires forall i | 0 <= i < |prev| :: prev[i].at == prev[i].now as real
    requires e.at == e.now as real && After(w, prev).Some? && After(w, prev).value.deadline < e.at
    ensures Prune(SetOf(After(w, prev)), e.now - w.Ms()) == []
  {
    OnlyOldKeysExpire(w, prev, e);
    ScoresAreTimestamps(w, prev);
    PruneAll(SetOf(After(w, prev)), e.now - w.Ms());
  }

  lemma OnlyOldKeysExpire(w: Window, prev: seq<Attempt>, e: Attempt)
    requires w.windowSeconds >= 1 && prev != []
    requires prev[|prev| - 1].at == prev[|prev| - 1].now as real && e.at == e.now as real
    requires After(w, prev).Some? && After(w, prev).value.deadline < e.at
    ensures prev[|prev| - 1].now + w.Ms() < e.now
  {
    LastRun(w, prev);
  }

  // ----- never too early --------------------------------------------------------------

  /** Timestamps that never go back, and members that differ. */
  ghost predicate Stamped(es: seq<Attempt>) {
    es == [] ||
    (var e, prev := es[|es| - 1], es[..|es| - 1];
     0 <= e.now && Precede(prev, e) && Stamped(prev))
  }

  ghost predicate Precede(es: seq<Attempt>, e: Attempt) {
    forall a | a in es :: 0 <= a.now <= e.now && a.member != e.member
  }

  /** The attempts that the script without its PEXPIRE admits. */
  function PlainAdmitted(w: Window, es: seq<Attempt>): seq<Attempt> {
    if es == [] then []
    else if PlainReplyTo(w, es).allowed then PlainAdmitted(w, es[..|es| - 1]) + [es[|es| - 1]]
    else PlainAdmitted(w, es[..|es| - 1])
  }

  /** The attempts stamped after `lo`. */
  function Since(es: seq<Attempt>, lo: int): seq<Attempt> {
    if es == [] then []
    else if es[|es| - 1].now > lo then Since(es[..|es| - 1], lo) + [es[|es| - 1]]
    else Since(es[..|es| - 1], lo)
  }

  /** The entries that record attempts, in order. */
  function Recorded(es: seq<Attempt>): ZSet {
    seq(|es|, i requires 0 <= i < |es| => Entry(es[i].now, es[i].member))
  }

  lemma RecordedSnoc(es: seq<Attempt>, e: Attempt)
    ensures Recorded(es + [e]) == Recorded(es) + [Entry(e.now, e.member)]
  {
  }

  lemma SinceSnoc(es: seq<Attempt>, e: Attempt, lo: int)
    ensures Since(es + [e], lo) == if e.now > lo then Since(es, lo) + [e] else Since(es, lo)
  {
    assert (es + [e])[..|es|] == es;
  }

  lemma {:induction false} PruneSnoc(z: ZSet, e: Entry, hi: int)
    ensures Prune(z + [e], hi) == if 0 <= e.score <= hi then Prune(z, hi) else Prune(z, hi) + [e]
  {
    if z == [] {
      assert z + [e] == [e];
    } else {
      assert (z + [e])[1..] == z[1..] + [e];
      PruneSnoc(z[1..], e, hi);
    }
  }

  lemma {:induction false} InsertLast(z: ZSet, e: Entry)
    requires forall i | 0 <= i < |z| :: z[i].score <= e.score
    ensures Insert(z, e) == z + [e]
  {
    if z != [] { InsertLast(z[1..], e); }
  }

  /** Pruning what is recorded since `lo` leaves what is recorded since a later instant. */
  lemma {:induction false} PruneRecorded(es: seq<Attempt>, lo: int, hi: int)
    requires lo <= hi && forall i | 0 <= i < |es| :: 0 <= es[i].now
    ensures Prune(Recorded(Since(es, lo)), hi) == Recorded(Since(es, hi))
  {
    if es != [] {
      var e, prev := es[|es| - 1], es[..|es| - 1];
      PruneRecorded(prev, lo, hi);
      PruneSnoc(Recorded(Since(prev, lo)), Entry(e.now, e.member), hi);
      RecordedSnoc(Since(prev, lo), e);
      RecordedSnoc(Since(prev, hi), e);
    }
  }

  lemma {:induction false} SinceAreAttempts(es: seq<Attempt>, lo: int)
    ensures forall a | a in Since(es, lo) :: a in es
  {
    if es != [] { SinceAreAttempts(es[..|es| - 1], lo); }
  }

  lemma {:induction false} PlainAdmittedAreAttempts(w: Window, es: seq<Attempt>)
    ensures forall a | a in PlainAdmitted(w, es) :: a in es
  {
    if es != [] { PlainAdmittedAreAttempts(w, es[..|es| - 1]); }
  }

  lemma AddToRecorded(kept: seq<Attempt>, e: Attempt)
    requires Precede(kept, e)
    ensures Add(Recorded(kept), e.now, e.member) == Recorded(kept + [e])
  {
    var r := Recorded(kept);
    forall i | 0 <= i < |r| ensures r[i].member != e.member && r[i].score <= e.now { assert kept[i] in kept; }
    WithoutAbsent(r, e.member);
    InsertLast(r, Entry(e.now, e.member));
    RecordedSnoc(kept, e);
  }

  /** The script on a set that records its window, and what it records then. */
  lemma ScriptOnRecorded(z: ZSet, admitted: seq<Attempt>, e: Attempt, w: Window)
    requires w.windowSeconds >= 1 && Precede(admitted, e)
    requires Prune(z, e.now - w.Ms()) == Recorded(Since(admitted, e.now - w.Ms()))
    ensures var lo, s := e.now - w.Ms(), Script(z, e.now, w, e.member);
      && (s.reply.allowed <==> |Since(admitted, lo)| < w.limit)
      && s.z == Recorded(Since(if s.reply.allowed then admitted + [e] else admitted, lo))
  {
    var lo := e.now - w.Ms();
    SinceAreAttempts(admitted, lo);
    AddToRecorded(Since(admitted, lo), e);
    SinceSnoc(admitted, e, lo);
  }

  lemma PlainStep(w: Window, es: seq<Attempt>)
    requires es != []
    ensures var e, prev := es[|es| - 1], es[..|es| - 1];
      var s := Script(PlainAfter(w, prev), e.now, w, e.member);
      && PlainAfter(w, es) == s.z && PlainReplyTo(w, es) == s.reply
      && PlainAdmitted(w, es) == if s.reply.allowed then PlainAdmitted(w, prev) + [e] else PlainAdmitted(w, prev)
  {
  }

  /** What the next run finds after pruning: the admissions of its window, in order. */
  lemma PrunedIsTheWindow(w: Window, z: ZSet, admitted: seq<Attempt>, last: int, e: Attempt)
    requires z == Recorded(Since(admitted, last - w.Ms())) && last <= e.now && Precede(admitted, e)
    ensures Prune(z, e.now - w.Ms()) == Recorded(Since(admitted, e.now - w.Ms()))
  {
    assert forall i | 0 <= i < |admitted| :: admitted[i] in admitted;
    PruneRecorded(admitted, last - w.Ms(), e.now - w.Ms());
  }

  /** After every run the set is exactly the admissions of the last window, in order. */
  lemma {:induction false} SetIsTheWindow(w: Window, es: seq<Attempt>)
    requires w.windowSeconds >= 1 && es != [] && Stamped(es)
    ensures var lo := es[|es| - 1].now - w.Ms();
      && PlainAfter(w, es) == Recorded(Since(PlainAdmitted(w, es), lo))
      && (PlainReplyTo(w, es).allowed <==> |Since(PlainAdmitted(w, es[..|es| - 1]), lo)| < w.limit)
    decreases |es|, 0
  {
    var e, prev := es[|es| - 1], es[..|es| - 1];
    NextSetIsPruned(w, prev, e);
    ScriptOnRecorded(PlainAfter(w, prev), PlainAdmitted(w, prev), e, w);
    PlainStep(w, es);
  }

  lemma {:induction false} NextSetIsPruned(w: Window, prev: seq<Attempt>, e: Attempt)
    requires w.windowSeconds >= 1 && Stamped(prev) && Precede(prev, e)
    ensures Prune(PlainAfter(w, prev), e.now - w.Ms()) == Recorded(Since(PlainAdmitted(w, prev), e.now - w.Ms()))
    ensures Precede(PlainAdmitted(w, prev), e)
    decreases |prev|, 1
  {
    PlainAdmittedAreAttempts(w, prev);
    if prev != [] {
      SetIsTheWindow(w, prev);
      assert prev[|prev| - 1] in prev;
      PrunedIsTheWindow(w, PlainAfter(w, prev), PlainAdmitted(w, prev), prev[|prev| - 1].now, e);
    }
  }

  ghost predicate OneClock(es: seq<Attempt>) {
    forall i | 0 <= i < |es| :: es[i].at == es[i].now as real == es[i].event
  }

  lemma InTurn(es: seq<Attempt>, i: nat, j: nat)
    requires InOrder(es) && OneClock(es) && i < j < |es|
    ensures 0 <= es[i].now <= es[j].now && es[i].member != es[j].member && es[i].event == es[i].now as real
  {
    assert es[i].at <= es[j].at;
  }

  lemma {:induction false} OneClockIsStamped(es: seq<Attempt>, n: nat)
    requires InOrder(es) && OneClock(es) && n <= |es|
    ensures Stamped(es[..n])
  {
    if n > 0 {
      OneClockIsStamped(es, n - 1);
      PrefixesPrecede(es, n - 1);
      assert es[..n][..n - 1] == es[..n - 1];
    }
  }

  lemma PrefixesPrecede(es: seq<Attempt>, n: nat)
    requires InOrder(es) && OneClock(es) && n < |es|
    ensures Precede(es[..n], es[n]) && 0 <= es[n].now
    ensures forall a | a in es[..n] :: a.event == a.now as real
  {
    forall a | a in es[..n]
      ensures 0 <= a.now <= es[n].now && a.member != es[n].member && a.event == a.now as real
    {
      var i :| 0 <= i < n && es[i] == a;
      InTurn(es, i, n);
    }
  }

  lemma {:induction false} AdmittedIsPlain(w: Window, es: seq<Attempt>)
    requires w.windowSeconds >= 1 && InOrder(es) && OneClock(es)
    ensures Admitted(w, es) == PlainAdmitted(w, es)
  {
    if es != [] {
      LastSplit(es);
      AdmittedIsPlain(w, es[..|es| - 1]);
      ExpiryNeverChangesAnAnswer(w, es);
    }
  }

  /** On one clock, the attempts since `lo` are those in the half-open interval up to now. */
  lemma {:induction false} SinceIsHalfOpen(es: seq<Attempt>, lo: int, now: int)
    requires PastBy(es, now)
    ensures Since(es, lo) == Within(es, HalfOpen(lo as real, now as real))
  {
    if es != [] {
      SinceIsHalfOpen(es[..|es| - 1], lo, now);
      assert es[|es| - 1] in es;
    }
  }

  lemma PlainTwin(w: Window, es: seq<Attempt>)
    requires w.windowSeconds >= 1 && es != [] && InOrder(es) && OneClock(es)
    ensures ReplyTo(w, es) == PlainReplyTo(w, es)
    ensures Admitted(w, es[..|es| - 1]) == PlainAdmitted(w, es[..|es| - 1])
  {
    LastSplit(es);
    ExpiryNeverChangesAnAnswer(w, es);
    AdmittedIsPlain(w, es[..|es| - 1]);
  }

  lemma RoomSince(w: Window, es: seq<Attempt>)
    requires w.windowSeconds >= 1 && es != [] && InOrder(es) && OneClock(es)
    ensures ReplyTo(w, es).allowed
      <==> |Since(Admitted(w, es[..|es| - 1]), es[|es| - 1].now - w.Ms())| < w.limit
  {
    PlainTwin(w, es);
    assert Stamped(es) by {
      assert es[..|es|] == es;
      OneClockIsStamped(es, |es|);
    }
    SetIsTheWindow(w, es);
  }

  /** The admissions before the last attempt, in the window that ends with it. */
  function RecentlyAdmitted(w: Window, es: seq<Attempt>): seq<Attempt>
    requires es != []
  {
    var now := es[|es| - 1].now;
    Within(Admitted(w, es[..|es| - 1]), HalfOpen((now - w.Ms()) as real, now as real))
  }

  /** NEVER TOO EARLY. On one clock an attempt is admitted if and only if fewer than `limit`
      admissions took effect in the window that ends with it. */
  lemma AdmittedIffWindowHasRoom(w: Window, es: seq<Attempt>)
    requires w.windowSeconds >= 1 && es != [] && InOrder(es) && OneClock(es)
    ensures ReplyTo(w, es).allowed <==> |RecentlyAdmitted(w, es)| < w.limit
  {
    RoomSince(w, es);
    AdmittedSince(w, es);
  }

  lemma AdmittedSince(w: Window, es: seq<Attempt>)
    requires es != [] && InOrder(es) && OneClock(es)
    ensures Since(Admitted(w, es[..|es| - 1]), es[|es| - 1].now - w.Ms()) == RecentlyAdmitted(w, es)
  {
    PrefixIsPast(es, |es| - 1);
    RecentIsSince(w, es);
  }

  lemma PrefixIsPast(es: seq<Attempt>, n: nat)
    requires InOrder(es) && OneClock(es) && n < |es|
    ensures PastBy(es[..n], es[n].now)
  {
    PrefixesPrecede(es, n);
  }

  lemma RecentIsSince(w: Window, es: seq<Attempt>)
    requires es != [] && PastBy(es[..|es| - 1], es[|es| - 1].now)
    ensures Since(Admitted(w, es[..|es| - 1]), es[|es| - 1].now - w.Ms()) == RecentlyAdmitted(w, es)
  {
    PastAdmittedSince(w, es[..|es| - 1], es[|es| - 1].now);
  }

  ghost predicate PastBy(es: seq<Attempt>, now: int) {
    forall a | a in es :: a.now <= now && a.event == a.now as real
  }

  lemma PastAdmittedSince(w: Window, prev: seq<Attempt>, now: int)
    requires PastBy(prev, now)
    ensures Since(Admitted(w, prev), now - w.Ms())
         == Within(Admitted(w, prev), HalfOpen((now - w.Ms()) as real, now as real))
  {
    AdmittedAreAttempts(w, prev);
    SinceIsHalfOpen(Admitted(w, prev), now - w.Ms(), now);
  }

  /** Two admissions exactly one window apart: a span closed at both ends holds one too many. */
  lemma ClosedWindowHoldsOneMore(w: Window, t: nat, a: Member, b: Member)
    requires w.limit == 1 && w.windowSeconds >= 1 && a != b
    ensures var es := [At(t, a), At(t + w.Ms(), b)];
      InOrder(es) && OneClock(es) && Admitted(w, es) == es
  {
    TwoInOrder(t, t + w.Ms(), a, b);
    BothPlainlyAdmitted(w, At(t, a), At(t + w.Ms(), b));
    AdmittedIsPlain(w, [At(t, a), At(t + w.Ms(), b)]);
  }

  /** An attempt on one clock. */
  function At(now: int, m: Member): Attempt {
    Attempt(now as real, now, m, now as real)
  }

  lemma TwoInOrder(t: nat, u: nat, a: Member, b: Member)
    requires t <= u && a != b
    ensures InOrder([At(t, a), At(u, b)]) && OneClock([At(t, a), At(u, b)])
  {
    assert (t as real) <= (u as real);
  }

  lemma BothPlainlyAdmitted(w: Window, x: Attempt, y: Attempt)
    requires w.limit == 1 && w.windowSeconds >= 1 && 0 <= x.now && y.now == x.now + w.Ms() && x.member != y.member
    ensures PlainAdmitted(w, [x, y]) == [x, y]
  {
    assert [x][..0] == [] && [x, y][..1] == [x];
    assert Stamped([]) && Precede([], x);
    PlainStep(w, [x]);
    PlainStep(w, [x, y]);
    assert Script([], x.now, w, x.member).z == [Entry(x.now, x.member)];
    PruneAll([Entry(x.now, x.member)], y.now - w.Ms());
    assert PlainAdmitted(w, [x]) == [] + [x];
    assert PlainAdmitted(w, [x, y]) == [x] + [y];
  }

  // ----- the advertised reset -----------------------------------------------------------

  /** A refusal takes nothing and forgets nothing. */
  lemma RefusalKeepsSet(z: ZSet, now: int, w: Window, m: Member)
    requires |z| <= w.limit && !Script(z, now, w, m).reply.allowed
    ensures Script(z, now, w, m).z == z
  {
    PruneMembers(z, now - w.Ms());
  }

  /** A full set refuses while its oldest entry is inside the window, and only then. */
  lemma RefusedUntilOldestLeaves(z: ZSet, now: int, w: Window, m: Member)
    requires Sorted(z) && |z| == w.limit >= 1 && z[0].score >= 0
    ensures Script(z, now, w, m).reply.allowed <==> z[0].score + w.Ms() <= now
  {
    var hi := now - w.Ms();
    if z[0].score <= hi {
      OldestIsPruned(z, hi);
      assert |Prune(z, hi)| < w.limit;
    } else {
      forall i | 0 <= i < |z| ensures hi < z[i].score { assert z[i] in z; }
      PruneKeepsAll(z, hi);
    }
  }

  lemma OldestIsPruned(z: ZSet, hi: int)
    requires z != [] && 0 <= z[0].score <= hi
    ensures |Prune(z, hi)| < |z|
  {
    PruneMembers(z[1..], hi);
  }

  lemma {:induction false} PruneKeepsAll(z: ZSet, hi: int)
    requires forall i | 0 <= i < |z| :: hi < z[i].score
    ensures Prune(z, hi) == z
  {
    if z != [] { PruneKeepsAll(z[1..], hi); }
  }

  /** A run of attempts by the plain script from a given set. */
  function PlainRun(w: Window, z: ZSet, es: seq<Attempt>): ZSet
    decreases |es|
  {
    if es == [] then z else PlainRun(w, Script(z, es[0].now, w, es[0].member).z, es[1..])
  }

  ghost predicate AllRefused(w: Window, z: ZSet, es: seq<Attempt>)
    decreases |es|
  {
    es != [] ==>
      && !Script(z, es[0].now, w, es[0].member).reply.allowed
      && AllRefused(w, Script(z, es[0].now, w, es[0].member).z, es[1..])
  }

  lemma {:induction false} RefusalsKeepSet(w: Window, z: ZSet, es: seq<Attempt>)
    requires |z| <= w.limit && AllRefused(w, z, es)
    ensures PlainRun(w, z, es) == z
    decreases |es|
  {
    if es != [] {
      RefusalKeepsSet(z, es[0].now, w, es[0].member);
      RefusalsKeepSet(w, z, es[1..]);
    }
  }

  lemma FullWhenRefused(w: Window, z: ZSet, now: int, m: Member)
    requires w.limit >= 1 && |z| <= w.limit && !Script(z, now, w, m).reply.allowed
    ensures |z| == w.limit && Script(z, now, w, m).reply.oldestScore == z[0].score
  {
    PruneMembers(z, now - w.Ms());
  }

  /** What a refusal advertises: the least whole number of seconds after which the oldest
      entry has left, if that entry is no later than now. */
  lemma ResetIsLeastWholeSecond(w: Window, r: Reply, now: int)
    requires !r.allowed && w.windowSeconds >= 1 && r.oldestScore >= 0 && now < r.oldestScore + w.Ms()
    ensures var reset := Decide(r, w, now).resetSeconds;
      && 1 <= reset <= w.windowSeconds
      && (r.oldestScore + w.Ms() <= now + 1000 * reset <==> r.oldestScore <= now)
      && now + 1000 * (reset - 1) < r.oldestScore + w.Ms()
  {
  }

  /** THE RESET IS HONEST. After a refusal at `now` that advertises `resetSeconds`, however
      many further attempts are refused meanwhile: an attempt that many seconds after `now`
      is admitted exactly when the oldest entry is not in the future, and then it is the least
      such whole number of seconds, between one and the window. */
  lemma ResetIsHonest(w: Window, z: ZSet, now: int, m: Member, refused: seq<Attempt>, m': Member)
    requires w.limit >= 1 && w.windowSeconds >= 1
    requires Sorted(z) && |z| <= w.limit && (forall x | x in z :: x.score >= 0)
    requires !Script(z, now, w, m).reply.allowed
    requires AllRefused(w, z, refused)
    ensures var reset := Decide(Script(z, now, w, m).reply, w, now).resetSeconds;
      var later := PlainRun(w, Script(z, now, w, m).z, refused);
      && 1 <= reset <= w.windowSeconds
      && (Script(later, now + 1000 * reset, w, m').reply.allowed <==> z[0].score <= now)
      && (forall k | 0 <= k < reset :: !Script(later, now + 1000 * k, w, m').reply.allowed)
      && (forall t | t < z[0].score + w.Ms() :: !Script(later, t, w, m').reply.allowed)
  {
    RefusalKeepsSet(z, now, w, m);
    RefusalsKeepSet(w, z, refused);
    FullSetReset(w, z, now, m, m');
    var reset := Decide(Script(z, now, w, m).reply, w, now).resetSeconds;
    forall k | 0 <= k < reset ensures !Script(z, now + 1000 * k, w, m').reply.allowed {
      assert now + 1000 * k <= now + 1000 * (reset - 1);
    }
  }

  lemma FullSetReset(w: Window, z: ZSet, now: int, m: Member, m': Member)
    requires w.limit >= 1 && w.windowSeconds >= 1
    requires Sorted(z) && |z| <= w.limit && (forall x | x in z :: x.score >= 0)
    requires !Script(z, now, w, m).reply.allowed
    ensures z != []
    ensures forall t :: Script(z, t, w, m').reply.allowed <==> z[0].score + w.Ms() <= t
    ensures var reset := Decide(Script(z, now, w, m).reply, w, now).resetSeconds;
      && 1 <= reset <= w.windowSeconds
      && (z[0].score + w.Ms() <= now + 1000 * reset <==> z[0].score <= now)
      && now + 1000 * (reset - 1) < z[0].score + w.Ms()
  {
    FullWhenRefused(w, z, now, m);
    RefusedUntilOldestLeaves(z, now, w, m);
    forall t ensures Script(z, t, w, m').reply.allowed <==> z[0].score + w.Ms() <= t {
      RefusedUntilOldestLeaves(z, t, w, m');
    }
    ResetIsLeastWholeSecond(w, Script(z, now, w, m).reply, now);
  }

  /** Two clocks reach the other side: one admission by an instance whose clock is ahead, and
      the instance on time advertises a reset after which it refuses again. */
  lemma FutureScoreOutlastsReset(w: Window, ahead: nat, m: Member, m': Member)
    requires w.limit == 1 && w.windowSeconds >= 1 && ahead >= 1
    ensures var z := SetOf(After(w, [Attempt(0.0, ahead, m, 0.0)]));
      var first := Script(z, 0, w, m');
      && z == [Entry(ahead, m)] && !first.reply.allowed
      && Decide(first.reply, w, 0).resetSeconds == w.windowSeconds
      && !Script(first.z, 1000 * w.windowSeconds, w, m').reply.allowed
  {
    var es := [Attempt(0.0, ahead, m, 0.0)];
    assert es[..0] == [];
    LastRun(w, es);
    assert Live(After(w, []), 0.0) == [];
    assert Script([], ahead, w, m).z == [Entry(ahead, m)];
    PruneKeepsLive([Entry(ahead, m)], 0 - w.Ms());
    PruneKeepsLive([Entry(ahead, m)], 0);
  }

  /** How many of a burst of attempts, all at one instant, are admitted. */
  function Burst(w: Window, z: ZSet, now: int, ms: seq<Member>): nat
    decreases |ms|
  {
    if ms == [] then 0
    else
      var s := Script(z, now, w, ms[0]);
      (if s.reply.allowed then 1 else 0) + Burst(w, s.z, now, ms[1..])
  }

  ghost predicate NewMembers(z: ZSet, ms: seq<Member>) {
    && (forall i, j | 0 <= i < j < |ms| :: ms[i] != ms[j])
    && (forall i, x | 0 <= i < |ms| && x in z :: x.member != ms[i])
  }

  /** A set already pruned for this instant admits until it is full. */
  lemma {:induction false} BurstFillsUp(w: Window, z: ZSet, now: int, ms: seq<Member>)
    requires w.windowSeconds >= 1 && |z| <= w.limit && NewMembers(z, ms)
    requires forall x | x in z :: !(0 <= x.score <= now - w.Ms())
    ensures Burst(w, z, now, ms) == Min(|ms|, w.limit - |z|)
    decreases |ms|
  {
    if ms != [] {
      var s := Script(z, now, w, ms[0]);
      PruneKeepsLive(z, now - w.Ms());
      ScriptEffect(z, now, w, ms[0]);
      assert forall i | 0 <= i < |ms[1..]| :: ms[1..][i] == ms[i + 1];
      assert s.reply.allowed <==> |z| < w.limit;
      BurstFillsUp(w, s.z, now, ms[1..]);
    }
  }

  lemma {:induction false} PruneKeepsLive(z: ZSet, hi: int)
    requires forall x | x in z :: !(0 <= x.score <= hi)
    ensures Prune(z, hi) == z
  {
    if z != [] {
      assert z[0] in z;
      PruneKeepsLive(z[1..], hi);
    }
  }

  /** THE REMAINING COUNT IS HONEST. Of any number of further attempts at the same instant
      exactly as many are admitted as the decision said remain. */
  lemma RemainingIsHonest(w: Window, z: ZSet, now: int, m: Member, ms: seq<Member>)
    requires w.windowSeconds >= 1 && |z| <= w.limit && NewMembers(z, [m] + ms)
    ensures var s := Script(z, now, w, m);
      Burst(w, s.z, now, ms) == Min(|ms|, Decide(s.reply, w, now).remaining)
  {
    var s := Script(z, now, w, m);
    var all := [m] + ms;
    assert all[0] == m && forall i | 0 <= i < |ms| :: all[i + 1] == ms[i];
    ScriptEffect(z, now, w, m);
    BurstFillsUp(w, s.z, now, ms);
  }

  lemma OneClockPrefix(es: seq<Attempt>, n: nat)
    requires InOrder(es) && OneClock(es) && n <= |es|
    ensures InOrder(es[..n]) && OneClock(es[..n])
  {
    assert forall i | 0 <= i < n :: es[..n][i] == es[i];
  }

  /** One step of a run, by position. */
  lemma PlainStepAt(w: Window, es: seq<Attempt>, k: nat)
    requires 0 < k <= |es|
    ensures var s := Script(PlainAfter(w, es[..k - 1]), es[k - 1].now, w, es[k - 1].member);
      PlainAfter(w, es[..k]) == s.z && PlainReplyTo(w, es[..k]) == s.reply
  {
    assert es[..k][..k - 1] == es[..k - 1] && es[..k][k - 1] == es[k - 1];
    PlainStep(w, es[..k]);
  }

  /** On one clock the expiry does not show in any answer of a run. */
  lemma AnswerAt(w: Window, es: seq<Attempt>, k: nat)
    requires w.windowSeconds >= 1 && InOrder(es) && OneClock(es) && 0 < k <= |es|
    ensures ReplyTo(w, es[..k]) == PlainReplyTo(w, es[..k])
    ensures ReplyTo(w, es[..k])
         == Script(PlainAfter(w, es[..k - 1]), es[k - 1].now, w, es[k - 1].member).reply
  {
    OneClockPrefix(es, k);
    ExpiryNeverChangesAnAnswer(w, es[..k]);
    PlainStepAt(w, es, k);
  }

  /** The set before attempt `n`. */
  lemma SetOnOneClock(w: Window, es: seq<Attempt>, n: nat)
    requires w.windowSeconds >= 1 && InOrder(es) && OneClock(es) && n < |es|
    ensures var z := PlainAfter(w, es[..n]);
      Sorted(z) && |z| <= w.limit && forall x | x in z :: 0 <= x.score <= es[n].now
  {
    if n > 0 {
      OneClockPrefix(es, n);
      ExpiryNeverChangesAnAnswer(w, es[..n]);
      ReachableSetsHaveNoFutureScores(w, es[..n]);
      InTurn(es, n - 1, n);
    }
  }

  /** A run of refusals leaves the set as it was. */
  lemma {:induction false} RefusedRunKeepsSet(w: Window, es: seq<Attempt>, n: nat, k: nat)
    requires n <= k <= |es| && |PlainAfter(w, es[..n])| <= w.limit
    requires forall j | n < j <= k :: !PlainReplyTo(w, es[..j]).allowed
    ensures PlainAfter(w, es[..k]) == PlainAfter(w, es[..n])
  {
    if k > n {
      RefusedRunKeepsSet(w, es, n, k - 1);
      PlainStepAt(w, es, k);
      RefusalKeepsSet(PlainAfter(w, es[..k - 1]), es[k - 1].now, w, es[k - 1].member);
    }
  }

  lemma SetWhileRefused(w: Window, es: seq<Attempt>, n: nat)
    requires w.windowSeconds >= 1 && InOrder(es) && OneClock(es) && n < |es|
    requires forall j | n < j < |es| :: !ReplyTo(w, es[..j]).allowed
    ensures PlainAfter(w, es[..|es| - 1]) == PlainAfter(w, es[..n])
  {
    assert |PlainAfter(w, es[..n])| <= w.limit by { SetOnOneClock(w, es, n); }
    RefusedPlainly(w, es, n);
    RefusedRunKeepsSet(w, es, n, |es| - 1);
  }

  lemma RefusedPlainly(w: Window, es: seq<Attempt>, n: nat)
    requires w.windowSeconds >= 1 && InOrder(es) && OneClock(es)
    requires forall j | n < j < |es| :: !ReplyTo(w, es[..j]).allowed
    ensures forall j | n < j < |es| :: !PlainReplyTo(w, es[..j]).allowed
  {
    forall j | n < j < |es| ensures !PlainReplyTo(w, es[..j]).allowed { AnswerAt(w, es, j); }
  }

  /** A refusal at `now` and the answer to an attempt at `later`: admitted once the advertised
      seconds have gone by, refused if one second fewer has. */
  predicate HonestReset(refusal: Reply, answer: Reply, w: Window, now: int, later: int) {
    var reset := Decide(refusal, w, now).resetSeconds;
    && 1 <= reset <= w.windowSeconds
    && (later >= now + 1000 * reset ==> answer.allowed)
    && (later <= now + 1000 * (reset - 1) ==> !answer.allowed)
  }

  lemma ResetOnSet(w: Window, z: ZSet, e: Attempt, f: Attempt)
    requires w.limit >= 1 && w.windowSeconds >= 1
    requires Sorted(z) && |z| <= w.limit && forall x | x in z :: 0 <= x.score <= e.now
    requires !Script(z, e.now, w, e.member).reply.allowed
    ensures HonestReset(Script(z, e.now, w, e.member).reply, Script(z, f.now, w, f.member).reply, w, e.now, f.now)
  {
    FullSetReset(w, z, e.now, e.member, f.member);
    assert z[0] in z;
  }

  /** Both answers are given on the set before attempt `n`. */
  lemma AnswersOnOneSet(w: Window, es: seq<Attempt>, n: nat)
    requires w.windowSeconds >= 1 && InOrder(es) && OneClock(es) && n + 1 < |es|
    requires forall j | n < j < |es| :: !ReplyTo(w, es[..j]).allowed
    ensures var z, e, f := PlainAfter(w, es[..n]), es[n], es[|es| - 1];
      && ReplyTo(w, es[..n + 1]) == Script(z, e.now, w, e.member).reply
      && ReplyTo(w, es) == Script(z, f.now, w, f.member).reply
  {
    AnswerAt(w, es, n + 1);
    LastAnswer(w, es);
    SetWhileRefused(w, es, n);
  }

  lemma LastAnswer(w: Window, es: seq<Attempt>)
    requires w.windowSeconds >= 1 && InOrder(es) && OneClock(es) && es != []
    ensures var f := es[|es| - 1];
      ReplyTo(w, es) == Script(PlainAfter(w, es[..|es| - 1]), f.now, w, f.member).reply
  {
    ExpiryNeverChangesAnAnswer(w, es);
    PlainStep(w, es);
  }

  /** THE RESET IS HONEST OVER RUNS. On one clock, expiry included: once attempt `n` is refused
      and every later one but the last too, the last is admitted if the advertised seconds have
      gone by, and refused if one second fewer has. */
  lemma ResetIsHonestOverRuns(w: Window, es: seq<Attempt>, n: nat)
    requires w.limit >= 1 && w.windowSeconds >= 1 && InOrder(es) && OneClock(es) && n + 1 < |es|
    requires forall j | n < j < |es| :: !ReplyTo(w, es[..j]).allowed
    ensures HonestReset(ReplyTo(w, es[..n + 1]), ReplyTo(w, es), w, es[n].now, es[|es| - 1].now)
  {
    AnswersOnOneSet(w, es, n);
    SetOnOneClock(w, es, n);
    ResetOnSet(w, PlainAfter(w, es[..n]), es[n], es[|es| - 1]);
  }

  /** On one clock every reachable set meets the conditions of an honest reset. */
  lemma ReachableSetsHaveNoFutureScores(w: Window, es: seq<Attempt>)
    requires w.windowSeconds >= 1 && InOrder(es) && es != []
    requires forall i | 0 <= i < |es| :: es[i].at == es[i].now as real
    ensures var z := SetOf(After(w, es));
      Sorted(z) && |z| <= w.limit && forall x | x in z :: 0 <= x.score <= es[|es| - 1].now
  {
    CardinalityNeverExceedsLimit(w, es);
    ScoresAreTimestamps(w, es);
    SetStaysSorted(w, es);
  }

  lemma {:induction false} SetStaysSorted(w: Window, es: seq<Attempt>)
    requires w.windowSeconds >= 1 && InOrder(es)
    ensures Sorted(SetOf(After(w, es)))
  {
    if es != [] {
      var e, prev := es[|es| - 1], es[..|es| - 1];
      LastSplit(es);
      SetStaysSorted(w, prev);
      LastRun(w, es);
      NextIsNew(w, prev, e);
      ScriptSorted(Live(After(w, prev), e.at), e.now, w, e.member);
    }
  }
}
