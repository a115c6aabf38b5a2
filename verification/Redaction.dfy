/** Structural redaction of a possibly cyclic object graph. */
module Redaction {
  const REDACTED := "[redacted]"
  const CIRCULAR := "[circular]"
  const UNREADABLE := "[unreadable]"
  const MAX_DEPTH: nat := 12

  type Ref = nat

  /** A value: a string, another primitive (null, undefined, number, boolean), a function,
      or a reference into the heap. */
  datatype Value = Text(s: string) | Primitive(n: int) | Function | Pointer(r: Ref)

  /** An own enumerable property: a value, or a getter that throws. */
  datatype Slot = Plain(v: Value) | Throws

  datatype Node =
    | DateNode(iso: string)
    | ErrorNode(name: Value, message: Value)
    | ArrayNode(items: seq<Value>)
    | ObjectNode(slots: seq<(string, Slot)>)

  type Heap = map<Ref, Node>

  /** What redaction builds: fresh objects, so a tree. `Error` is the plain object with a
      name and a message that stands for an error. */
  datatype Out =
    | OText(s: string)
    | OPrimitive(n: int)
    | OFunction
    | OArray(items: seq<Out>)
    | OObject(slots: seq<Field>)
    | OError(name: Value, message: string)

  datatype Field = Field(key: string, value: Out)

  /** What counts as a secret value, and what is left of a text once the secrets in it are
      replaced. */
  datatype Patterns = Patterns(looksSecret: string -> bool, scrub: string -> string)

  // ----- keys -----------------------------------------------------------------------

  const FRAGMENTS := ["password", "passwd", "secret", "token", "apikey", "authorization", "cookie",
                      "privatekey", "sessionid", "mfasecret"]

  /** The lower-case letter a character leaves in the normalised key, if any. Two characters
      outside ASCII lower-case to a letter: the Kelvin sign and the dotted capital I. */
  function Letter(c: char): string {
    if 'a' <= c <= 'z' then [c]
    else if 'A' <= c <= 'Z' then [(c as int + 32) as char]
    else if c == '\U{212A}' then "k"
    else if c == '\U{130}' then "i"
    else ""
  }

  function Normalise(key: string): string {
    if key == [] then [] else Letter(key[0]) + Normalise(key[1..])
  }

  predicate OccursAt(s: string, part: string, i: nat) {
    i <= |s| && part <= s[i..]
  }

  predicate Includes(s: string, part: string) {
    exists i | 0 <= i <= |s| :: OccursAt(s, part, i)
  }

  predicate KeyIsSecret(key: string) {
    exists f | f in FRAGMENTS :: Includes(Normalise(key), f)
  }

  // ----- the walk -------------------------------------------------------------------

  /** The redacted value, the objects seen after it, and the objects it expanded, in order. */
  datatype Walked = Walked(out: Out, seen: set<Ref>, expanded: seq<Ref>)

  datatype WalkedItems = WalkedItems(outs: seq<Out>, seen: set<Ref>, expanded: seq<Ref>)

  datatype WalkedSlots = WalkedSlots(slots: seq<Field>, seen: set<Ref>, expanded: seq<Ref>)

  function Atom(v: Value, p: Patterns): Out
    requires !v.Pointer?
  {
    match v
    case Text(s) => OText(if p.looksSecret(s) then REDACTED else s)
    case Primitive(n) => OPrimitive(n)
    case Function => OFunction
  }

  function ScrubbedMessage(message: Value, p: Patterns): string {
    if message.Text? then p.scrub(message.s) else REDACTED
  }

  function Walk(h: Heap, v: Value, depth: nat, seen: set<Ref>, p: Patterns): Walked
    requires Closed(h) && (v.Pointer? ==> v.r in h)
    decreases MAX_DEPTH + 1 - depth, 0
  {
    if depth > MAX_DEPTH then Walked(OText(REDACTED), seen, [])
    else if !v.Pointer? then Walked(Atom(v, p), seen, [])
    else if v.r in seen then Walked(OText(CIRCULAR), seen, [])
    else
      match h[v.r]
      case DateNode(iso) => Walked(OText(iso), seen + {v.r}, [v.r])
      case ErrorNode(name, message) => Walked(OError(name, ScrubbedMessage(message, p)), seen + {v.r}, [v.r])
      case ArrayNode(items) =>
        var w := WalkItems(h, items, depth, seen + {v.r}, p);
        Walked(OArray(w.outs), w.seen, [v.r] + w.expanded)
      case ObjectNode(slots) =>
        var w := WalkSlots(h, slots, depth, seen + {v.r}, p);
        Walked(OObject(w.slots), w.seen, [v.r] + w.expanded)
  }

  function WalkItems(h: Heap, items: seq<Value>, depth: nat, seen: set<Ref>, p: Patterns): WalkedItems
    requires Closed(h) && depth <= MAX_DEPTH && forall v | v in items && v.Pointer? :: v.r in h
    decreases MAX_DEPTH + 1 - depth - 1, |items| + 1
  {
    if items == [] then WalkedItems([], seen, [])
    else
      var first := Walk(h, items[0], depth + 1, seen, p);
      var rest := WalkItems(h, items[1..], depth, first.seen, p);
      WalkedItems([first.out] + rest.outs, rest.seen, first.expanded + rest.expanded)
  }

  /** An own property named `__proto__` cannot be written by assignment, so it is lost. */
  function Entry(key: string, out: Out): seq<Field> {
    if key == "__proto__" then [] else [Field(key, out)]
  }

  predicate SlotClosed(h: Heap, slot: Slot) {
    slot.Plain? && slot.v.Pointer? ==> slot.v.r in h
  }

  function WalkSlot(h: Heap, key: string, slot: Slot, depth: nat, seen: set<Ref>, p: Patterns): WalkedSlots
    requires Closed(h) && depth <= MAX_DEPTH && SlotClosed(h, slot)
    decreases MAX_DEPTH + 1 - depth - 1, 1
  {
    if slot.Throws? then WalkedSlots(Entry(key, OText(UNREADABLE)), seen, [])
    else if slot.v.Function? then WalkedSlots([], seen, [])
    else if KeyIsSecret(key) then WalkedSlots(Entry(key, OText(REDACTED)), seen, [])
    else
      var w := Walk(h, slot.v, depth + 1, seen, p);
      WalkedSlots(Entry(key, w.out), w.seen, w.expanded)
  }

  function WalkSlots(h: Heap, slots: seq<(string, Slot)>, depth: nat, seen: set<Ref>, p: Patterns): WalkedSlots
    requires Closed(h) && depth <= MAX_DEPTH && forall s | s in slots :: SlotClosed(h, s.1)
    decreases MAX_DEPTH + 1 - depth - 1, |slots| + 2
  {
    if slots == [] then WalkedSlots([], seen, [])
    else
      var first := WalkSlot(h, slots[0].0, slots[0].1, depth, seen, p);
      var rest := WalkSlots(h, slots[1..], depth, first.seen, p);
      WalkedSlots(first.slots + rest.slots, rest.seen, first.expanded + rest.expanded)
  }

  /** No dangling references. */
  ghost predicate Closed(h: Heap) {
    forall r | r in h :: match h[r]
      case ArrayNode(items) => forall v | v in items && v.Pointer? :: v.r in h
      case ObjectNode(slots) => forall s | s in slots :: SlotClosed(h, s.1)
      case _ => true
  }

  lemma TakeItem(h: Heap, items: seq<Value>, i: nat, depth: nat, seen: set<Ref>, p: Patterns)
    requires Closed(h) && depth <= MAX_DEPTH && i < |items| && forall v | v in items && v.Pointer? :: v.r in h
    ensures items[i] in items
    ensures var first := Walk(h, items[i], depth + 1, seen, p);
      var rest := WalkItems(h, items[i + 1..], depth, first.seen, p);
      var both := WalkItems(h, items[i..], depth, seen, p);
      both.outs == [first.out] + rest.outs && both.seen == rest.seen
  {
    assert items[i..][0] == items[i] && items[i..][1..] == items[i + 1..];
  }

  lemma TakeSlot(h: Heap, slots: seq<(string, Slot)>, i: nat, depth: nat, seen: set<Ref>, p: Patterns)
    requires Closed(h) && depth <= MAX_DEPTH && i < |slots| && forall s | s in slots :: SlotClosed(h, s.1)
    ensures slots[i] in slots
    ensures var first := WalkSlot(h, slots[i].0, slots[i].1, depth, seen, p);
      var rest := WalkSlots(h, slots[i + 1..], depth, first.seen, p);
      var both := WalkSlots(h, slots[i..], depth, seen, p);
      both.slots == first.slots + rest.slots && both.seen == rest.seen
  {
    assert slots[i..][0] == slots[i] && slots[i..][1..] == slots[i + 1..];
  }

  /** The walk as the source runs it: one seen-set shared by the whole call. */
  class Redactor {
    const heap: Heap
    const patterns: Patterns
    var seen: set<Ref>

    constructor (heap: Heap, patterns: Patterns)
      ensures this.heap == heap && this.patterns == patterns && seen == {}
    {
      this.heap, this.patterns, seen := heap, patterns, {};
    }

    method Redact(v: Value, depth: nat) returns (out: Out)
      requires Closed(heap) && (v.Pointer? ==> v.r in heap)
      modifies this
      ensures var w := Walk(heap, v, depth, old(seen), patterns); out == w.out && seen == w.seen
      decreases MAX_DEPTH + 1 - depth, 0
    {
      if depth > MAX_DEPTH {
        return OText(REDACTED);
      }
      if !v.Pointer? {
        return Atom(v, patterns);
      }
      if v.r in seen {
        return OText(CIRCULAR);
      }
      seen := seen + {v.r};
      match heap[v.r] {
        case DateNode(iso) => return OText(iso);
        case ErrorNode(name, message) => return OError(name, ScrubbedMessage(message, patterns));
        case ArrayNode(items) =>
          var outs := RedactItems(items, depth);
          return OArray(outs);
        case ObjectNode(slots) =>
          var output := RedactSlots(slots, depth);
          return OObject(output);
      }
    }

    method RedactItems(items: seq<Value>, depth: nat) returns (outs: seq<Out>)
      requires Closed(heap) && depth <= MAX_DEPTH && forall v | v in items && v.Pointer? :: v.r in heap
      modifies this
      ensures var w := WalkItems(heap, items, depth, old(seen), patterns); outs == w.outs && seen == w.seen
      decreases MAX_DEPTH + 1 - depth - 1, 2
    {
      outs := [];
      ghost var all := WalkItems(heap, items, depth, seen, patterns);
      for i := 0 to |items|
        invariant outs + WalkItems(heap, items[i..], depth, seen, patterns).outs == all.outs
        invariant WalkItems(heap, items[i..], depth, seen, patterns).seen == all.seen
      {
        TakeItem(heap, items, i, depth, seen, patterns);
        var item := Redact(items[i], depth + 1);
        ghost var rest := WalkItems(heap, items[i + 1..], depth, seen, patterns);
        assert outs + ([item] + rest.outs) == all.outs && rest.seen == all.seen;
        assert outs + ([item] + rest.outs) == (outs + [item]) + rest.outs;
        outs := outs + [item];
      }
    }

    method RedactSlots(slots: seq<(string, Slot)>, depth: nat) returns (output: seq<Field>)
      requires Closed(heap) && depth <= MAX_DEPTH && forall s | s in slots :: SlotClosed(heap, s.1)
      modifies this
      ensures var w := WalkSlots(heap, slots, depth, old(seen), patterns); output == w.slots && seen == w.seen
      decreases MAX_DEPTH + 1 - depth - 1, 2
    {
      output := [];
      ghost var all := WalkSlots(heap, slots, depth, seen, patterns);
      for i := 0 to |slots|
        invariant output + WalkSlots(heap, slots[i..], depth, seen, patterns).slots == all.slots
        invariant WalkSlots(heap, slots[i..], depth, seen, patterns).seen == all.seen
      {
        TakeSlot(heap, slots, i, depth, seen, patterns);
        var entry := RedactSlot(slots[i].0, slots[i].1, depth);
        ghost var rest := WalkSlots(heap, slots[i + 1..], depth, seen, patterns);
        assert output + (entry + rest.slots) == all.slots && rest.seen == all.seen;
        assert output + (entry + rest.slots) == (output + entry) + rest.slots;
        output := output + entry;
      }
    }

    method RedactSlot(key: string, slot: Slot, depth: nat) returns (entry: seq<Field>)
      requires Closed(heap) && depth <= MAX_DEPTH && SlotClosed(heap, slot)
      modifies this
      ensures var w := WalkSlot(heap, key, slot, depth, old(seen), patterns); entry == w.slots && seen == w.seen
      decreases MAX_DEPTH + 1 - depth - 1, 1
    {
      if slot.Throws? {
        return Entry(key, OText(UNREADABLE));
      }
      if slot.v.Function? {
        return [];
      }
      var item := OText(REDACTED);
      if !KeyIsSecret(key) {
        item := Redact(slot.v, depth + 1);
      }
      return Entry(key, item);
    }
  }

  // ----- each object once -----------------------------------------------------------

  ghost predicate Distinct(rs: seq<Ref>) {
    forall i, j | 0 <= i < j < |rs| :: rs[i] != rs[j]
  }

  /** A walk expands distinct objects, none of them seen before, and marks just those. */
  ghost predicate Fresh(seen: set<Ref>, after: set<Ref>, expanded: seq<Ref>, h: Heap) {
    && Distinct(expanded) && (forall r | r in expanded :: r !in seen && r in h)
    && after == seen + set r | r in expanded
  }

  lemma FreshAppends(seen: set<Ref>, mid: set<Ref>, after: set<Ref>, a: seq<Ref>, b: seq<Ref>, h: Heap)
    requires Fresh(seen, mid, a, h) && Fresh(mid, after, b, h)
    ensures Fresh(seen, after, a + b, h)
  {
    forall i, j | 0 <= i < j < |a + b| ensures (a + b)[i] != (a + b)[j] {
      if i < |a| <= j {
        assert a[i] in a && b[j - |a|] in b;
      }
    }
  }

  /** Every heap object is expanded at most once in a whole call, however it is reached. */
  lemma {:induction false} EachObjectOnce(h: Heap, v: Value, depth: nat, seen: set<Ref>, p: Patterns)
    requires Closed(h) && (v.Pointer? ==> v.r in h)
    ensures var w := Walk(h, v, depth, seen, p); Fresh(seen, w.seen, w.expanded, h)
    decreases MAX_DEPTH + 1 - depth, 0
  {
    if depth <= MAX_DEPTH && v.Pointer? && v.r !in seen {
      var next := seen + {v.r};
      assert Fresh(seen, next, [v.r], h);
      match h[v.r]
      case ArrayNode(items) =>
        ItemsOnce(h, items, depth, next, p);
        var w := WalkItems(h, items, depth, next, p);
        FreshAppends(seen, next, w.seen, [v.r], w.expanded, h);
      case ObjectNode(slots) =>
        SlotsOnce(h, slots, depth, next, p);
        var w := WalkSlots(h, slots, depth, next, p);
        FreshAppends(seen, next, w.seen, [v.r], w.expanded, h);
      case _ =>
    }
  }

  lemma {:induction false} ItemsOnce(h: Heap, items: seq<Value>, depth: nat, seen: set<Ref>, p: Patterns)
    requires Closed(h) && depth <= MAX_DEPTH && forall v | v in items && v.Pointer? :: v.r in h
    ensures var w := WalkItems(h, items, depth, seen, p); Fresh(seen, w.seen, w.expanded, h)
    decreases MAX_DEPTH + 1 - depth - 1, |items| + 1
  {
    if items != [] {
      EachObjectOnce(h, items[0], depth + 1, seen, p);
      var first := Walk(h, items[0], depth + 1, seen, p);
      ItemsOnce(h, items[1..], depth, first.seen, p);
      var rest := WalkItems(h, items[1..], depth, first.seen, p);
      FreshAppends(seen, first.seen, rest.seen, first.expanded, rest.expanded, h);
    }
  }

  lemma {:induction false} SlotsOnce(h: Heap, slots: seq<(string, Slot)>, depth: nat, seen: set<Ref>, p: Patterns)
    requires Closed(h) && depth <= MAX_DEPTH && forall s | s in slots :: SlotClosed(h, s.1)
    ensures var w := WalkSlots(h, slots, depth, seen, p); Fresh(seen, w.seen, w.expanded, h)
    decreases MAX_DEPTH + 1 - depth - 1, |slots| + 1
  {
    if slots != [] {
      var key, slot := slots[0].0, slots[0].1;
      var first := WalkSlot(h, key, slot, depth, seen, p);
      if slot.Plain? { EachObjectOnce(h, slot.v, depth + 1, seen, p); }
      SlotsOnce(h, slots[1..], depth, first.seen, p);
      var rest := WalkSlots(h, slots[1..], depth, first.seen, p);
      FreshAppends(seen, first.seen, rest.seen, first.expanded, rest.expanded, h);
    }
  }

  // ----- what is left ---------------------------------------------------------------

  /** Every secret key holds a marker, and outside error nodes no text looks secret. */
  ghost predicate Safe(o: Out, p: Patterns) {
    match o
    case OText(s) => !p.looksSecret(s)
    case OArray(items) => forall i | 0 <= i < |items| :: Safe(items[i], p)
    case OObject(slots) =>
      forall i | 0 <= i < |slots| ::
        && Safe(slots[i].value, p)
        && (KeyIsSecret(slots[i].key) ==> slots[i].value == OText(REDACTED) || slots[i].value == OText(UNREADABLE))
    case _ => true
  }

  /** The markers, and the dates of this graph, are no secrets. */
  ghost predicate Harmless(h: Heap, p: Patterns) {
    && !p.looksSecret(REDACTED) && !p.looksSecret(CIRCULAR) && !p.looksSecret(UNREADABLE)
    && forall r | r in h && h[r].DateNode? :: !p.looksSecret(h[r].iso)
  }

  /** REDACTION REDACTS: on any finite graph, cyclic or not, what is left is safe. */
  lemma {:induction false} RedactedIsSafe(h: Heap, v: Value, depth: nat, seen: set<Ref>, p: Patterns)
    requires Closed(h) && Harmless(h, p) && (v.Pointer? ==> v.r in h)
    ensures Safe(Walk(h, v, depth, seen, p).out, p)
    decreases MAX_DEPTH + 1 - depth, 0
  {
    if depth <= MAX_DEPTH && v.Pointer? && v.r !in seen {
      match h[v.r]
      case ArrayNode(items) => ItemsAreSafe(h, items, depth, seen + {v.r}, p);
      case ObjectNode(slots) => SlotsAreSafe(h, slots, depth, seen + {v.r}, p);
      case _ =>
    }
  }

  lemma {:induction false} ItemsAreSafe(h: Heap, items: seq<Value>, depth: nat, seen: set<Ref>, p: Patterns)
    requires Closed(h) && Harmless(h, p) && depth <= MAX_DEPTH && forall v | v in items && v.Pointer? :: v.r in h
    ensures Safe(OArray(WalkItems(h, items, depth, seen, p).outs), p)
    decreases MAX_DEPTH + 1 - depth - 1, |items| + 1
  {
    if items != [] {
      RedactedIsSafe(h, items[0], depth + 1, seen, p);
      ItemsAreSafe(h, items[1..], depth, Walk(h, items[0], depth + 1, seen, p).seen, p);
    }
  }

  lemma {:induction false} SlotsAreSafe(h: Heap, slots: seq<(string, Slot)>, depth: nat, seen: set<Ref>, p: Patterns)
    requires Closed(h) && Harmless(h, p) && depth <= MAX_DEPTH && forall s | s in slots :: SlotClosed(h, s.1)
    ensures Safe(OObject(WalkSlots(h, slots, depth, seen, p).slots), p)
    decreases MAX_DEPTH + 1 - depth - 1, |slots| + 1
  {
    if slots != [] {
      var key, slot := slots[0].0, slots[0].1;
      if slot.Plain? { RedactedIsSafe(h, slot.v, depth + 1, seen, p); }
      SlotsAreSafe(h, slots[1..], depth, WalkSlot(h, key, slot, depth, seen, p).seen, p);
    }
  }

  /** The properties that survive: all but functions, which are dropped, and `__proto__`. */
  function Surviving(slots: seq<(string, Slot)>): seq<string> {
    if slots == [] then [] else SurvivingKey(slots[0].0, slots[0].1) + Surviving(slots[1..])
  }

  function SurvivingKey(key: string, slot: Slot): seq<string> {
    if key == "__proto__" || slot == Plain(Function) then [] else [key]
  }

  function KeysOf(fields: seq<Field>): seq<string> {
    seq(|fields|, i requires 0 <= i < |fields| => fields[i].key)
  }

  lemma KeySurvives(h: Heap, key: string, slot: Slot, depth: nat, seen: set<Ref>, p: Patterns)
    requires Closed(h) && depth <= MAX_DEPTH && SlotClosed(h, slot)
    ensures KeysOf(WalkSlot(h, key, slot, depth, seen, p).slots) == SurvivingKey(key, slot)
  {
  }

  lemma KeysAppend(a: seq<Field>, b: seq<Field>)
    ensures KeysOf(a + b) == KeysOf(a) + KeysOf(b)
  {
  }

  /** Redaction loses no property and adds none, whatever it does to the values. */
  lemma {:induction false} KeysSurvive(h: Heap, slots: seq<(string, Slot)>, depth: nat, seen: set<Ref>, p: Patterns)
    requires Closed(h) && depth <= MAX_DEPTH && forall s | s in slots :: SlotClosed(h, s.1)
    ensures KeysOf(WalkSlots(h, slots, depth, seen, p).slots) == Surviving(slots)
    decreases |slots|
  {
    if slots != [] {
      var first := WalkSlot(h, slots[0].0, slots[0].1, depth, seen, p);
      KeysSurvive(h, slots[1..], depth, first.seen, p);
      var rest := WalkSlots(h, slots[1..], depth, first.seen, p);
      KeySurvives(h, slots[0].0, slots[0].1, depth, seen, p);
      KeysAppend(first.slots, rest.slots);
    }
  }

  /** A key is secret however a fragment in it is spelled: any case, any separators. */
  lemma SpelledFragmentIsSecret(before: string, spelled: string, after: string)
    requires Normalise(spelled) in FRAGMENTS
    ensures KeyIsSecret(before + spelled + after)
  {
    NormaliseAppends(before, spelled);
    NormaliseAppends(before + spelled, after);
    IncludesMiddle(Normalise(before), Normalise(spelled), Normalise(after));
  }

  lemma IncludesMiddle(a: string, part: string, b: string)
    ensures Includes(a + part + b, part)
  {
    assert (a + part + b)[|a|..] == part + b;
    assert OccursAt(a + part + b, part, |a|);
  }

  lemma {:induction false} NormaliseAppends(a: string, b: string)
    ensures Normalise(a + b) == Normalise(a) + Normalise(b)
  {
    if a == [] {
      assert a + b == b;
    } else {
      NormaliseAppends(a[1..], b);
      NormaliseCons(a[0], a[1..]);
      NormaliseCons(a[0], a[1..] + b);
      assert a == [a[0]] + a[1..];
      assert a + b == [a[0]] + (a[1..] + b);
      Regroup(Letter(a[0]), Normalise(a[1..]), Normalise(b));
    }
  }

  lemma NormaliseCons(c: char, rest: string)
    ensures Normalise([c] + rest) == Letter(c) + Normalise(rest)
  {
    assert ([c] + rest)[1..] == rest;
  }

  lemma Regroup(a: string, b: string, c: string)
    ensures a + (b + c) == (a + b) + c
  {
  }
}
