/** Redaction of trees: identity on clean ones, and a second pass over a first one. */
module RedactionLaws {
  import opened Redaction

  /** No error node anywhere in the tree. */
  predicate ErrorFree(o: Out) {
    match o
    case OError(_, _) => false
    case OArray(items) => forall i | 0 <= i < |items| :: ErrorFree(items[i])
    case OObject(slots) => forall i | 0 <= i < |slots| :: ErrorFree(slots[i].value)
    case _ => true
  }

  /** What redaction makes of a tree: nothing is shared, so nothing is circular. */
  function RedactTree(o: Out, depth: nat, p: Patterns): Out
    requires ErrorFree(o)
    decreases o, 0
  {
    if depth > MAX_DEPTH then OText(REDACTED)
    else match o
      case OText(s) => OText(if p.looksSecret(s) then REDACTED else s)
      case OArray(items) => OArray(RedactTrees(items, depth, p))
      case OObject(slots) => OObject(RedactTreeSlots(slots, depth, p))
      case _ => o
  }

  function RedactTrees(items: seq<Out>, depth: nat, p: Patterns): seq<Out>
    requires forall i | 0 <= i < |items| :: ErrorFree(items[i])
    decreases items, 1
  {
    if items == [] then [] else [RedactTree(items[0], depth + 1, p)] + RedactTrees(items[1..], depth, p)
  }

  function RedactTreeSlot(key: string, o: Out, depth: nat, p: Patterns): seq<Field>
    requires ErrorFree(o)
    decreases o, 1
  {
    if o.OFunction? then []
    else if KeyIsSecret(key) then Entry(key, OText(REDACTED))
    else Entry(key, RedactTree(o, depth + 1, p))
  }

  function RedactTreeSlots(slots: seq<Field>, depth: nat, p: Patterns): seq<Field>
    requires forall i | 0 <= i < |slots| :: ErrorFree(slots[i].value)
    decreases slots, 1
  {
    if slots == [] then []
    else RedactTreeSlot(slots[0].key, slots[0].value, depth, p) + RedactTreeSlots(slots[1..], depth, p)
  }

  // ----- trees in a heap ------------------------------------------------------------

  /** The heap objects a value embeds as the tree `o`. */
  function Footprint(h: Heap, v: Value, o: Out): set<Ref>
    decreases o, 0
  {
    match o
    case OArray(items) =>
      if v.Pointer? && v.r in h && h[v.r].ArrayNode? then {v.r} + ItemsFootprint(h, h[v.r].items, items) else {}
    case OObject(slots) =>
      if v.Pointer? && v.r in h && h[v.r].ObjectNode? then {v.r} + SlotsFootprint(h, h[v.r].slots, slots) else {}
    case _ => {}
  }

  function ItemsFootprint(h: Heap, vs: seq<Value>, items: seq<Out>): set<Ref>
    decreases items, 1
  {
    if items == [] || vs == [] then {} else Footprint(h, vs[0], items[0]) + ItemsFootprint(h, vs[1..], items[1..])
  }

  function SlotsFootprint(h: Heap, ss: seq<(string, Slot)>, slots: seq<Field>): set<Ref>
    decreases slots, 1
  {
    if slots == [] || ss == [] || ss[0].1.Throws? then {}
    else Footprint(h, ss[0].1.v, slots[0].value) + SlotsFootprint(h, ss[1..], slots[1..])
  }

  /** The value is the tree `o`, with no object of it shared. */
  ghost predicate IsTree(h: Heap, v: Value, o: Out)
    decreases o, 0
  {
    match o
    case OText(s) => v == Text(s)
    case OPrimitive(n) => v == Primitive(n)
    case OFunction => v == Function
    case OArray(items) =>
      && v.Pointer? && v.r in h && h[v.r].ArrayNode?
      && v.r !in ItemsFootprint(h, h[v.r].items, items) && AreTrees(h, h[v.r].items, items)
    case OObject(slots) =>
      && v.Pointer? && v.r in h && h[v.r].ObjectNode?
      && v.r !in SlotsFootprint(h, h[v.r].slots, slots) && AreSlotTrees(h, h[v.r].slots, slots)
    case OError(_, _) => false
  }

  ghost predicate AreTrees(h: Heap, vs: seq<Value>, items: seq<Out>)
    decreases items, 1
  {
    if items == [] then vs == []
    else
      && vs != [] && IsTree(h, vs[0], items[0]) && AreTrees(h, vs[1..], items[1..])
      && Footprint(h, vs[0], items[0]) !! ItemsFootprint(h, vs[1..], items[1..])
  }

  ghost predicate AreSlotTrees(h: Heap, ss: seq<(string, Slot)>, slots: seq<Field>)
    decreases slots, 1
  {
    if slots == [] then ss == []
    else
      && ss != [] && ss[0].0 == slots[0].key && ss[0].1.Plain?
      && IsTree(h, ss[0].1.v, slots[0].value) && AreSlotTrees(h, ss[1..], slots[1..])
      && Footprint(h, ss[0].1.v, slots[0].value) !! SlotsFootprint(h, ss[1..], slots[1..])
  }

  lemma {:induction false} TreesAreErrorFree(h: Heap, v: Value, o: Out)
    requires IsTree(h, v, o)
    ensures ErrorFree(o)
    decreases o, 0
  {
    match o
    case OArray(items) => ItemsAreErrorFree(h, h[v.r].items, items);
    case OObject(slots) => SlotsAreErrorFree(h, h[v.r].slots, slots);
    case _ =>
  }

  lemma {:induction false} ItemsAreErrorFree(h: Heap, vs: seq<Value>, items: seq<Out>)
    requires AreTrees(h, vs, items)
    ensures forall i | 0 <= i < |items| :: ErrorFree(items[i])
    decreases items, 1
  {
    if items != [] {
      TreesAreErrorFree(h, vs[0], items[0]);
      ItemsAreErrorFree(h, vs[1..], items[1..]);
    }
  }

  lemma {:induction false} SlotsAreErrorFree(h: Heap, ss: seq<(string, Slot)>, slots: seq<Field>)
    requires AreSlotTrees(h, ss, slots)
    ensures forall i | 0 <= i < |slots| :: ErrorFree(slots[i].value)
    decreases slots, 1
  {
    if slots != [] {
      TreesAreErrorFree(h, ss[0].1.v, slots[0].value);
      SlotsAreErrorFree(h, ss[1..], slots[1..]);
    }
  }

  /** Walking an unshared tree is redacting the tree, and marks only its own objects. */
  lemma {:induction false} WalkOfTree(h: Heap, v: Value, o: Out, depth: nat, seen: set<Ref>, p: Patterns)
    requires Closed(h) && (v.Pointer? ==> v.r in h)
    requires IsTree(h, v, o) && seen !! Footprint(h, v, o)
    ensures ErrorFree(o) && Walk(h, v, depth, seen, p).out == RedactTree(o, depth, p)
    ensures Walk(h, v, depth, seen, p).seen <= seen + Footprint(h, v, o)
    decreases o, 0
  {
    TreesAreErrorFree(h, v, o);
    if depth <= MAX_DEPTH {
      match o
      case OArray(items) => WalkOfItems(h, h[v.r].items, items, depth, seen + {v.r}, p);
      case OObject(slots) => WalkOfSlots(h, h[v.r].slots, slots, depth, seen + {v.r}, p);
      case _ =>
    }
  }

  lemma {:induction false} WalkOfItems(h: Heap, vs: seq<Value>, items: seq<Out>, depth: nat, seen: set<Ref>,
                                       p: Patterns)
    requires Closed(h) && depth <= MAX_DEPTH && forall v | v in vs && v.Pointer? :: v.r in h
    requires AreTrees(h, vs, items) && seen !! ItemsFootprint(h, vs, items)
    requires forall i | 0 <= i < |items| :: ErrorFree(items[i])
    ensures WalkItems(h, vs, depth, seen, p).outs == RedactTrees(items, depth, p)
    ensures WalkItems(h, vs, depth, seen, p).seen <= seen + ItemsFootprint(h, vs, items)
    decreases items, 1
  {
    if items != [] {
      WalkOfTree(h, vs[0], items[0], depth + 1, seen, p);
      WalkOfItems(h, vs[1..], items[1..], depth, Walk(h, vs[0], depth + 1, seen, p).seen, p);
    }
  }

  lemma {:induction false} WalkOfSlots(h: Heap, ss: seq<(string, Slot)>, slots: seq<Field>, depth: nat, seen: set<Ref>,
                                       p: Patterns)
    requires Closed(h) && depth <= MAX_DEPTH && forall s | s in ss :: SlotClosed(h, s.1)
    requires AreSlotTrees(h, ss, slots) && seen !! SlotsFootprint(h, ss, slots)
    requires forall i | 0 <= i < |slots| :: ErrorFree(slots[i].value)
    ensures WalkSlots(h, ss, depth, seen, p).slots == RedactTreeSlots(slots, depth, p)
    ensures WalkSlots(h, ss, depth, seen, p).seen <= seen + SlotsFootprint(h, ss, slots)
    decreases slots, 1
  {
    if slots != [] {
      WalkOfTree(h, ss[0].1.v, slots[0].value, depth + 1, seen, p);
      WalkOfSlots(h, ss[1..], slots[1..], depth, WalkSlot(h, ss[0].0, ss[0].1, depth, seen, p).seen, p);
      assert slots[0].value.OFunction? <==> ss[0].1.v.Function?;
    }
  }

  // ----- identity -------------------------------------------------------------------

  /** Nothing to redact: no secret text, no secret key, no function as a property, and at
      most `room` levels of nesting. */
  ghost predicate Clean(o: Out, room: int, p: Patterns)
    decreases o
  {
    && room >= 0
    && match o
       case OText(s) => !p.looksSecret(s)
       case OArray(items) => forall i | 0 <= i < |items| :: Clean(items[i], room - 1, p)
       case OObject(slots) =>
         forall i | 0 <= i < |slots| ::
           && Clean(slots[i].value, room - 1, p) && !slots[i].value.OFunction?
           && !KeyIsSecret(slots[i].key) && slots[i].key != "__proto__"
       case OError(_, _) => false
       case _ => true
  }

  lemma {:induction false} CleanTreesAreFixed(o: Out, depth: nat, p: Patterns)
    requires Clean(o, MAX_DEPTH - depth, p)
    ensures ErrorFree(o) && RedactTree(o, depth, p) == o
    decreases o, 0
  {
    match o
    case OArray(items) => CleanItemsAreFixed(items, depth, p);
    case OObject(slots) => CleanSlotsAreFixed(slots, depth, p);
    case _ =>
  }

  lemma {:induction false} CleanItemsAreFixed(items: seq<Out>, depth: nat, p: Patterns)
    requires forall i | 0 <= i < |items| :: Clean(items[i], MAX_DEPTH - depth - 1, p)
    ensures forall i | 0 <= i < |items| :: ErrorFree(items[i])
    ensures RedactTrees(items, depth, p) == items
    decreases items, 1
  {
    if items != [] {
      CleanTreesAreFixed(items[0], depth + 1, p);
      CleanItemsAreFixed(items[1..], depth, p);
    }
  }

  lemma {:induction false} CleanSlotsAreFixed(slots: seq<Field>, depth: nat, p: Patterns)
    requires forall i | 0 <= i < |slots| ::
      && Clean(slots[i].value, MAX_DEPTH - depth - 1, p) && !slots[i].value.OFunction?
      && !KeyIsSecret(slots[i].key) && slots[i].key != "__proto__"
    ensures forall i | 0 <= i < |slots| :: ErrorFree(slots[i].value)
    ensures RedactTreeSlots(slots, depth, p) == slots
    decreases slots, 1
  {
    if slots != [] {
      CleanTreesAreFixed(slots[0].value, depth + 1, p);
      CleanSlotsAreFixed(slots[1..], depth, p);
    }
  }

  /** Redaction is the identity on an unshared, clean tree of at most twelve levels. */
  lemma CleanTreesSurvive(h: Heap, v: Value, o: Out, p: Patterns)
    requires Closed(h) && (v.Pointer? ==> v.r in h) && IsTree(h, v, o) && Clean(o, MAX_DEPTH, p)
    ensures Walk(h, v, 0, {}, p).out == o
  {
    CleanTreesAreFixed(o, 0, p);
    WalkOfTree(h, v, o, 0, {}, p);
  }

  // ----- twice ----------------------------------------------------------------------

  ghost predicate NoErrors(h: Heap) {
    forall r | r in h :: !h[r].ErrorNode?
  }

  /** Every unreadable marker left stands where redaction would leave it alone: under a key
      that is not secret, of an object that is not at the deepest level. */
  predicate Settled(o: Out, depth: nat) {
    match o
    case OArray(items) => forall i | 0 <= i < |items| :: Settled(items[i], depth + 1)
    case OObject(slots) => forall i | 0 <= i < |slots| :: SettledField(slots[i], depth)
    case _ => true
  }

  predicate SettledField(f: Field, depth: nat) {
    && Settled(f.value, depth + 1)
    && (f.value == OText(UNREADABLE) ==> !KeyIsSecret(f.key) && depth < MAX_DEPTH)
  }

  ghost predicate NothingThrows(h: Heap) {
    forall r | r in h && h[r].ObjectNode? :: forall s | s in h[r].slots :: s.1.Plain?
  }

  /** What a first pass leaves is fixed by a second exactly when it is settled, and it is
      settled when no getter throws. */
  lemma {:induction false} SecondPassKeeps(h: Heap, v: Value, depth: nat, seen: set<Ref>, p: Patterns)
    requires Closed(h) && Harmless(h, p) && NoErrors(h) && (v.Pointer? ==> v.r in h)
    ensures var o := Walk(h, v, depth, seen, p).out;
      && ErrorFree(o) && (RedactTree(o, depth, p) == o <==> Settled(o, depth))
      && (NothingThrows(h) ==> Settled(o, depth))
    decreases MAX_DEPTH + 1 - depth, 0
  {
    if depth <= MAX_DEPTH && v.Pointer? && v.r !in seen {
      match h[v.r]
      case ArrayNode(items) => SecondPassKeepsItems(h, items, depth, seen + {v.r}, p);
      case ObjectNode(slots) => SecondPassKeepsSlots(h, slots, depth, seen + {v.r}, p);
      case _ =>
    }
  }

  lemma {:induction false} SecondPassKeepsItems(h: Heap, items: seq<Value>, depth: nat, seen: set<Ref>, p: Patterns)
    requires Closed(h) && Harmless(h, p) && NoErrors(h) && depth <= MAX_DEPTH
    requires forall v | v in items && v.Pointer? :: v.r in h
    ensures var os := WalkItems(h, items, depth, seen, p).outs;
      && (forall i | 0 <= i < |os| :: ErrorFree(os[i]))
      && (RedactTrees(os, depth, p) == os <==> Settled(OArray(os), depth))
      && (NothingThrows(h) ==> Settled(OArray(os), depth))
    decreases MAX_DEPTH + 1 - depth - 1, |items| + 1
  {
    if items != [] {
      var first := Walk(h, items[0], depth + 1, seen, p);
      SecondPassKeeps(h, items[0], depth + 1, seen, p);
      SecondPassKeepsItems(h, items[1..], depth, first.seen, p);
      ConsItemKept(first.out, WalkItems(h, items[1..], depth, first.seen, p).outs, depth, p);
    }
  }

  lemma ConsItemKept(o: Out, rest: seq<Out>, depth: nat, p: Patterns)
    requires ErrorFree(o) && forall i | 0 <= i < |rest| :: ErrorFree(rest[i])
    ensures var os := [o] + rest;
      && (forall i | 0 <= i < |os| :: ErrorFree(os[i]))
      && (RedactTrees(os, depth, p) == os <==> RedactTree(o, depth + 1, p) == o && RedactTrees(rest, depth, p) == rest)
      && (Settled(OArray(os), depth) <==> Settled(o, depth + 1) && Settled(OArray(rest), depth))
  {
    var os, again := [o] + rest, [RedactTree(o, depth + 1, p)] + RedactTrees(rest, depth, p);
    assert os[0] == o && os[1..] == rest;
    assert forall i | 0 <= i < |rest| :: os[i + 1] == rest[i];
    assert RedactTrees(os, depth, p) == again;
    assert again[0] == RedactTree(o, depth + 1, p) && again[1..] == RedactTrees(rest, depth, p);
  }

  lemma {:induction false} SecondPassKeepsSlots(h: Heap, slots: seq<(string, Slot)>, depth: nat, seen: set<Ref>,
                                                p: Patterns)
    requires Closed(h) && Harmless(h, p) && NoErrors(h) && depth <= MAX_DEPTH
    requires forall s | s in slots :: SlotClosed(h, s.1)
    ensures var os := WalkSlots(h, slots, depth, seen, p).slots;
      && (forall i | 0 <= i < |os| :: ErrorFree(os[i].value))
      && (RedactTreeSlots(os, depth, p) == os <==> Settled(OObject(os), depth))
      && (NothingThrows(h) && (forall s | s in slots :: s.1.Plain?) ==> Settled(OObject(os), depth))
    decreases MAX_DEPTH + 1 - depth - 1, |slots| + 2
  {
    if slots != [] {
      var first := WalkSlot(h, slots[0].0, slots[0].1, depth, seen, p);
      SecondPassKeepsSlot(h, slots[0].0, slots[0].1, depth, seen, p);
      SecondPassKeepsSlots(h, slots[1..], depth, first.seen, p);
      var rest := WalkSlots(h, slots[1..], depth, first.seen, p).slots;
      if first.slots == [] {
        assert first.slots + rest == rest;
      } else {
        ConsFieldKept(first.slots[0], rest, depth, p);
        assert first.slots == [first.slots[0]];
      }
    }
  }

  /** One property: dropped, or kept by a second pass exactly when it is settled. */
  lemma SecondPassKeepsSlot(h: Heap, key: string, slot: Slot, depth: nat, seen: set<Ref>, p: Patterns)
    requires Closed(h) && Harmless(h, p) && NoErrors(h) && depth <= MAX_DEPTH && SlotClosed(h, slot)
    ensures var os := WalkSlot(h, key, slot, depth, seen, p).slots;
      os != [] ==>
        && |os| == 1 && ErrorFree(os[0].value)
        && (RedactTreeSlot(os[0].key, os[0].value, depth, p) == os <==> SettledField(os[0], depth))
        && |RedactTreeSlot(os[0].key, os[0].value, depth, p)| == 1
        && (NothingThrows(h) && slot.Plain? ==> SettledField(os[0], depth))
    decreases MAX_DEPTH + 1 - depth - 1, 1
  {
    assert REDACTED != UNREADABLE by { assert |REDACTED| == 10 && |UNREADABLE| == 12; }
    if slot.Plain? { SecondPassKeeps(h, slot.v, depth + 1, seen, p); }
  }

  lemma ConsFieldKept(f: Field, rest: seq<Field>, depth: nat, p: Patterns)
    requires ErrorFree(f.value) && forall i | 0 <= i < |rest| :: ErrorFree(rest[i].value)
    requires |RedactTreeSlot(f.key, f.value, depth, p)| == 1
    ensures var os := [f] + rest;
      && (forall i | 0 <= i < |os| :: ErrorFree(os[i].value))
      && (RedactTreeSlots(os, depth, p) == os <==>
            RedactTreeSlot(f.key, f.value, depth, p) == [f] && RedactTreeSlots(rest, depth, p) == rest)
      && (Settled(OObject(os), depth) <==> SettledField(f, depth) && Settled(OObject(rest), depth))
  {
    var os, one, again := [f] + rest, RedactTreeSlot(f.key, f.value, depth, p), RedactTreeSlots(rest, depth, p);
    assert os[0] == f && os[1..] == rest;
    assert forall i | 0 <= i < |rest| :: os[i + 1] == rest[i];
    assert RedactTreeSlots(os, depth, p) == one + again;
    assert (one + again)[..1] == one && (one + again)[1..] == again;
    assert os[..1] == [f];
  }

  /** REDACTING TWICE. On a graph without error nodes a second redaction, of any heap that
      holds the result of the first as a tree, changes nothing exactly when that result is
      settled, as it is when no getter throws. */
  lemma SecondRedactionChangesNothing(h: Heap, v: Value, p: Patterns, h': Heap, v': Value)
    requires Closed(h) && Harmless(h, p) && NoErrors(h) && (v.Pointer? ==> v.r in h)
    requires Closed(h') && (v'.Pointer? ==> v'.r in h') && IsTree(h', v', Walk(h, v, 0, {}, p).out)
    ensures var once := Walk(h, v, 0, {}, p).out;
      && (Walk(h', v', 0, {}, p).out == once <==> Settled(once, 0))
      && (NothingThrows(h) ==> Walk(h', v', 0, {}, p).out == once)
  {
    SecondPassKeeps(h, v, 0, {}, p);
    WalkOfTree(h', v', Walk(h, v, 0, {}, p).out, 0, {}, p);
  }

  /** Where it fails: a throwing getter under a secret key is unreadable at first, and
      redacted when it is read back. */
  lemma ThrowingSecretIsRedactedLater(key: string, p: Patterns)
    requires KeyIsSecret(key) && key != "__proto__"
    ensures var h: Heap := map[0 := ObjectNode([(key, Throws)])];
      var once := OObject([Field(key, OText(UNREADABLE))]);
      && Closed(h) && Walk(h, Pointer(0), 0, {}, p).out == once
      && RedactTree(once, 0, p) == OObject([Field(key, OText(REDACTED))])
  {
    var slots: seq<(string, Slot)> := [(key, Throws)];
    assert slots[1..] == [];
    var fields := [Field(key, OText(UNREADABLE))];
    assert fields[1..] == [];
    var h: Heap := map[0 := ObjectNode(slots)];
    assert Closed(h);
    assert WalkSlots(h, slots, 0, {0}, p).slots == fields + [];
    assert RedactTreeSlots(fields, 0, p) == [Field(key, OText(REDACTED))] + [];
  }

  // ----- which keys are secret ------------------------------------------------------

  /** The character reads as this lower-case letter: in either case, or as one of the two
      characters outside ASCII that lower-case to a letter. */
  predicate ReadsAs(c: char, l: char) {
    || ('a' <= l <= 'z' && (c == l || c as int + 32 == l as int))
    || (c == '\U{212A}' && l == 'k') || (c == '\U{130}' && l == 'i')
  }

  predicate IsLetter(c: char) {
    'a' <= c <= 'z' || 'A' <= c <= 'Z' || c == '\U{212A}' || c == '\U{130}'
  }

  /** The text spells the word: its letters in order, in any case, with anything that is no
      letter in between. */
  predicate Spells(text: string, word: string) {
    if text == "" then word == ""
    else if IsLetter(text[0]) then word != "" && ReadsAs(text[0], word[0]) && Spells(text[1..], word[1..])
    else Spells(text[1..], word)
  }

  predicate IsSecretWord(word: string) {
    || word == "password" || word == "passwd" || word == "secret" || word == "token" || word == "apikey"
    || word == "authorization" || word == "cookie" || word == "privatekey" || word == "sessionid"
    || word == "mfasecret"
  }

  /** Some part of the key spells a secret word. */
  ghost predicate HoldsSecretWord(key: string) {
    exists a, u, b, word :: key == a + u + b && IsSecretWord(word) && Spells(u, word)
  }

  lemma SecretWords(word: string)
    ensures IsSecretWord(word) <==> word in FRAGMENTS
  {
    assert forall i | 0 <= i < |FRAGMENTS| :: FRAGMENTS[i] in FRAGMENTS;
    if IsSecretWord(word) {
      assert word == FRAGMENTS[0] || word == FRAGMENTS[1] || word == FRAGMENTS[2] || word == FRAGMENTS[3]
        || word == FRAGMENTS[4] || word == FRAGMENTS[5] || word == FRAGMENTS[6] || word == FRAGMENTS[7]
        || word == FRAGMENTS[8] || word == FRAGMENTS[9];
    }
  }

  lemma LetterReads(c: char)
    ensures IsLetter(c) <==> Letter(c) != ""
    ensures Letter(c) != "" ==> |Letter(c)| == 1 && forall l :: ReadsAs(c, l) <==> [l] == Letter(c)
  {
  }

  lemma {:induction false} SpellsIsNormalised(text: string, word: string)
    ensures Spells(text, word) <==> Normalise(text) == word
  {
    if text != "" {
      LetterReads(text[0]);
      if IsLetter(text[0]) {
        var l := Letter(text[0])[0];
        if word != "" {
          SpellsIsNormalised(text[1..], word[1..]);
          assert word == [word[0]] + word[1..];
          assert Normalise(text) == [l] + Normalise(text[1..]);
          assert ([l] + Normalise(text[1..]))[1..] == Normalise(text[1..]);
        }
      } else {
        SpellsIsNormalised(text[1..], word);
        assert Normalise(text) == "" + Normalise(text[1..]) == Normalise(text[1..]);
      }
    }
  }

  lemma NormaliseOne(c: char)
    ensures Normalise([c]) == Letter(c)
  {
    assert [c][1..] == [];
    assert Normalise([c]) == Letter(c) + Normalise([]);
    assert Letter(c) + [] == Letter(c);
  }

  lemma NormaliseLast(s: string, c: char)
    ensures |Normalise(s + [c])| == |Normalise(s)| + |Letter(c)| && |Letter(c)| <= 1
  {
    NormaliseAppends(s, [c]);
    NormaliseOne(c);
    LetterReads(c);
  }

  /** Some part of the text from its start normalises to so many letters. */
  lemma {:induction false} CutAfter(text: string, n: nat) returns (k: nat)
    requires n <= |Normalise(text)|
    ensures k <= |text| && |Normalise(text[..k])| == n
  {
    k := |text|;
    assert text[..k] == text;
    if |Normalise(text)| > n {
      var m := |text| - 1;
      assert text == text[..m] + [text[m]];
      NormaliseLast(text[..m], text[m]);
      k := CutAfter(text[..m], n);
      assert text[..m][..k] == text[..k];
    }
  }

  /** Where the normalised text is cut, the text can be cut. */
  lemma CutNormalised(text: string, x: string, y: string) returns (a: string, b: string)
    requires Normalise(text) == x + y
    ensures text == a + b && Normalise(a) == x && Normalise(b) == y
  {
    var k := CutAfter(text, |x|);
    a, b := text[..k], text[k..];
    assert text == a + b;
    NormaliseAppends(a, b);
    SameCut(Normalise(a), Normalise(b), x, y);
  }

  lemma SameCut(a: string, b: string, x: string, y: string)
    requires a + b == x + y && |a| == |x|
    ensures a == x && b == y
  {
    assert a == (a + b)[..|a|] && x == (x + y)[..|x|] && b == (a + b)[|a|..] && y == (x + y)[|x|..];
  }

  lemma Found(s: string, part: string) returns (before: string, after: string)
    requires Includes(s, part)
    ensures s == before + (part + after)
  {
    var i :| 0 <= i <= |s| && OccursAt(s, part, i);
    before, after := s[..i], s[i..][|part|..];
    assert s[i..] == part + after;
    assert s == s[..i] + s[i..];
  }

  lemma SecretHoldsWord(key: string, word: string)
    requires IsSecretWord(word) && Includes(Normalise(key), word)
    ensures HoldsSecretWord(key)
  {
    var before, after := Found(Normalise(key), word);
    var a, tail := CutNormalised(key, before, word + after);
    var u, b := CutNormalised(tail, word, after);
    SpellsIsNormalised(u, word);
    assert key == a + u + b;
  }

  /** A key is secret exactly when some part of it spells a secret word. */
  lemma SecretKeysExactly(key: string)
    ensures KeyIsSecret(key) <==> HoldsSecretWord(key)
  {
    if KeyIsSecret(key) {
      var word :| word in FRAGMENTS && Includes(Normalise(key), word);
      SecretWords(word);
      SecretHoldsWord(key, word);
    }
    if HoldsSecretWord(key) {
      var a, u, b, word :| key == a + u + b && IsSecretWord(word) && Spells(u, word);
      SpellsIsNormalised(u, word);
      SecretWords(word);
      SpelledFragmentIsSecret(a, u, b);
    }
  }

  // ----- what each value becomes ----------------------------------------------------

  /** What redaction may leave of a value, position by position; only a repeated object is
      circular. */
  ghost predicate IsRedactionOf(h: Heap, v: Value, o: Out, depth: nat, p: Patterns)
    requires Closed(h) && (v.Pointer? ==> v.r in h)
    decreases o, 0
  {
    if depth > 12 then o == OText("[redacted]")
    else match v
      case Text(s) => o == OText(if p.looksSecret(s) then "[redacted]" else s)
      case Primitive(n) => o == OPrimitive(n)
      case Function => o == OFunction
      case Pointer(r) =>
        o == OText("[circular]") ||
        match h[r]
        case DateNode(iso) => o == OText(iso)
        case ErrorNode(name, message) =>
          o == OError(name, if message.Text? then p.scrub(message.s) else "[redacted]")
        case ArrayNode(items) =>
          o.OArray? && |o.items| == |items|
          && forall i | 0 <= i < |items| :: IsRedactionOf(h, ItemOf(h, items, i), o.items[i], depth + 1, p)
        case ObjectNode(slots) => o.OObject? && AreRedactionsOf(h, slots, o.slots, depth, p)
  }

  function ItemOf(h: Heap, items: seq<Value>, i: nat): (v: Value)
    requires i < |items| && forall v | v in items && v.Pointer? :: v.r in h
    ensures v.Pointer? ==> v.r in h
  {
    assert items[i] in items;
    items[i]
  }

  /** The properties of an object: functions and `__proto__` go, a getter that throws is
      unreadable, a secret key is redacted, and every other value is redacted in turn. */
  ghost predicate AreRedactionsOf(h: Heap, slots: seq<(string, Slot)>, fields: seq<Field>, depth: nat, p: Patterns)
    requires Closed(h) && forall s | s in slots :: SlotClosed(h, s.1)
    decreases fields, |slots|
  {
    if slots == [] then fields == []
    else
      var key, slot := slots[0].0, slots[0].1;
      if key == "__proto__" || slot == Plain(Function) then AreRedactionsOf(h, slots[1..], fields, depth, p)
      else
        && fields != [] && fields[0].key == key && AreRedactionsOf(h, slots[1..], fields[1..], depth, p)
        && if slot.Throws? then fields[0].value == OText("[unreadable]")
           else if HoldsSecretWord(key) then fields[0].value == OText("[redacted]")
           else
             assert SlotClosed(h, slots[0].1);
             IsRedactionOf(h, slot.v, fields[0].value, depth + 1, p)
  }

  /** WHAT REDACTION LEAVES. On any finite graph every value becomes what the rules say of it,
      the markers included; a repeated object is circular, and no other is. */
  lemma {:induction false} WalkRedacts(h: Heap, v: Value, depth: nat, seen: set<Ref>, p: Patterns)
    requires Closed(h) && (v.Pointer? ==> v.r in h)
    ensures IsRedactionOf(h, v, Walk(h, v, depth, seen, p).out, depth, p)
    ensures depth <= 12 && v.Pointer? && v.r in seen ==> Walk(h, v, depth, seen, p).out == OText("[circular]")
    ensures depth <= 12 && v.Pointer? && v.r !in seen && !h[v.r].DateNode? ==> !Walk(h, v, depth, seen, p).out.OText?
    ensures depth <= 12 && v.Pointer? && v.r !in seen && h[v.r].DateNode? ==>
      Walk(h, v, depth, seen, p).out == OText(h[v.r].iso)
    decreases MAX_DEPTH + 1 - depth, 0
  {
    if depth <= MAX_DEPTH && v.Pointer? && v.r !in seen {
      match h[v.r]
      case ArrayNode(items) => WalkRedactsItems(h, items, depth, seen + {v.r}, p);
      case ObjectNode(slots) => WalkRedactsSlots(h, slots, depth, seen + {v.r}, p);
      case _ =>
    }
  }

  lemma {:induction false} WalkRedactsItems(h: Heap, items: seq<Value>, depth: nat, seen: set<Ref>, p: Patterns)
    requires Closed(h) && depth <= MAX_DEPTH && forall v | v in items && v.Pointer? :: v.r in h
    ensures var outs := WalkItems(h, items, depth, seen, p).outs;
      |outs| == |items| && forall i | 0 <= i < |items| :: IsRedactionOf(h, ItemOf(h, items, i), outs[i], depth + 1, p)
    decreases MAX_DEPTH + 1 - depth - 1, |items| + 1
  {
    if items != [] {
      var first := Walk(h, items[0], depth + 1, seen, p);
      WalkRedacts(h, items[0], depth + 1, seen, p);
      WalkRedactsItems(h, items[1..], depth, first.seen, p);
      var rest := WalkItems(h, items[1..], depth, first.seen, p).outs;
      forall i | 0 < i < |items| ensures IsRedactionOf(h, ItemOf(h, items, i), ([first.out] + rest)[i], depth + 1, p) {
        assert ItemOf(h, items[1..], i - 1) == ItemOf(h, items, i);
      }
    }
  }

  lemma {:induction false} WalkRedactsSlots(h: Heap, slots: seq<(string, Slot)>, depth: nat, seen: set<Ref>,
                                            p: Patterns)
    requires Closed(h) && depth <= MAX_DEPTH && forall s | s in slots :: SlotClosed(h, s.1)
    ensures AreRedactionsOf(h, slots, WalkSlots(h, slots, depth, seen, p).slots, depth, p)
    decreases MAX_DEPTH + 1 - depth - 1, |slots| + 1
  {
    if slots != [] {
      var key, slot := slots[0].0, slots[0].1;
      var first := WalkSlot(h, key, slot, depth, seen, p);
      if slot.Plain? { WalkRedacts(h, slot.v, depth + 1, seen, p); }
      SecretKeysExactly(key);
      WalkRedactsSlots(h, slots[1..], depth, first.seen, p);
      var rest := WalkSlots(h, slots[1..], depth, first.seen, p).slots;
      if first.slots == [] {
        assert first.slots + rest == rest;
      } else {
        assert (first.slots + rest)[1..] == rest;
      }
    }
  }
}
