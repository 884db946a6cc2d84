/**
 * The registry behind the "bubbles virtually" SlotFillProvider: a map from
 * slot name to the slot's metadata and a map from slot name to the ordered
 * list of refs of the fills that target it. Fills are kept in document
 * order at insertion time, and a slot's `key` is flipped whenever a fill is
 * inserted before another so that consumers keyed on it re-render.
 *
 * Each React `setX(updater)` is one synchronous transition; the updaters are
 * the pure functions below and the class applies them to its two fields.
 */
module BubblesVirtually {
  import opened Js

  /** `Node.DOCUMENT_POSITION_PRECEDING`, one bit of the mask returned by
      `compareDocumentPosition`. */
  const DOCUMENT_POSITION_PRECEDING: bv16 := 0x02

  /** What the registry can observe of the DOM when a fill registers:
      whether a `window` exists, what each ref's `.current` points at (None
      when unset), and `a.compareDocumentPosition(b)` as a bitmask. */
  datatype Dom<!R, !N> = Dom(
    hasWindow: bool,
    current: R -> Option<N>,
    compareDocumentPosition: (N, N) -> bv16)

  /** A slot entry. Every field may be missing: `registerFill` creates an
      entry holding only `key`, and `registerSlot` keeps whatever else the
      entry already had. */
  datatype Slot<R, V> = Slot(ref: Option<R>, fillProps: Option<Props<V>>, key: Option<int>)

  type Slots<R, V> = map<string, Slot<R, V>>
  type Fills<R> = map<string, seq<R>>

  /** The comparator of `getIndexBasedOnDOMPosition`: true when `newRef`'s
      element lies earlier in the document than `existingRef`'s. */
  function Precedes<R, N>(dom: Dom<R, N>, newRef: R, existingRef: R): (b: bool)
    ensures b ==> dom.hasWindow && dom.current(existingRef).Some? && dom.current(newRef).Some?
    ensures dom.hasWindow && dom.current(existingRef).Some? && dom.current(newRef).Some? ==>
              (b <==> dom.compareDocumentPosition(dom.current(existingRef).value, dom.current(newRef).value)
                        & DOCUMENT_POSITION_PRECEDING != 0)
  {
    if !dom.hasWindow || dom.current(existingRef).None? || dom.current(newRef).None? then false
    else
      dom.compareDocumentPosition(dom.current(existingRef).value, dom.current(newRef).value)
        & DOCUMENT_POSITION_PRECEDING != 0
  }

  /** `getIndexBasedOnDOMPosition`: the first existing fill that the new one
      precedes, or -1 when it precedes none of them (in particular whenever
      there is no window or the new ref is not attached). */
  function IndexBasedOnDomPosition<R, N>(dom: Dom<R, N>, newRef: R, existingRefs: seq<R>): (i: int)
    ensures -1 <= i < |existingRefs|
    ensures 0 <= i ==> Precedes(dom, newRef, existingRefs[i])
    ensures 0 <= i ==> forall k :: 0 <= k < i ==> !Precedes(dom, newRef, existingRefs[k])
    ensures i == -1 <==> forall k :: 0 <= k < |existingRefs| ==> !Precedes(dom, newRef, existingRefs[k])
    ensures !dom.hasWindow || dom.current(newRef).None? ==> i == -1
  {
    FindIndex(existingRefs, existingRef => Precedes(dom, newRef, existingRef))
  }

  /** The ordering key after an order-changing insertion: the negation of a
      truthy key, otherwise 1. */
  function NextKey(key: Option<int>): (k: int)
    ensures k != 0
    ensures Some(k) != key
    ensures key.Some? && key.value != 0 ==> k == -key.value
    ensures !(key.Some? && key.value != 0) ==> k == 1
  {
    if key.Some? && key.value != 0 then -key.value else 1
  }

  /** `prevFills[name] || []`. */
  function FillsOf<R>(fills: Fills<R>, name: string): seq<R>
  {
    if name in fills then fills[name] else []
  }

  /** The arguments with which `registerSlot` does not throw: a falsy `ref`
      or an explicit falsy `fillProps` reads the previous entry. */
  predicate CanRegisterSlot<R, V>(slots: Slots<R, V>, name: string, ref: Option<R>, fillProps: Arg<Props<V>>)
  {
    name in slots || (ref.Some? && !fillProps.Falsy?)
  }

  /** The `setSlots` updater of `registerSlot`. */
  function SlotRegistered<R, V>(slots: Slots<R, V>, name: string, ref: Option<R>, fillProps: Arg<Props<V>>): (r: Slots<R, V>)
    requires CanRegisterSlot(slots, name, ref, fillProps)
    ensures r.Keys == slots.Keys + {name}
    ensures forall n :: n in slots && n != name ==> r[n] == slots[n]
    ensures ref.Some? ==> r[name].ref == ref
    ensures ref.None? ==> r[name].ref == slots[name].ref
    ensures fillProps.Undefined? ==> r[name].fillProps == Some(map[])
    ensures fillProps.Given? ==> r[name].fillProps == Some(fillProps.value)
    ensures fillProps.Falsy? && slots[name].fillProps.Some? ==> r[name].fillProps == slots[name].fillProps
    ensures fillProps.Falsy? && slots[name].fillProps.None? ==> r[name].fillProps == Some(map[])
    ensures r[name].key == if name in slots then slots[name].key else None
  {
    var prev := if name in slots then slots[name] else Slot(None, None, None);
    var props := match fillProps
      case Undefined => map[]
      case Given(p) => p
      case Falsy => if prev.fillProps.Some? then prev.fillProps.value else map[];
    slots[name := prev.(ref := if ref.Some? then ref else prev.ref, fillProps := Some(props))]
  }

  /** The `setSlots` updater of `unregisterSlot`. */
  function SlotUnregistered<R, V>(slots: Slots<R, V>, name: string): (r: Slots<R, V>)
    ensures r.Keys == slots.Keys - {name}
    ensures forall n :: n in r ==> r[n] == slots[n]
    ensures name !in slots ==> r == slots
  {
    slots - {name}
  }

  /** The `setSlots` updater that `registerFill` issues after an insertion. */
  function KeyBumped<R, V>(slots: Slots<R, V>, name: string): (r: Slots<R, V>)
    ensures r.Keys == slots.Keys + {name}
    ensures forall n :: n in slots && n != name ==> r[n] == slots[n]
    ensures r[name].key.Some? && r[name].key.value != 0
    ensures name in slots ==> r[name].key != slots[name].key
    ensures name in slots ==> r[name].ref == slots[name].ref && r[name].fillProps == slots[name].fillProps
    ensures name in slots && slots[name].key.Some? && slots[name].key.value != 0 ==>
              r[name].key == Some(-slots[name].key.value)
    ensures name in slots && !(slots[name].key.Some? && slots[name].key.value != 0) ==>
              r[name].key == Some(1)
    ensures name !in slots ==> r[name] == Slot(None, None, Some(1))
  {
    var prev := if name in slots then slots[name] else Slot(None, None, None);
    slots[name := prev.(key := Some(NextKey(prev.key)))]
  }

  /** A fill list after `ref` has been registered into it: inserted before
      the first fill it precedes in the document, or appended. */
  function FillInserted<R, N>(dom: Dom<R, N>, prevSlotFills: seq<R>, ref: R): (s: seq<R>)
    ensures |s| == |prevSlotFills| + 1
    ensures IndexBasedOnDomPosition(dom, ref, prevSlotFills) == -1 ==> s == prevSlotFills + [ref]
    ensures var i := IndexBasedOnDomPosition(dom, ref, prevSlotFills);
            0 <= i ==> s[i] == ref && RemoveAt(s, i) == prevSlotFills
  {
    var nextIndex := IndexBasedOnDomPosition(dom, ref, prevSlotFills);
    if nextIndex == -1 then prevSlotFills + [ref]
    else InsertAt(prevSlotFills, nextIndex, ref)
  }

  /** The `setFills` updater of `registerFill`. */
  function FillRegistered<R, N>(dom: Dom<R, N>, fills: Fills<R>, name: string, ref: R): (r: Fills<R>)
    ensures r.Keys == fills.Keys + {name}
    ensures forall n :: n in fills && n != name ==> r[n] == fills[n]
    ensures r[name] == FillInserted(dom, FillsOf(fills, name), ref)
  {
    fills[name := FillInserted(dom, FillsOf(fills, name), ref)]
  }

  /** The `setFills` updater of `unregisterFill`. */
  function FillUnregistered<R(==)>(fills: Fills<R>, name: string, ref: R): (r: Fills<R>)
    ensures r.Keys == fills.Keys
    ensures forall n :: n in fills && n != name ==> r[n] == fills[n]
    ensures name in fills ==> ref !in r[name]
    ensures name in fills ==> multiset(r[name]) == multiset(fills[name])[ref := 0]
    ensures name !in fills ==> r == fills
  {
    if name in fills then fills[name := Without(fills[name], ref)] else fills
  }

  /** Every key the registry ever stores is 1 or -1 (or missing). */
  ghost predicate KeysAreTokens<R, V>(slots: Slots<R, V>)
  {
    forall n :: n in slots ==> slots[n].key == None || slots[n].key == Some(1) || slots[n].key == Some(-1)
  }

  class SlotRegistry<R(==), V> {
    var slots: Slots<R, V>
    var fills: Fills<R>

    ghost predicate Valid()
      reads this
    {
      KeysAreTokens(slots)
    }

    /** `useState({})` for both maps. */
    constructor ()
      ensures Valid()
      ensures slots == map[] && fills == map[]
    {
      slots := map[];
      fills := map[];
    }

    /** `registerSlot` (also exposed as `updateSlot`). */
    method RegisterSlot(name: string, ref: Option<R>, fillProps: Arg<Props<V>>)
      requires Valid()
      requires CanRegisterSlot(slots, name, ref, fillProps)
      modifies this
      ensures Valid()
      ensures slots == SlotRegistered(old(slots), name, ref, fillProps)
      ensures fills == old(fills)
    {
      slots := SlotRegistered(slots, name, ref, fillProps);
    }

    method UnregisterSlot(name: string)
      requires Valid()
      modifies this
      ensures Valid()
      ensures slots == SlotUnregistered(old(slots), name)
      ensures fills == old(fills)
    {
      slots := SlotUnregistered(slots, name);
    }

    /** `registerFill`: the `setFills` transition together with the nested
        `setSlots` it issues when the new fill is inserted before another. */
    method RegisterFill<N>(dom: Dom<R, N>, name: string, ref: R)
      requires Valid()
      modifies this
      ensures Valid()
      ensures fills == FillRegistered(dom, old(fills), name, ref)
      ensures IndexBasedOnDomPosition(dom, ref, FillsOf(old(fills), name)) == -1 ==> slots == old(slots)
      ensures IndexBasedOnDomPosition(dom, ref, FillsOf(old(fills), name)) != -1 ==>
                slots == KeyBumped(old(slots), name)
    {
      var prevSlotFills := FillsOf(fills, name);
      var nextIndex := IndexBasedOnDomPosition(dom, ref, prevSlotFills);
      if nextIndex != -1 {
        slots := KeyBumped(slots, name);
      }
      fills := FillRegistered(dom, fills, name, ref);
    }

    method UnregisterFill(name: string, ref: R)
      requires Valid()
      modifies this
      ensures Valid()
      ensures fills == FillUnregistered(old(fills), name, ref)
      ensures slots == old(slots)
    {
      fills := FillUnregistered(fills, name, ref);
    }
  }

  /** The new fill lands directly before the first existing fill it precedes
      in the document; every fill before it is one it does not precede. */
  lemma RegisterFillPlacement<R, N>(dom: Dom<R, N>, fills: Fills<R>, name: string, ref: R)
    ensures var prev := FillsOf(fills, name);
            var s := FillRegistered(dom, fills, name, ref)[name];
            exists p :: 0 <= p < |s| && s[p] == ref && RemoveAt(s, p) == prev &&
              (forall k :: 0 <= k < p ==> !Precedes(dom, ref, s[k])) &&
              (p + 1 < |s| ==> Precedes(dom, ref, s[p + 1]))
  {
    var prev := FillsOf(fills, name);
    var s := FillRegistered(dom, fills, name, ref)[name];
    var i := IndexBasedOnDomPosition(dom, ref, prev);
    if i == -1 {
      var p := |prev|;
      assert s[..p] == prev;
      assert forall k :: 0 <= k < p ==> s[k] == prev[k];
      assert RemoveAt(s, p) == prev;
    } else {
      assert s[..i] == prev[..i];
      assert forall k :: 0 <= k < i ==> s[k] == prev[k];
      assert s[i + 1] == prev[i];
    }
  }

  /** Two inserting `registerFill`s in a row bring a nonzero key back. */
  lemma KeyBumpAlternates<R, V>(slots: Slots<R, V>, name: string)
    requires name in slots && slots[name].key.Some? && slots[name].key.value != 0
    ensures KeyBumped(KeyBumped(slots, name), name) == slots
  {
    var twice := KeyBumped(KeyBumped(slots, name), name);
    assert twice[name] == slots[name];
    assert twice.Keys == slots.Keys;
  }

  /** `unregisterFill` a second time with the same arguments changes nothing. */
  lemma UnregisterFillIdempotent<R>(fills: Fills<R>, name: string, ref: R)
    ensures FillUnregistered(FillUnregistered(fills, name, ref), name, ref) == FillUnregistered(fills, name, ref)
  {
    if name in fills {
      WithoutIdempotent(fills[name], ref);
    }
  }

  /** `unregisterFill` keeps the relative order of the remaining fills: on a
      list split anywhere it acts on each part separately. */
  lemma UnregisterFillKeepsOrder<R>(fills: Fills<R>, name: string, ref: R, a: seq<R>, b: seq<R>)
    requires name in fills && fills[name] == a + b
    ensures FillUnregistered(fills, name, ref)[name] == Without(a, ref) + Without(b, ref)
  {
    WithoutConcat(a, b, ref);
  }

  /** `registerSlot` with the same arguments a second time changes nothing
      (its `key` included). */
  lemma RegisterSlotIdempotent<R, V>(slots: Slots<R, V>, name: string, ref: Option<R>, fillProps: Arg<Props<V>>)
    requires CanRegisterSlot(slots, name, ref, fillProps)
    ensures var once := SlotRegistered(slots, name, ref, fillProps);
            SlotRegistered(once, name, ref, fillProps) == once
  {
    var once := SlotRegistered(slots, name, ref, fillProps);
    var twice := SlotRegistered(once, name, ref, fillProps);
    assert twice[name] == once[name];
  }

  /** Registering a slot and unregistering it again leaves the name absent
      and every other slot as it was. */
  lemma RegisterThenUnregisterSlot<R, V>(slots: Slots<R, V>, name: string, ref: Option<R>, fillProps: Arg<Props<V>>)
    requires CanRegisterSlot(slots, name, ref, fillProps)
    ensures SlotUnregistered(SlotRegistered(slots, name, ref, fillProps), name) == slots - {name}
  {
    var r := SlotUnregistered(SlotRegistered(slots, name, ref, fillProps), name);
    assert r.Keys == (slots - {name}).Keys;
  }

  /** Every transition keeps the keys to 1, -1 or missing. */
  lemma TransitionsKeepTokens<R, V>(slots: Slots<R, V>, name: string, ref: Option<R>, fillProps: Arg<Props<V>>)
    requires KeysAreTokens(slots)
    ensures CanRegisterSlot(slots, name, ref, fillProps) ==> KeysAreTokens(SlotRegistered(slots, name, ref, fillProps))
    ensures KeysAreTokens(SlotUnregistered(slots, name))
    ensures KeysAreTokens(KeyBumped(slots, name))
  {
  }

  /** A fill registered next to a single existing fill goes first exactly
      when it precedes that fill in the document. */
  lemma RegisterSecondFill<R, N>(dom: Dom<R, N>, h1: R, h2: R)
    ensures FillInserted(dom, [h1], h2) == if Precedes(dom, h2, h1) then [h2, h1] else [h1, h2]
  {
    var s := FillInserted(dom, [h1], h2);
    if Precedes(dom, h2, h1) {
      assert RemoveAt(s, 0) == s[1..];
    } else {
      assert IndexBasedOnDomPosition(dom, h2, [h1]) == -1;
    }
  }

  /** A helper for `TwoFills`: filtering one of two distinct fills out
      leaves the other. */
  lemma UnregisterOneOfTwo<R>(s: seq<R>, h1: R, h2: R)
    requires h1 != h2 && (s == [h1, h2] || s == [h2, h1])
    ensures Without(s, h1) == [h2]
  {
    assert s == [s[0]] + [s[1]];
    WithoutConcat([s[0]], [s[1]], h1);
  }

  /** Two fills registered one after the other: the second goes first if
      it precedes the first in the document, and last otherwise (also when
      the order cannot be determined). Unregistering the first leaves only
      the second, and unregistering it again changes nothing. */
  lemma TwoFills<R, N>(dom: Dom<R, N>, fills: Fills<R>, name: string, h1: R, h2: R)
    requires name !in fills && h1 != h2
    ensures var f2 := FillRegistered(dom, FillRegistered(dom, fills, name, h1), name, h2);
            && f2[name] == (if Precedes(dom, h2, h1) then [h2, h1] else [h1, h2])
            && FillUnregistered(f2, name, h1)[name] == [h2]
            && FillUnregistered(FillUnregistered(f2, name, h1), name, h1) == FillUnregistered(f2, name, h1)
  {
    var f1 := FillRegistered(dom, fills, name, h1);
    assert FillsOf(f1, name) == [h1] by {
      assert FillsOf(fills, name) == [];
    }
    RegisterSecondFill(dom, h1, h2);
    var f2 := FillRegistered(dom, f1, name, h2);
    UnregisterOneOfTwo(f2[name], h1, h2);
    UnregisterFillIdempotent(f2, name, h1);
  }
}
