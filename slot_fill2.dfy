/**
 * The registry of the second slot/fill implementation: one map from slot
 * name to the slot's `ref` and `fillProps`, replaced through `register`,
 * `update` and `unregister`, and read by `useSlot`.
 *
 * Each React `setSlots(updater)` is one synchronous transition; the updaters
 * are the pure functions below and the class applies them to its field.
 */
module SlotFill2 {
  import opened Js

  /** A slot entry; a falsy `ref` or `fillProps` can be stored as such. */
  datatype Entry<R, V> = Entry(ref: Option<R>, fillProps: Option<Props<V>>)

  type Slots<R, V> = map<string, Entry<R, V>>

  /** The `fillProps` that `register` stores: `{}` for `undefined`. */
  function DefaultProps<V>(fillProps: Arg<Props<V>>): (p: Option<Props<V>>)
    ensures fillProps.Undefined? ==> p == Some(map[])
    ensures fillProps.Falsy? ==> p == None
    ensures fillProps.Given? ==> p == Some(fillProps.value)
  {
    match fillProps
    case Undefined => Some(map[])
    case Falsy => None
    case Given(v) => Some(v)
  }

  /** The `setSlots` updater of `register`: the entry is replaced outright. */
  function Registered<R, V>(slots: Slots<R, V>, name: string, ref: Option<R>, fillProps: Arg<Props<V>>): (r: Slots<R, V>)
    ensures r.Keys == slots.Keys + {name}
    ensures forall n :: n in slots && n != name ==> r[n] == slots[n]
    ensures r[name].ref == ref && r[name].fillProps == DefaultProps(fillProps)
  {
    slots[name := Entry(ref, DefaultProps(fillProps))]
  }

  /** The arguments with which `update` does not throw: a falsy `ref` or
      `fillProps` reads the previous entry. */
  predicate CanUpdate<R, V>(slots: Slots<R, V>, name: string, ref: Option<R>, fillProps: Option<Props<V>>)
  {
    name in slots || (ref.Some? && fillProps.Some?)
  }

  /** The `setSlots` updater of `update`: each field falls back to the
      previous one when the new value is falsy, and `fillProps` to `{}`. */
  function Updated<R, V>(slots: Slots<R, V>, name: string, ref: Option<R>, fillProps: Option<Props<V>>): (r: Slots<R, V>)
    requires CanUpdate(slots, name, ref, fillProps)
    ensures r.Keys == slots.Keys + {name}
    ensures forall n :: n in slots && n != name ==> r[n] == slots[n]
    ensures ref.Some? ==> r[name].ref == ref
    ensures ref.None? ==> r[name].ref == slots[name].ref
    ensures r[name].fillProps.Some?
    ensures fillProps.Some? ==> r[name].fillProps == fillProps
    ensures fillProps.None? && slots[name].fillProps.Some? ==> r[name].fillProps == slots[name].fillProps
    ensures fillProps.None? && slots[name].fillProps.None? ==> r[name].fillProps == Some(map[])
  {
    var nextRef := if ref.Some? then ref else slots[name].ref;
    var nextProps :=
      if fillProps.Some? then fillProps
      else if slots[name].fillProps.Some? then slots[name].fillProps
      else Some(map[]);
    slots[name := Entry(nextRef, nextProps)]
  }

  /** The `setSlots` updater of `unregister`. */
  function Unregistered<R, V>(slots: Slots<R, V>, name: string): (r: Slots<R, V>)
    ensures r.Keys == slots.Keys - {name}
    ensures forall n :: n in r ==> r[n] == slots[n]
    ensures name !in slots ==> r == slots
  {
    slots - {name}
  }

  /** `useSlot(name)` without its two callbacks: null when the name has no
      entry, otherwise the stored `ref` and `fillProps`. */
  function UseSlot<R, V>(slots: Slots<R, V>, name: string): (r: Option<Entry<R, V>>)
    ensures r.None? <==> name !in slots
    ensures r.Some? ==> r.value.ref == slots[name].ref && r.value.fillProps == slots[name].fillProps
  {
    if name !in slots then None
    else
      var entry := slots[name];
      Some(Entry(entry.ref, entry.fillProps))
  }

  class SlotRegistry<R, V> {
    var slots: Slots<R, V>

    /** `useState({})`. */
    constructor ()
      ensures slots == map[]
    {
      slots := map[];
    }

    method Register(name: string, ref: Option<R>, fillProps: Arg<Props<V>>)
      modifies this
      ensures slots == Registered(old(slots), name, ref, fillProps)
    {
      slots := Registered(slots, name, ref, fillProps);
    }

    method Update(name: string, ref: Option<R>, fillProps: Option<Props<V>>)
      requires CanUpdate(slots, name, ref, fillProps)
      modifies this
      ensures slots == Updated(old(slots), name, ref, fillProps)
    {
      slots := Updated(slots, name, ref, fillProps);
    }

    method Unregister(name: string)
      modifies this
      ensures slots == Unregistered(old(slots), name)
    {
      slots := Unregistered(slots, name);
    }
  }

  /** `register` followed by `unregister` of the same name leaves the name
      absent and every other entry as it was. */
  lemma RegisterThenUnregister<R, V>(slots: Slots<R, V>, name: string, ref: Option<R>, fillProps: Arg<Props<V>>)
    ensures Unregistered(Registered(slots, name, ref, fillProps), name) == slots - {name}
    ensures UseSlot(Unregistered(Registered(slots, name, ref, fillProps), name), name).None?
  {
    var r := Unregistered(Registered(slots, name, ref, fillProps), name);
    assert r.Keys == (slots - {name}).Keys;
  }

  /** After `register`, `useSlot` sees exactly the given `ref` and the
      (defaulted) `fillProps`, whatever the name held before. */
  lemma RegisterThenUseSlot<R, V>(slots: Slots<R, V>, name: string, ref: Option<R>, fillProps: Arg<Props<V>>)
    ensures UseSlot(Registered(slots, name, ref, fillProps), name) == Some(Entry(ref, DefaultProps(fillProps)))
  {
  }

  /** `update` with the same arguments a second time changes nothing. */
  lemma UpdateIdempotent<R, V>(slots: Slots<R, V>, name: string, ref: Option<R>, fillProps: Option<Props<V>>)
    requires CanUpdate(slots, name, ref, fillProps)
    ensures var once := Updated(slots, name, ref, fillProps);
            Updated(once, name, ref, fillProps) == once
  {
    var once := Updated(slots, name, ref, fillProps);
    assert Updated(once, name, ref, fillProps)[name] == once[name];
  }

  /** An `update` that passes only new `fillProps` keeps the stored `ref`,
      and one that passes only a new `ref` keeps the stored `fillProps`
      unless they were falsy. */
  lemma UpdateKeepsOmittedFields<R, V>(slots: Slots<R, V>, name: string, ref: Option<R>, fillProps: Option<Props<V>>)
    requires name in slots
    ensures ref.None? ==> UseSlot(Updated(slots, name, ref, fillProps), name).value.ref == slots[name].ref
    ensures fillProps.None? && slots[name].fillProps.Some? ==>
              UseSlot(Updated(slots, name, ref, fillProps), name).value.fillProps == slots[name].fillProps
  {
  }
}
