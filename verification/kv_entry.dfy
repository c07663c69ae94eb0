/** KVListEntry: an integer-keyed value store with a parallel store of uncommitted
    ("shadow") edits, per-key change callbacks, and a back-link to the owning model.

    Every mutation returns the new entry together with the notification it raised:
    which callback handles fired, then (when the entry has an owner) the report to the
    owning model. Callbacks are handle ids; their closures are not executed.
 */
module KVEntry {
  import opened KVTypes
  import opened Ordered
  import Callbacks

  datatype Entry = Entry(
    typeName: string,            // the concrete class name, used by the serializer
    base: map<Key, Value>,       // keyValueStore_
    shadow: map<Key, Value>,     // keyValueStoreShadowed_, indexed by the unshadowed key
    callbacks: Callbacks.Table,  // keyModifiedCallbacks_
    owner: Option<ModelId>,      // model_
    nextHandle: Handle)          // the next fresh callback handle

  /** What one mutation announced, in the order it happened. */
  datatype EntryEvent =
    | CallbacksFired(fired: Fired)
    | OwnerInformed(model: ModelId, keys: seq<Key>)

  datatype Change = Change(entry: Entry, events: seq<EntryEvent>)

  /** A freshly constructed entry: no values, no callbacks, no owner. */
  function NewEntry(typeName: string): (e: Entry)
    ensures e.owner == None
    ensures e.base == map[] && e.shadow == map[] && e.callbacks == map[]
  {
    Entry(typeName, map[], map[], map[], None, 0)
  }

  // ------------------------------------------------------------------ reading

  /** The value currently held in the slot `k` is redirected to (Invalid when the slot
      does not exist); this is what a write to `k` compares against. */
  function SlotValue(e: Entry, k: Key): Value {
    match SlotOf(k)
    case BaseSlot(b) => Lookup(e.base, b)
    case ShadowSlot(b) => Lookup(e.shadow, b)
  }

  /** The const getValue: a shadow key reads the shadow value, falling back to the
      base value of the unshadowed key when no shadow value exists. */
  function GetValue(e: Entry, k: Key): Value {
    match SlotOf(k)
    case BaseSlot(b) => Lookup(e.base, b)
    case ShadowSlot(b) => if b in e.shadow then e.shadow[b] else Lookup(e.base, b)
  }

  /** The base key a read of `k` falls back to. */
  function FallbackKey(k: Key): Key {
    match SlotOf(k)
    case BaseSlot(b) => b
    case ShadowSlot(b) => b
  }

  datatype Read = Read(entry: Entry, value: Value)

  /** The non-const getValue: reads like GetValue, but QMap::operator[] on the base
      store creates a default (Invalid) value when the fallback key is absent. */
  function GetValueMut(e: Entry, k: Key): (r: Read)
    ensures r.value == GetValue(e, k)
    ensures forall k' :: GetValue(r.entry, k') == GetValue(e, k')
    ensures r.entry == e.(base := r.entry.base)
    ensures r.entry.base.Keys == e.base.Keys +
      (if SlotOf(k).ShadowSlot? && SlotOf(k).key in e.shadow then {} else {FallbackKey(k)})
  {
    match SlotOf(k)
    case ShadowSlot(b) =>
      if b in e.shadow then Read(e, e.shadow[b])
      else if b in e.base then Read(e, e.base[b])
      else Read(e.(base := e.base[b := Invalid]), Invalid)
    case BaseSlot(b) =>
      if b in e.base then Read(e, e.base[b])
      else Read(e.(base := e.base[b := Invalid]), Invalid)
  }

  /** keys(): the base-store keys in ascending order. */
  function Keys(e: Entry): (ks: seq<Key>)
    ensures forall k :: k in ks <==> k in e.base
    ensures StrictlyIncreasing(ks)
  {
    SortedInts(e.base.Keys)
  }

  /** getShadowedValue. */
  function GetShadowedValue(e: Entry, k: Key): Value {
    GetValue(e, ShadowedKey(k))
  }

  /** getChildModel: the model stored under `k`, or none for any other value. */
  function GetChildModel(e: Entry, k: Key): (m: Option<ModelId>)
    ensures m.Some? <==> GetValue(e, k).ModelRef?
    ensures m.Some? ==> GetValue(e, k) == ModelRef(m.value)
  {
    match GetValue(e, k)
    case ModelRef(id) => Some(id)
    case _ => None
  }

  // ------------------------------------------------------------------ writing

  /** Store `v` into the slot of `k`. */
  function WriteSlot(e: Entry, k: Key, v: Value): Entry {
    match SlotOf(k)
    case BaseSlot(b) => e.(base := e.base[b := v])
    case ShadowSlot(b) => e.(shadow := e.shadow[b := v])
  }

  datatype Written = Written(entry: Entry, changed: bool)

  /** setValueInt: the slot is created first (holding Invalid), then compared with `v`
      and overwritten. The slot therefore always ends up holding `v`, and the write
      reports a change exactly when the slot held something else. */
  function SetValueInt(e: Entry, k: Key, v: Value): (r: Written)
    ensures SlotValue(r.entry, k) == v && GetValue(r.entry, k) == v
    ensures forall k' :: SlotOf(k') != SlotOf(k) ==> SlotValue(r.entry, k') == SlotValue(e, k')
    ensures SlotOf(k).BaseSlot? ==> r.entry.shadow == e.shadow && r.entry.base.Keys == e.base.Keys + {k}
    ensures SlotOf(k).ShadowSlot? ==>
      r.entry.base == e.base && r.entry.shadow.Keys == e.shadow.Keys + {SlotOf(k).key}
    ensures r.entry.typeName == e.typeName && r.entry.callbacks == e.callbacks &&
      r.entry.owner == e.owner && r.entry.nextHandle == e.nextHandle
    ensures r.changed <==> if SlotOf(k).BaseSlot? then (k in e.base ==> e.base[k] != v) && (k !in e.base ==> v != Invalid)
                           else (SlotOf(k).key in e.shadow ==> e.shadow[SlotOf(k).key] != v) &&
                                (SlotOf(k).key !in e.shadow ==> v != Invalid)
  {
    Written(WriteSlot(e, k, v), SlotValue(e, k) != v)
  }

  /** notifyValueChangedCallbacks: one changed key runs its list as registered;
      otherwise every distinct handle registered on any changed key runs once. */
  function Notify(e: Entry, keys: seq<Key>): (f: Fired)
    ensures |keys| == 1 ==> f == InOrder(Callbacks.ListFor(e.callbacks, keys[0]))
    ensures |keys| != 1 ==> f.Deduplicated?
    ensures |keys| != 1 ==>
      forall h :: h in f.handles <==> exists k :: k in keys && h in Callbacks.ListFor(e.callbacks, k)
  {
    if |keys| == 1 then InOrder(Callbacks.ListFor(e.callbacks, keys[0]))
    else Deduplicated(Callbacks.Collect(e.callbacks, keys))
  }

  /** The notification pass of a mutation: the entry's own callbacks, then
      invalidateModel, which reaches the owner only when there is one. */
  function Announce(e: Entry, keys: seq<Key>): (evs: seq<EntryEvent>)
    ensures |evs| >= 1 && evs[0] == CallbacksFired(Notify(e, keys))
    ensures e.owner.None? ==> |evs| == 1
    ensures e.owner.Some? ==> |evs| == 2 && evs[1] == OwnerInformed(e.owner.value, keys)
  {
    [CallbacksFired(Notify(e, keys))] +
    (if e.owner.Some? then [OwnerInformed(e.owner.value, keys)] else [])
  }

  /** Every owner report among `evs` goes to the entry's owner. */
  predicate ReportsToOwner(owner: Option<ModelId>, evs: seq<EntryEvent>) {
    forall ev :: ev in evs && ev.OwnerInformed? ==> owner == Some(ev.model)
  }

  lemma AnnounceReportsToOwner(e: Entry, keys: seq<Key>)
    ensures ReportsToOwner(e.owner, Announce(e, keys))
  {
    var evs := Announce(e, keys);
    forall ev | ev in evs && ev.OwnerInformed?
      ensures e.owner == Some(ev.model)
    {
      var i :| 0 <= i < |evs| && evs[i] == ev;
    }
  }

  /** setValue. */
  function SetValue(e: Entry, k: Key, v: Value): (c: Change)
    ensures c.entry.owner == e.owner && ReportsToOwner(e.owner, c.events)
  {
    var w := SetValueInt(e, k, v);
    AnnounceReportsToOwner(w.entry, [k]);
    Change(w.entry, if w.changed then Announce(w.entry, [k]) else [])
  }

  /** setShadowedValue. */
  function SetShadowedValue(e: Entry, k: Key, v: Value): Change {
    SetValue(e, ShadowedKey(k), v)
  }

  /** setChildModel. */
  function SetChildModel(e: Entry, k: Key, m: ModelId): Change {
    SetValue(e, k, ModelRef(m))
  }

  datatype Batch = Batch(entry: Entry, changed: seq<Key>)

  /** The write loop shared by setValues and applyShadowedChanges: write each key of
      `keys` in turn and collect, in the same order, the keys whose slot changed. */
  function WriteAll(e: Entry, keys: seq<Key>, batch: map<Key, Value>): (r: Batch)
    requires forall k :: k in keys ==> k in batch
    ensures r.entry.owner == e.owner
    decreases |keys|
  {
    if keys == [] then Batch(e, [])
    else
      var w := SetValueInt(e, keys[0], batch[keys[0]]);
      var rest := WriteAll(w.entry, keys[1..], batch);
      Batch(rest.entry, if w.changed then [keys[0]] + rest.changed else rest.changed)
  }

  /** setValues: write every pair in ascending key order; if any slot changed, run one
      notification pass over exactly the changed keys. */
  function SetValues(e: Entry, batch: map<Key, Value>): Change {
    var w := WriteAll(e, SortedInts(batch.Keys), batch);
    Change(w.entry, if w.changed == [] then [] else Announce(w.entry, w.changed))
  }

  /** The batch of shadow keys that setShadowedValues hands to setValues: each pair
      moved to the shadowed key of its key. */
  function ShadowBatch(batch: map<Key, Value>): (r: map<Key, Value>)
    ensures forall k :: k in batch ==> ShadowedKey(k) in r && r[ShadowedKey(k)] == batch[k]
    ensures forall k :: k in r ==> exists j :: j in batch && k == ShadowedKey(j)
  {
    Shift(SortedInts(batch.Keys), batch)
  }

  function Shift(keys: seq<Key>, batch: map<Key, Value>): (r: map<Key, Value>)
    requires forall k :: k in keys ==> k in batch
    ensures forall k :: k in keys ==> ShadowedKey(k) in r && r[ShadowedKey(k)] == batch[k]
    ensures forall k :: k in r ==> exists j :: j in keys && k == ShadowedKey(j)
    decreases |keys|
  {
    if keys == [] then map[]
    else
      assert forall k :: k in keys <==> k == keys[0] || k in keys[1..];
      Shift(keys[1..], batch)[ShadowedKey(keys[0]) := batch[keys[0]]]
  }

  /** setShadowedValues. */
  function SetShadowedValues(e: Entry, batch: map<Key, Value>): Change {
    SetValues(e, ShadowBatch(batch))
  }

  datatype Applied = Applied(entry: Entry, events: seq<EntryEvent>, count: nat)

  /** applyShadowedChanges: write every shadow value over its base key (ascending),
      empty the shadow store, notify the changed keys once, and report how many
      changed. The values written are those of the shadow store on entry: a write under
      key `k` only ever touches the slot of a key below `k`, so no value is read after
      the loop has overwritten it. */
  function ApplyShadowedChanges(e: Entry): (a: Applied)
    ensures a.entry.owner == e.owner && ReportsToOwner(e.owner, a.events)
  {
    var w := WriteAll(e, SortedInts(e.shadow.Keys), e.shadow);
    var cleared := w.entry.(shadow := map[]);
    AnnounceReportsToOwner(cleared, w.changed);
    Applied(cleared, if w.changed == [] then [] else Announce(cleared, w.changed), |w.changed|)
  }

  /** revertShadowedChanges: discard the uncommitted edits, silently. */
  function RevertShadowedChanges(e: Entry): (r: Entry)
    ensures r.shadow == map[]
    ensures r == e.(shadow := map[])
  {
    e.(shadow := map[])
  }

  // ------------------------------------------------------------------ callbacks

  datatype Registered = Registered(entry: Entry, handle: Handle)

  /** onValueChanged(keys, f): a fresh handle, appended to the list of every listed key. */
  function OnValueChanged(e: Entry, keys: seq<Key>): (r: Registered)
    ensures r.handle == e.nextHandle
    ensures r.entry.nextHandle > r.handle
    ensures r.entry == e.(callbacks := r.entry.callbacks, nextHandle := r.entry.nextHandle)
  {
    var h := e.nextHandle;
    Registered(e.(callbacks := Callbacks.Register(e.callbacks, keys, h), nextHandle := h + 1), h)
  }

  /** removeOnValueChanged. */
  function RemoveOnValueChanged(e: Entry, h: Handle): (r: Entry)
    ensures r == e.(callbacks := r.callbacks)
  {
    e.(callbacks := Callbacks.Unregister(e.callbacks, h))
  }

  /** Every handle in the table was handed out before. */
  ghost predicate HandlesIssued(e: Entry) {
    forall k, h :: k in e.callbacks && h in e.callbacks[k] ==> h < e.nextHandle
  }
}
