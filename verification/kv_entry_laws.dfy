/** What the operations of KVListEntry guarantee: read-after-write, equality-suppressed
    notification, shadow redirection and fallback, the batch write and its single
    deduplicated notification pass, commit and discard of shadow edits, and the
    callback registry.
 */
module EntryLaws {
  import opened KVTypes
  import opened Ordered
  import opened KVEntry
  import Callbacks

  // ------------------------------------------------------------------ single writes

  lemma SlotValueAfterWrite(e: Entry, k: Key, v: Value, k': Key)
    ensures SlotValue(WriteSlot(e, k, v), k') == if k' == k then v else SlotValue(e, k')
  {
  }

  /** setValue(k, v) then getValue(k) gives v; only reads of `k` and of its shadowed key
      can observe the write; callbacks and owner are kept; and the write notifies
      exactly when the slot held a different value. */
  lemma SetValueReadBack(e: Entry, k: Key, v: Value)
    ensures GetValue(SetValue(e, k, v).entry, k) == v
    ensures forall k' :: k' != k && k' != ShadowedKey(k) ==>
      GetValue(SetValue(e, k, v).entry, k') == GetValue(e, k')
    ensures SetValue(e, k, v).entry.callbacks == e.callbacks
    ensures SetValue(e, k, v).entry.owner == e.owner
    ensures SetValue(e, k, v).events == [] <==> SlotValue(e, k) == v
  {
  }

  /** For a base key the stored value compared against is what getValue returns, so
      writing the value already there is silent: no callback, no report to the owner. */
  lemma EqualWriteIsSilent(e: Entry, k: Key, v: Value)
    requires k < ShadowedKeysStartAt
    requires GetValue(e, k) == v
    ensures SetValue(e, k, v).events == []
  {
  }

  /** A changing write runs the key's callbacks as registered, and then, only if the
      entry has an owner, informs that owner of the key. */
  lemma ChangedWriteNotifies(e: Entry, k: Key, v: Value)
    requires SlotValue(e, k) != v
    ensures SetValue(e, k, v).events[0] == CallbacksFired(InOrder(Callbacks.ListFor(e.callbacks, k)))
    ensures e.owner.None? ==> |SetValue(e, k, v).events| == 1
    ensures e.owner.Some? ==>
      SetValue(e, k, v).events == [CallbacksFired(InOrder(Callbacks.ListFor(e.callbacks, k))),
                                   OwnerInformed(e.owner.value, [k])]
  {
  }

  /** setValueInt creates the slot before comparing: writing Invalid to an absent base
      key adds the key to keys() and reports no change. */
  lemma InvalidWriteAddsKeySilently(e: Entry, k: Key)
    requires k < ShadowedKeysStartAt && k !in e.base
    ensures SetValue(e, k, Invalid).events == []
    ensures k in Keys(SetValue(e, k, Invalid).entry)
    ensures k !in Keys(e)
  {
  }

  /** The non-const getValue on an absent base key inserts a default value, so the key
      appears in keys() afterwards, while every read still gives what it gave before. */
  lemma MutableReadAddsKey(e: Entry, k: Key)
    requires k < ShadowedKeysStartAt && k !in e.base
    ensures GetValueMut(e, k).value == Invalid
    ensures k in Keys(GetValueMut(e, k).entry) && k !in Keys(e)
    ensures forall k' :: GetValue(GetValueMut(e, k).entry, k') == GetValue(e, k')
  {
  }

  // ------------------------------------------------------------------ shadow values

  /** Reading a shadowed key gives the shadow value when one exists and the base value
      otherwise (the documented fallback of getShadowedValue). */
  lemma ShadowReadFallsBack(e: Entry, k: Key)
    requires k >= 0
    ensures k in e.shadow ==> GetShadowedValue(e, k) == e.shadow[k]
    ensures k !in e.shadow ==> GetShadowedValue(e, k) == GetValue(e, k) || k >= ShadowedKeysStartAt
    ensures k !in e.shadow ==> GetShadowedValue(e, k) == Lookup(e.base, k)
  {
  }

  /** setShadowedValue stores into the shadow slot of `k` and leaves the base store
      alone; its change test is against the shadow slot, not the fallback value. */
  lemma SetShadowedValueSpec(e: Entry, k: Key, v: Value)
    requires k >= 0
    ensures SetShadowedValue(e, k, v).entry.shadow == e.shadow[k := v]
    ensures SetShadowedValue(e, k, v).entry.base == e.base
    ensures GetShadowedValue(SetShadowedValue(e, k, v).entry, k) == v
    ensures SetShadowedValue(e, k, v).events == [] <==> Lookup(e.shadow, k) == v
  {
    KeySpacePartition(k);
  }

  /** Consequently, writing to the shadow the value the shadow read already shows
      (the fallback base value) still counts as a change. */
  lemma ShadowWriteOfFallbackValueNotifies()
    ensures var e := Entry("T", map[0 := Int(7)], map[], map[], None, 0);
      GetShadowedValue(e, 0) == Int(7) && SetShadowedValue(e, 0, Int(7)).events != []
  {
    var e := Entry("T", map[0 := Int(7)], map[], map[], None, 0);
    SetShadowedValueSpec(e, 0, Int(7));
  }

  /** keys() lists the base store only: a shadow write never changes it. */
  lemma ShadowWriteKeepsKeys(e: Entry, k: Key, v: Value)
    requires k >= 0
    ensures Keys(SetShadowedValue(e, k, v).entry) == Keys(e)
  {
    KeySpacePartition(k);
  }

  // ------------------------------------------------------------------ batches

  /** `r` is `e` with `batch[k]` stored into the slot of every listed key `k` and
      nothing else touched. */
  ghost predicate Stores(e: Entry, keys: seq<Key>, batch: map<Key, Value>, r: Entry)
    requires forall k :: k in keys ==> k in batch
  {
    && r == e.(base := r.base, shadow := r.shadow)
    && StoresInto(e.base, keys, batch, r.base)
    && StoresShadowInto(e.shadow, keys, batch, r.shadow)
  }

  /** The base store part of Stores. */
  ghost predicate StoresInto(m: map<Key, Value>, keys: seq<Key>, batch: map<Key, Value>, r: map<Key, Value>)
    requires forall k :: k in keys ==> k in batch
  {
    && (forall b :: b in r <==> b in m || (b in keys && b < ShadowedKeysStartAt))
    && (forall b :: b in r ==> r[b] == if b in keys && b < ShadowedKeysStartAt then batch[b] else m[b])
  }

  /** The shadow store part of Stores. */
  ghost predicate StoresShadowInto(m: map<Key, Value>, keys: seq<Key>, batch: map<Key, Value>, r: map<Key, Value>)
    requires forall k :: k in keys ==> k in batch
  {
    && (forall s :: s in r <==> s in m || (s >= 0 && ShadowedKey(s) in keys))
    && (forall s :: s in r ==> r[s] == if s >= 0 && ShadowedKey(s) in keys then batch[ShadowedKey(s)] else m[s])
  }

  /** The keys of a batch whose slot holds a different value. */
  function ChangedKeys(e: Entry, batch: map<Key, Value>): set<Key> {
    set k | k in batch && SlotValue(e, k) != batch[k]
  }

  lemma StoresIntoStep(m: map<Key, Value>, keys: seq<Key>, batch: map<Key, Value>, r: map<Key, Value>)
    requires keys != [] && forall k :: k in keys ==> k in batch
    requires keys[0] < ShadowedKeysStartAt
    requires StoresInto(m[keys[0] := batch[keys[0]]], keys[1..], batch, r)
    ensures StoresInto(m, keys, batch, r)
  {
    assert forall k :: k in keys <==> k == keys[0] || k in keys[1..];
  }

  lemma StoresIntoSkip(m: map<Key, Value>, keys: seq<Key>, batch: map<Key, Value>, r: map<Key, Value>)
    requires keys != [] && forall k :: k in keys ==> k in batch
    requires keys[0] >= ShadowedKeysStartAt
    requires StoresInto(m, keys[1..], batch, r)
    ensures StoresInto(m, keys, batch, r)
  {
    assert forall k :: k in keys <==> k == keys[0] || k in keys[1..];
  }

  lemma StoresShadowIntoStep(m: map<Key, Value>, keys: seq<Key>, batch: map<Key, Value>, r: map<Key, Value>)
    requires keys != [] && forall k :: k in keys ==> k in batch
    requires keys[0] >= ShadowedKeysStartAt
    requires StoresShadowInto(m[keys[0] - ShadowedKeysStartAt := batch[keys[0]]], keys[1..], batch, r)
    ensures StoresShadowInto(m, keys, batch, r)
  {
    var j := keys[0] - ShadowedKeysStartAt;
    assert forall k :: k in keys <==> k == keys[0] || k in keys[1..];
    assert forall s :: s >= 0 && ShadowedKey(s) == keys[0] <==> s == j;
  }

  lemma StoresShadowIntoSkip(m: map<Key, Value>, keys: seq<Key>, batch: map<Key, Value>, r: map<Key, Value>)
    requires keys != [] && forall k :: k in keys ==> k in batch
    requires keys[0] < ShadowedKeysStartAt
    requires StoresShadowInto(m, keys[1..], batch, r)
    ensures StoresShadowInto(m, keys, batch, r)
  {
    assert forall k :: k in keys <==> k == keys[0] || k in keys[1..];
    assert forall s :: s >= 0 ==> ShadowedKey(s) != keys[0];
  }

  /** Writing the head of the list and then the rest stores the whole list. */
  lemma StoresStep(e: Entry, keys: seq<Key>, batch: map<Key, Value>, r: Entry)
    requires keys != [] && forall k :: k in keys ==> k in batch
    requires Stores(WriteSlot(e, keys[0], batch[keys[0]]), keys[1..], batch, r)
    ensures Stores(e, keys, batch, r)
  {
    if keys[0] < ShadowedKeysStartAt {
      assert WriteSlot(e, keys[0], batch[keys[0]]) == e.(base := e.base[keys[0] := batch[keys[0]]]);
      StoresIntoStep(e.base, keys, batch, r.base);
      StoresShadowIntoSkip(e.shadow, keys, batch, r.shadow);
    } else {
      assert WriteSlot(e, keys[0], batch[keys[0]]) ==
        e.(shadow := e.shadow[keys[0] - ShadowedKeysStartAt := batch[keys[0]]]);
      StoresIntoSkip(e.base, keys, batch, r.base);
      StoresShadowIntoStep(e.shadow, keys, batch, r.shadow);
    }
  }

  /** The write loop stores every listed pair and nothing else. */
  lemma {:induction false} WriteAllStores(e: Entry, keys: seq<Key>, batch: map<Key, Value>)
    requires forall k :: k in keys ==> k in batch
    ensures Stores(e, keys, batch, WriteAll(e, keys, batch).entry)
    decreases |keys|
  {
    if keys != [] {
      var w := WriteSlot(e, keys[0], batch[keys[0]]);
      var r := WriteAll(e, keys, batch).entry;
      assert r == WriteAll(w, keys[1..], batch).entry;
      WriteAllStores(w, keys[1..], batch);
      StoresStep(e, keys, batch, r);
    }
  }

  /** The write loop collects, in list order, exactly the listed keys whose slot held a
      different value. */
  lemma {:induction false} WriteAllChanged(e: Entry, keys: seq<Key>, batch: map<Key, Value>)
    requires forall k :: k in keys ==> k in batch
    requires StrictlyIncreasing(keys)
    ensures forall k :: k in WriteAll(e, keys, batch).changed <==> k in keys && SlotValue(e, k) != batch[k]
    ensures StrictlyIncreasing(WriteAll(e, keys, batch).changed)
    decreases |keys|
  {
    if keys != [] {
      var k0, tail := keys[0], keys[1..];
      var w := WriteSlot(e, k0, batch[k0]);
      var rest := WriteAll(w, tail, batch);
      var c := WriteAll(e, keys, batch).changed;
      assert c == if SlotValue(e, k0) != batch[k0] then [k0] + rest.changed else rest.changed;
      assert forall k :: k in tail ==> k0 < k;
      WriteAllChanged(w, tail, batch);
      forall k | k in tail
        ensures SlotValue(w, k) == SlotValue(e, k)
      {
        SlotValueAfterWrite(e, k0, batch[k0], k);
      }
      assert forall k :: k in keys <==> k == k0 || k in tail;
      ConsIncreasing(k0, rest.changed);
    }
  }

  /** Read through the slots, Stores says: listed keys hold the batch value, every
      other key what it held before. */
  lemma StoresSlots(e: Entry, keys: seq<Key>, batch: map<Key, Value>, r: Entry, k: Key)
    requires forall k :: k in keys ==> k in batch
    requires Stores(e, keys, batch, r)
    ensures SlotValue(r, k) == if k in keys then batch[k] else SlotValue(e, k)
  {
    if k >= ShadowedKeysStartAt {
      assert ShadowedKey(k - ShadowedKeysStartAt) == k;
    }
  }

  /** setValues stores every pair of the batch, in ascending key order, into its slot and
      leaves every other slot alone. If no slot changed, nothing is notified; otherwise
      exactly one notification pass runs, over the changed keys in ascending order. */
  lemma SetValuesSpec(e: Entry, batch: map<Key, Value>)
    ensures Stores(e, SortedInts(batch.Keys), batch, SetValues(e, batch).entry)
    ensures forall k ::
      SlotValue(SetValues(e, batch).entry, k) == (if k in batch then batch[k] else SlotValue(e, k))
    ensures ChangedKeys(e, batch) == {} <==> SetValues(e, batch).events == []
    ensures ChangedKeys(e, batch) != {} ==>
      SetValues(e, batch).events ==
        Announce(SetValues(e, batch).entry, SortedInts(ChangedKeys(e, batch)))
  {
    var keys := SortedInts(batch.Keys);
    WriteAllStores(e, keys, batch);
    WriteAllChanged(e, keys, batch);
    var w := WriteAll(e, keys, batch);
    assert SetValues(e, batch).entry == w.entry;
    assert forall k :: k in w.changed <==> k in ChangedKeys(e, batch);
    SortedIntsUnique(ChangedKeys(e, batch), w.changed);
    assert |w.changed| == |ChangedKeys(e, batch)|;
    forall k
      ensures SlotValue(w.entry, k) == if k in batch then batch[k] else SlotValue(e, k)
    {
      StoresSlots(e, keys, batch, w.entry, k);
    }
  }

  /** When a batch changes several keys, each distinct handle registered on any of them
      fires exactly once, however many of those keys it is registered on. */
  lemma BatchFiresEachHandleOnce(e: Entry, batch: map<Key, Value>)
    requires |ChangedKeys(e, batch)| >= 2
    ensures var evs := SetValues(e, batch).events;
      |evs| >= 1 && evs[0].CallbacksFired? && evs[0].fired.Deduplicated? &&
      forall h :: h in evs[0].fired.handles <==>
        exists k :: k in ChangedKeys(e, batch) && h in Callbacks.ListFor(e.callbacks, k)
  {
    SetValuesSpec(e, batch);
    var r := SetValues(e, batch).entry;
    var ks := SortedInts(ChangedKeys(e, batch));
    assert r.callbacks == e.callbacks;
    assert ChangedKeys(e, batch) != {};
    assert |ks| >= 2;
    assert forall k :: k in ks <==> k in ChangedKeys(e, batch);
  }

  lemma StoresIntoUntouched(m: map<Key, Value>, keys: seq<Key>, batch: map<Key, Value>, r: map<Key, Value>)
    requires forall k :: k in keys ==> k in batch && k >= ShadowedKeysStartAt
    requires StoresInto(m, keys, batch, r)
    ensures r == m
  {
    forall b
      ensures b in r <==> b in m
      ensures b in r ==> r[b] == m[b]
    {
      if b in keys {
        assert b >= ShadowedKeysStartAt;
      }
    }
  }

  lemma StoresShadowIntoShifted(m: map<Key, Value>, keys: seq<Key>, sb: map<Key, Value>,
                                batch: map<Key, Value>, r: map<Key, Value>)
    requires forall k :: k >= 0 ==> (k in batch <==> ShadowedKey(k) in keys)
    requires forall k :: k in batch ==> k >= 0
    requires forall k :: k in keys ==> k in sb
    requires forall k :: k in batch ==> sb[ShadowedKey(k)] == batch[k]
    requires StoresShadowInto(m, keys, sb, r)
    ensures r == m + batch
  {
    forall s
      ensures s in r <==> s in m + batch
      ensures s in r ==> r[s] == (m + batch)[s]
    {
      if s < 0 {
        assert s !in batch;
      }
    }
  }

  /** setShadowedValues writes the shadow store only, pair by pair. */
  lemma SetShadowedValuesSpec(e: Entry, batch: map<Key, Value>)
    requires forall k :: k in batch ==> k >= 0
    ensures SetShadowedValues(e, batch).entry.base == e.base
    ensures SetShadowedValues(e, batch).entry.shadow == e.shadow + batch
  {
    var sb := ShadowBatch(batch);
    var keys := SortedInts(sb.Keys);
    WriteAllStores(e, keys, sb);
    var r := WriteAll(e, keys, sb).entry;
    assert forall k :: k in keys <==> k in sb;
    forall k | k in keys
      ensures k >= ShadowedKeysStartAt
    {
      var j :| j in batch && k == ShadowedKey(j);
    }
    StoresIntoUntouched(e.base, keys, sb, r.base);
    StoresShadowIntoShifted(e.shadow, keys, sb, batch, r.shadow);
  }

  // ------------------------------------------------------------------ commit / discard

  /** Shadow values only ever sit under base keys unless a key at or beyond the
      internal range was written. */
  ghost predicate ShadowInBaseRange(e: Entry) {
    forall k :: k in e.shadow ==> 0 <= k < ShadowedKeysStartAt
  }

  /** The shadow keys whose value differs from the base value. */
  function Differing(e: Entry): set<Key> {
    set k | k in e.shadow && Lookup(e.base, k) != e.shadow[k]
  }

  lemma StoresIntoCommit(m: map<Key, Value>, keys: seq<Key>, shadow: map<Key, Value>, r: map<Key, Value>)
    requires forall k :: k in keys <==> k in shadow
    requires forall k :: k in shadow ==> k < ShadowedKeysStartAt
    requires StoresInto(m, keys, shadow, r)
    ensures r == m + shadow
  {
    forall b
      ensures b in r <==> b in m + shadow
      ensures b in r ==> r[b] == (m + shadow)[b]
    {
    }
  }

  /** Base keys never reach the shadow store. */
  lemma StoresShadowIntoUntouched(m: map<Key, Value>, keys: seq<Key>, batch: map<Key, Value>, r: map<Key, Value>)
    requires forall k :: k in keys ==> k in batch && k < ShadowedKeysStartAt
    requires StoresShadowInto(m, keys, batch, r)
    ensures r == m
  {
    forall s
      ensures s in r <==> s in m
      ensures s in r ==> r[s] == m[s]
    {
      assert s >= 0 ==> ShadowedKey(s) !in keys;
    }
  }

  /** A batch of base keys only merges into the base store: the shadow store, the
      callbacks and the owner stay as they were. */
  lemma SetValuesBaseBatch(e: Entry, batch: map<Key, Value>)
    requires forall k :: k in batch ==> k < ShadowedKeysStartAt
    ensures SetValues(e, batch).entry == e.(base := e.base + batch)
  {
    var keys := SortedInts(batch.Keys);
    assert forall k :: k in keys <==> k in batch;
    WriteAllStores(e, keys, batch);
    var r := WriteAll(e, keys, batch).entry;
    assert SetValues(e, batch).entry == r;
    StoresIntoCommit(e.base, keys, batch, r.base);
    StoresShadowIntoUntouched(e.shadow, keys, batch, r.shadow);
  }

  /** On a new entry, a batch of base keys becomes the whole base store. */
  lemma SetValuesOnNew(typeName: string, batch: map<Key, Value>)
    requires forall k :: k in batch ==> k < ShadowedKeysStartAt
    ensures SetValues(NewEntry(typeName), batch).entry == NewEntry(typeName).(base := batch)
  {
    SetValuesOnEmpty(NewEntry(typeName), batch);
  }

  /** On an entry with an empty base store, a batch of base keys becomes that store. */
  lemma SetValuesOnEmpty(e: Entry, batch: map<Key, Value>)
    requires e.base == map[]
    requires forall k :: k in batch ==> k < ShadowedKeysStartAt
    ensures SetValues(e, batch).entry == e.(base := batch)
  {
    var merged := e.base + batch;
    assert merged == batch;
    SetValuesBaseBatch(e, batch);
  }

  /** applyShadowedChanges copies every shadow value into the base store, empties the
      shadow store, and returns the number of keys whose value differed; one
      notification pass over exactly those keys runs, and none when nothing differed. */
  lemma ApplyCommits(e: Entry)
    requires ShadowInBaseRange(e)
    ensures ApplyShadowedChanges(e).entry == e.(base := e.base + e.shadow, shadow := map[])
    ensures ApplyShadowedChanges(e).count == |Differing(e)|
    ensures ApplyShadowedChanges(e).count == 0 <==> ApplyShadowedChanges(e).events == []
    ensures ApplyShadowedChanges(e).count > 0 ==>
      ApplyShadowedChanges(e).events ==
        Announce(ApplyShadowedChanges(e).entry, SortedInts(Differing(e)))
  {
    var keys := SortedInts(e.shadow.Keys);
    assert forall k :: k in keys <==> k in e.shadow;
    WriteAllStores(e, keys, e.shadow);
    WriteAllChanged(e, keys, e.shadow);
    var w := WriteAll(e, keys, e.shadow);
    StoresIntoCommit(e.base, keys, e.shadow, w.entry.base);
    assert w.entry.(shadow := map[]) == e.(base := e.base + e.shadow, shadow := map[]);
    forall k | k in e.shadow
      ensures SlotValue(e, k) == Lookup(e.base, k)
    {
    }
    assert forall k :: k in w.changed <==> k in Differing(e);
    SortedIntsUnique(Differing(e), w.changed);
  }

  /** revertShadowedChanges leaves the base store, callbacks and owner untouched, and
      afterwards every shadowed read falls back to the base value. */
  lemma RevertDiscards(e: Entry, k: Key)
    requires k >= 0
    ensures RevertShadowedChanges(e).base == e.base
    ensures RevertShadowedChanges(e).callbacks == e.callbacks
    ensures RevertShadowedChanges(e).owner == e.owner
    ensures GetShadowedValue(RevertShadowedChanges(e), k) == Lookup(e.base, k)
  {
  }

  // ------------------------------------------------------------------ child models

  /** getChildModel returns the model stored by setChildModel under the same key. */
  lemma ChildModelRoundTrip(e: Entry, k: Key, m: ModelId)
    ensures GetChildModel(SetChildModel(e, k, m).entry, k) == Some(m)
  {
  }

  /** A plain value under a key is not a child model. */
  lemma NonModelValueHasNoChild(e: Entry, k: Key, v: Value)
    requires !v.ModelRef?
    ensures GetChildModel(SetValue(e, k, v).entry, k) == None
  {
  }

  // ------------------------------------------------------------------ callbacks

  lemma {:induction false} RemoveAllRepeat(h: Handle, n: nat)
    ensures Callbacks.RemoveAll(Callbacks.Repeat(h, n), h) == []
    decreases n
  {
    if n > 0 {
      var r := Callbacks.Repeat(h, n);
      assert r[0] == h && r[1..] == Callbacks.Repeat(h, n - 1);
      RemoveAllRepeat(h, n - 1);
    }
  }

  lemma RemoveAllAppended(s: seq<Handle>, h: Handle, n: nat)
    requires h !in s
    ensures Callbacks.RemoveAll(s + Callbacks.Repeat(h, n), h) == s
  {
    Callbacks.RemoveAllAppend(s, Callbacks.Repeat(h, n), h);
    RemoveAllRepeat(h, n);
  }

  /** onValueChanged(keys) adds its fresh handle under every listed key (and nowhere
      else); removeOnValueChanged of that handle restores every key's list. */
  lemma OnValueChangedThenRemove(e: Entry, keys: seq<Key>, k: Key)
    requires HandlesIssued(e)
    ensures var r := OnValueChanged(e, keys);
      (r.handle in Callbacks.ListFor(r.entry.callbacks, k) <==> k in keys) &&
      Callbacks.ListFor(RemoveOnValueChanged(r.entry, r.handle).callbacks, k) == Callbacks.ListFor(e.callbacks, k)
  {
    var r := OnValueChanged(e, keys);
    Callbacks.RegisterAppends(e.callbacks, keys, r.handle, k);
    var old_ := Callbacks.ListFor(e.callbacks, k);
    var n := Callbacks.Occurrences(keys, k);
    assert r.handle !in old_;
    if n > 0 {
      assert Callbacks.Repeat(r.handle, n)[0] == r.handle;
      assert (old_ + Callbacks.Repeat(r.handle, n))[|old_|] == r.handle;
    }
    RemoveAllAppended(old_, r.handle, n);
  }
}
