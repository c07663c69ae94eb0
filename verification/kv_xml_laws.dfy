/** What the XML serializer promises: the document shape it writes, the name filters on
    both sides, the version gates, and that a plain entry written out and read back
    through the same role table carries the same values.
 */
module XmlLaws {
  import opened KVTypes
  import opened Ordered
  import opened KVEntry
  import opened KVModel
  import opened KVRegistry
  import opened Variant
  import opened Versions
  import opened KVXml
  import EntryLaws

  // ------------------------------------------------------------------ name filters

  /** A name ending in `_noserialize` cannot also end in `_ns`. */
  lemma SuffixesExclusive(name: string)
    requires EndsWith(name, IgnoreSuffix)
    ensures !EndsWith(name, IgnoreSuffix2)
  {
    assert name[|name| - 1] == 'e';
  }

  /** The write filter drops exactly the names ending in `_noserialize`. */
  lemma WrittenNameExactly(name: string)
    ensures WrittenName(name) <==> !EndsWith(name, IgnoreSuffix)
  {
    if EndsWith(name, IgnoreSuffix) {
      SuffixesExclusive(name);
    }
  }

  /** The two filters disagree on `_ns`: such a value is written, and skipped again when
      the document is read. */
  lemma NsWrittenButSkipped(name: string)
    requires EndsWith(name, IgnoreSuffix2)
    ensures WrittenName(name) && SkippedName(name)
  {
  }

  /** A name neither filter mentions is written and read. */
  lemma PlainNameKept(name: string)
    requires !EndsWith(name, IgnoreSuffix) && !EndsWith(name, IgnoreSuffix2)
    ensures WrittenName(name) && !SkippedName(name)
  {
  }

  // ------------------------------------------------------------------ what gets written

  /** Every element written for an entry's values stands for one of the listed keys whose
      role name passes the write filter. */
  lemma {:induction false} SerializeKeysSound(qt: Conversions, w: World, names: map<Key, string>, ent: Entry,
                                              keys: seq<Key>, fuel: nat, n: Node)
    requires LiveWorld(w)
    requires n in SerializeKeys(qt, w, names, ent, keys, fuel)
    ensures exists k :: (k in keys && WrittenName(NameOf(names, k)) &&
      SerializeValue(qt, w, NameOf(names, k), GetValue(ent, k), fuel) == Some(n))
    decreases |keys|
  {
    var name := NameOf(names, keys[0]);
    var here := if WrittenName(name) then SerializeValue(qt, w, name, GetValue(ent, keys[0]), fuel) else None;
    var rest := SerializeKeys(qt, w, names, ent, keys[1..], fuel);
    assert SerializeKeys(qt, w, names, ent, keys, fuel) == (if here.Some? then [here.value] else []) + rest;
    if here.Some? && n == here.value {
      assert keys[0] in keys;
    } else {
      assert n in rest;
      SerializeKeysSound(qt, w, names, ent, keys[1..], fuel, n);
      var k :| k in keys[1..] && WrittenName(NameOf(names, k)) &&
        SerializeValue(qt, w, NameOf(names, k), GetValue(ent, k), fuel) == Some(n);
      assert k in keys;
    }
  }

  /** Every listed key holding a plain value and named past the write filter is written
      as its type name and text. */
  lemma {:induction false} SerializeKeysComplete(qt: Conversions, w: World, names: map<Key, string>, ent: Entry,
                                                 keys: seq<Key>, fuel: nat, k: Key)
    requires LiveWorld(w)
    requires k in keys && WrittenName(NameOf(names, k)) && !IsPointer(GetValue(ent, k))
    ensures PlainNode(qt, NameOf(names, k), GetValue(ent, k)) in SerializeKeys(qt, w, names, ent, keys, fuel)
    decreases |keys|
  {
    var name := NameOf(names, keys[0]);
    var here := if WrittenName(name) then SerializeValue(qt, w, name, GetValue(ent, keys[0]), fuel) else None;
    var rest := SerializeKeys(qt, w, names, ent, keys[1..], fuel);
    assert SerializeKeys(qt, w, names, ent, keys, fuel) == (if here.Some? then [here.value] else []) + rest;
    if keys[0] != k {
      assert k in keys[1..];
      SerializeKeysComplete(qt, w, names, ent, keys[1..], fuel, k);
    }
  }

  /** No element written for an entry carries a name ending in `_noserialize`. */
  lemma NoSerializeNeverWritten(qt: Conversions, w: World, names: map<Key, string>, ent: Entry,
                                keys: seq<Key>, fuel: nat, name: string)
    requires LiveWorld(w) && EndsWith(name, IgnoreSuffix)
    ensures forall n :: n in SerializeKeys(qt, w, names, ent, keys, fuel) ==> Attr(n, KeyAttr) != name
  {
    forall n | n in SerializeKeys(qt, w, names, ent, keys, fuel)
      ensures Attr(n, KeyAttr) != name
    {
      SerializeKeysSound(qt, w, names, ent, keys, fuel, n);
      var k :| k in keys && WrittenName(NameOf(names, k)) &&
        SerializeValue(qt, w, NameOf(names, k), GetValue(ent, k), fuel) == Some(n);
      WrittenNameExactly(NameOf(names, k));
    }
  }

  // ------------------------------------------------------------------ document gates

  /** A written document passes the root checks, and its payload is the written
      collection. */
  lemma DocumentAccepted(qt: Conversions, w: World, m: ModelId, date: string, fuel: nat)
    requires LiveWorld(w) && m in w.models
    ensures RootAccepted([SerializeDocument(qt, w, m, date, fuel)])
    ensures Payload([SerializeDocument(qt, w, m, date, fuel)]) == Some(SerializeModel(qt, w, m, fuel))
  {
    VersionRoundTrip(SerializerMajor, SerializerMinor);
    var doc := SerializeDocument(qt, w, m, date, fuel);
    assert Attr(doc, VersionAttr) == VersionText(SerializerMajor, SerializerMinor);
  }

  /** A written collection loads into a collection exactly when their class names and
      versions agree (for the non-negative int versions the format can express). */
  lemma SerializedModelGate(reg: Registry, qt: Conversions, ws: World, m: ModelId, fuel: nat, w: World, d: ModelId)
    requires LiveWorld(ws) && m in ws.models
    requires 0 <= ws.models[m].versionMajor <= IntMax && 0 <= ws.models[m].versionMinor <= IntMax
    requires Good(reg) && IdsBelow(w) && d in w.models
    ensures DecodeModel(reg, qt, w, SerializeModel(qt, ws, m, fuel), d).ok <==>
      w.models[d].typeName == ws.models[m].typeName &&
      w.models[d].versionMajor == ws.models[m].versionMajor &&
      w.models[d].versionMinor == ws.models[m].versionMinor
  {
    var c := ws.models[m];
    VersionRoundTrip(c.versionMajor, c.versionMinor);
    var el := SerializeModel(qt, ws, m, fuel);
    assert Attr(el, TypeAttr) == c.typeName;
    assert Attr(el, VersionAttr) == VersionText(c.versionMajor, c.versionMinor);
    assert TagOf(el) == ModelTag;
    var version := ParseVersion(Attr(el, VersionAttr));
    assert Major(version) == c.versionMajor && Minor(version) == c.versionMinor;
    var r := DecodeModel(reg, qt, w, el, d);
    assert r.ok <==> (Attr(el, TypeAttr) == w.models[d].typeName &&
                      VersionMatches(version, w.models[d].versionMajor, w.models[d].versionMinor));
  }

  /** Saving a collection to an XML path and loading that file into a collection is
      accepted exactly when class names and versions agree; a path of any other kind is
      neither written nor read. */
  lemma SaveThenLoad(reg: Registry, qt: Conversions, ws: World, m: ModelId, path: string, date: string, fuel: nat,
                     w: World, d: ModelId, read: string -> Option<seq<Node>>)
    requires LiveWorld(ws) && m in ws.models
    requires 0 <= ws.models[m].versionMajor <= IntMax && 0 <= ws.models[m].versionMinor <= IntMax
    requires Good(reg) && IdsBelow(w) && d in w.models
    requires Save(qt, ws, m, path, date, fuel).Some? ==> read(path) == Some([Save(qt, ws, m, path, date, fuel).value])
    ensures Save(qt, ws, m, path, date, fuel).None? <==> !IsXmlPath(path)
    ensures Load(reg, qt, w, d, path, read).ok <==>
      IsXmlPath(path) && w.models[d].typeName == ws.models[m].typeName &&
      w.models[d].versionMajor == ws.models[m].versionMajor &&
      w.models[d].versionMinor == ws.models[m].versionMinor
  {
    if IsXmlPath(path) {
      DocumentAccepted(qt, ws, m, date, fuel);
      SerializedModelGate(reg, qt, ws, m, fuel, w, d);
    }
  }

  // ------------------------------------------------------------------ value round trip

  /** A plain value, written under a name that resolves back to `k`, reads back as the
      same value under `k`, and loading it changes nothing else. */
  lemma PlainValueRoundTrip(reg: Registry, qt: Conversions, w: World, m: ModelId, ent: Entry, version: seq<int>,
                            name: string, v: Value, k: Key)
    requires Good(reg) && IdsBelow(w) && m in w.models
    requires ReadsBack(qt, v) && qt.typeName(v) != ModelTag
    requires !SkippedName(name) && k >= 0 && LookupKey(w.models[m], name, version) == k
    ensures DecodeValue(reg, qt, w, PlainNode(qt, name, v), m, ent, version) == Pair(w, k, v)
  {
    var el := PlainNode(qt, name, v);
    assert Attr(el, KeyAttr) == name;
    assert Attr(el, TypeAttr) == qt.typeName(v);
    assert Attr(el, ValueAttr) == qt.toText(v);
  }

  /** A stored key survives a save and a load through role table `c`: a base key holding a
      plain value that reads back, whose role name passes both filters and resolves to
      the key again. */
  predicate KeyRoundTrips(qt: Conversions, c: Collection, names: map<Key, string>, ent: Entry, k: Key,
                          version: seq<int>)
  {
    0 <= k < ShadowedKeysStartAt && k in ent.base &&
    ReadsBack(qt, ent.base[k]) && qt.typeName(ent.base[k]) != ModelTag &&
    !SkippedName(NameOf(names, k)) && LookupKey(c, NameOf(names, k), version) == k
  }

  /** The restriction of an entry's base store to the listed keys. */
  function StoredAt(ent: Entry, keys: seq<Key>): (r: map<Key, Value>)
    ensures r.Keys == set k | k in keys && k in ent.base
    ensures forall k :: k in r ==> r[k] == ent.base[k]
  {
    map k | k in keys && k in ent.base :: ent.base[k]
  }

  /** One step of the value loop: an element that decodes to a key passes it on. */
  lemma DecodeValuesStep(reg: Registry, qt: Conversions, w: World, node: Node, rest: seq<Node>, m: ModelId,
                         into: Entry, version: seq<int>, acc: map<Key, Value>, k: Key, v: Value)
    requires Good(reg) && IdsBelow(w) && m in w.models
    requires node.Element? && k >= 0 && DecodeValue(reg, qt, w, node, m, into, version) == Pair(w, k, v)
    ensures DecodeValues(reg, qt, w, [node] + rest, m, into, version, acc) ==
      DecodeValues(reg, qt, w, rest, m, into, version, acc[k := v])
  {
    assert ([node] + rest)[1..] == rest;
  }

  /** Adding one stored key first and the rest after is adding them all. */
  lemma StoredAtCons(ent: Entry, keys: seq<Key>, acc: map<Key, Value>)
    requires keys != [] && keys[0] in ent.base
    ensures acc[keys[0] := ent.base[keys[0]]] + StoredAt(ent, keys[1..]) == acc + StoredAt(ent, keys)
  {
    var a := acc[keys[0] := ent.base[keys[0]]] + StoredAt(ent, keys[1..]);
    var b := acc + StoredAt(ent, keys);
    forall k | k in a
      ensures k in b && a[k] == b[k]
    {
      if k != keys[0] && k !in StoredAt(ent, keys[1..]) {
        assert k in acc;
      }
    }
    forall k | k in b
      ensures k in a
    {
      if k in StoredAt(ent, keys) && k != keys[0] {
        assert k in keys[1..];
      }
    }
  }

  /** Reading back the elements written for the listed keys adds exactly their stored
      values to what was collected, and changes nothing else. */
  lemma {:induction false} KeysRoundTrip(reg: Registry, qt: Conversions, w: World, ws: World, names: map<Key, string>,
                                         ent: Entry, keys: seq<Key>, fuel: nat, m: ModelId, into: Entry,
                                         version: seq<int>, acc: map<Key, Value>)
    requires Good(reg) && IdsBelow(w) && m in w.models && LiveWorld(ws)
    requires forall k :: k in keys ==> KeyRoundTrips(qt, w.models[m], names, ent, k, version)
    ensures DecodeValues(reg, qt, w, SerializeKeys(qt, ws, names, ent, keys, fuel), m, into, version, acc) ==
      Collected(w, acc + StoredAt(ent, keys))
    decreases |keys|
  {
    if keys == [] {
      assert acc + StoredAt(ent, keys) == acc;
    } else {
      var k := keys[0];
      assert KeyRoundTrips(qt, w.models[m], names, ent, k, version);
      var name := NameOf(names, k);
      var v := ent.base[k];
      assert GetValue(ent, k) == v;
      PlainNameKept(name);
      var rest := SerializeKeys(qt, ws, names, ent, keys[1..], fuel);
      assert SerializeKeys(qt, ws, names, ent, keys, fuel) == [PlainNode(qt, name, v)] + rest;
      PlainValueRoundTrip(reg, qt, w, m, into, version, name, v, k);
      DecodeValuesStep(reg, qt, w, PlainNode(qt, name, v), rest, m, into, version, acc, k, v);
      KeysRoundTrip(reg, qt, w, ws, names, ent, keys[1..], fuel, m, into, version, acc[k := v]);
      StoredAtCons(ent, keys, acc);
    }
  }

  /** deserializeEntry on an Entry element whose class the registry builds as an entry:
      the entry is placed under the next identity and receives the values collected from
      the element's children in one setValues. */
  lemma DecodeEntryCreates(reg: Registry, qt: Conversions, w: World, el: Node, d: ModelId, version: seq<int>,
                           w1: World, e: EntryId, values: map<Key, Value>)
    requires Good(reg) && IdsBelow(w) && d in w.models
    requires TagOf(el) == EntryTag
    requires CreateItem(reg, w, Attr(el, TypeAttr)) == Made(w1, Some(EntryItem(e)))
    requires IdsBelow(w1) && d in w1.models && e in w1.entries
    requires DecodeValues(reg, qt, w1, el.children, d, w1.entries[e], version, map[]) == Collected(w1, values)
    ensures DecodeEntry(reg, qt, w, el, d, version) ==
      Made(World(w1.entries[e := SetValues(w1.entries[e], values).entry], w1.models, w1.nextId), Some(EntryItem(e)))
  {
  }

  /** Restricting a store to all of its keys, starting from nothing, gives the store. */
  lemma StoredAtAll(ent: Entry, keys: seq<Key>)
    requires forall k :: k in keys <==> k in ent.base
    ensures map[] + StoredAt(ent, keys) == ent.base
  {
    var r := map[] + StoredAt(ent, keys);
    forall k
      ensures k in r <==> k in ent.base
    {
      if k in ent.base {
        assert k in keys;
      }
    }
  }

  /** The values read back from a written entry, through a collection with the same role
      table, are exactly the entry's stored values. */
  lemma EntryValuesRoundTrip(reg: Registry, qt: Conversions, w: World, ws: World, names: map<Key, string>,
                             ent: Entry, fuel: nat, d: ModelId, into: Entry, version: seq<int>)
    requires Good(reg) && IdsBelow(w) && d in w.models && LiveWorld(ws)
    requires forall k :: k in ent.base ==> KeyRoundTrips(qt, w.models[d], names, ent, k, version)
    ensures DecodeValues(reg, qt, w, SerializeEntry(qt, ws, names, ent, fuel).children, d, into, version, map[]) ==
      Collected(w, ent.base)
  {
    KeysRoundTrip(reg, qt, w, ws, names, ent, Keys(ent), fuel, d, into, version, map[]);
    StoredAtAll(ent, Keys(ent));
  }

  /** The entry so loaded reads every key the original stored as the original's value. */
  lemma LoadedEntryHolds(created: Entry, ent: Entry)
    requires forall k :: k in ent.base ==> 0 <= k < ShadowedKeysStartAt
    ensures forall k :: k in ent.base ==> GetValue(SetValues(created, ent.base).entry, k) == ent.base[k]
  {
    EntryLaws.SetValuesBaseBatch(created, ent.base);
    var loaded := SetValues(created, ent.base).entry;
    forall k | k in ent.base
      ensures GetValue(loaded, k) == ent.base[k]
    {
      assert SlotOf(k) == BaseSlot(k);
      assert loaded.base[k] == ent.base[k];
    }
  }

  // ------------------------------------------------------------------ collection round trip

  /** The factory registered under `name` builds an entry of that class and adds no row
      to a collection that already exists. */
  ghost predicate BuildsEntryOf(reg: Registry, name: string) {
    name in reg &&
    forall w {:trigger reg[name](w)} :: IdsBelow(w) ==>
      reg[name](w).product.EntryProduct? && reg[name](w).product.entry.typeName == name &&
      forall m :: m in w.models && m in reg[name](w).world.models ==> reg[name](w).world.models[m].rows == w.models[m].rows
  }

  /** An entry survives a save and a load into a collection with the role table and
      version of `c`: its class is built as an entry, and every stored key round-trips. */
  ghost predicate RowRoundTrips(reg: Registry, qt: Conversions, c: Collection, names: map<Key, string>, ent: Entry,
                                version: seq<int>) {
    BuildsEntryOf(reg, ent.typeName) &&
    forall k :: k in ent.base ==> KeyRoundTrips(qt, c, names, ent, k, version)
  }

  /** `e` is a loaded copy of `ent` in `r`: an entry created at or after `since`, of the
      same class, reading every key `ent` stores as `ent` does. */
  ghost predicate CopyOf(r: World, e: EntryId, ent: Entry, since: nat) {
    e >= since && e in r.entries && r.entries[e].typeName == ent.typeName &&
    forall k :: k in ent.base ==> GetValue(r.entries[e], k) == ent.base[k]
  }

  /** `r` is `w` with one copy of each of `rows` (entries of `ws`) appended to collection
      `d`, in row order, under increasing fresh identities. */
  ghost predicate AppendsCopies(w: World, r: World, d: ModelId, ws: World, rows: seq<EntryId>)
    requires d in w.models
    requires forall e :: e in rows ==> e in ws.entries
  {
    var n := |w.models[d].rows|;
    d in r.models && |r.models[d].rows| == n + |rows| && r.models[d].rows[..n] == w.models[d].rows &&
    (var added := r.models[d].rows[n..];
     (forall i :: 0 <= i < |rows| ==> CopyOf(r, added[i], ws.entries[rows[i]], w.nextId)) &&
     StrictlyIncreasing(added))
  }

  /** Only the role table and the version of a collection decide whether a key
      round-trips, so appending rows keeps it. */
  lemma KeyRoundTripsKeepTable(qt: Conversions, c: Collection, c1: Collection, names: map<Key, string>, ent: Entry,
                               k: Key, version: seq<int>)
    requires c1 == c.(rows := c1.rows)
    requires KeyRoundTrips(qt, c, names, ent, k, version)
    ensures KeyRoundTrips(qt, c1, names, ent, k, version)
  {
    assert LookupKey(c1, NameOf(names, k), version) == LookupKey(c, NameOf(names, k), version);
  }

  /** Creating the class of a row that round-trips: a fresh entry of that class, and the
      destination collection untouched. */
  lemma CreateRowEntry(reg: Registry, w: World, d: ModelId, name: string) returns (e: EntryId, w1: World)
    requires Good(reg) && IdsBelow(w) && d in w.models && BuildsEntryOf(reg, name)
    ensures CreateItem(reg, w, name) == Made(w1, Some(EntryItem(e)))
    ensures Grows(w, w1) && IdsBelow(w1) && e >= w.nextId && e in w1.entries
    ensures w1.entries[e].typeName == name
    ensures d in w1.models && w1.models[d] == w.models[d]
  {
    var b := reg[name](w);
    assert b.product.EntryProduct? && b.product.entry.typeName == name;
    CreateItemGrows(reg, w, name);
    e := b.world.nextId;
    w1 := CreateItem(reg, w, name).world;
    assert w1.models[d] == w.models[d] by {
      assert b.world.models[d].rows == w.models[d].rows;
    }
  }

  /** deserializeEntry on a written row that round-trips: a fresh entry of the row's
      class is created, then given the row's stored values by one setValues. */
  lemma DecodeRowCreates(reg: Registry, qt: Conversions, ws: World, names: map<Key, string>, ent: Entry, fuel: nat,
                         w: World, d: ModelId, c: Collection, version: seq<int>) returns (e: EntryId, w1: World)
    requires Good(reg) && IdsBelow(w) && d in w.models && LiveWorld(ws)
    requires w.models[d] == c.(rows := w.models[d].rows)
    requires RowRoundTrips(reg, qt, c, names, ent, version)
    ensures Grows(w, w1) && IdsBelow(w1) && e >= w.nextId && e in w1.entries && w1.models[d] == w.models[d]
    ensures w1.entries[e].typeName == ent.typeName
    ensures DecodeEntry(reg, qt, w, SerializeEntry(qt, ws, names, ent, fuel), d, version) ==
      Made(World(w1.entries[e := SetValues(w1.entries[e], ent.base).entry], w1.models, w1.nextId), Some(EntryItem(e)))
  {
    var el := SerializeEntry(qt, ws, names, ent, fuel);
    assert TagOf(el) == EntryTag && Attr(el, TypeAttr) == ent.typeName;
    e, w1 := CreateRowEntry(reg, w, d, ent.typeName);
    RowValuesCollected(reg, qt, ws, names, ent, fuel, w1, d, c, version, w1.entries[e]);
    DecodeEntryCreates(reg, qt, w, el, d, version, w1, e, ent.base);
  }

  /** The values of a written row that round-trips are collected exactly, into whatever
      entry was created for it. */
  lemma RowValuesCollected(reg: Registry, qt: Conversions, ws: World, names: map<Key, string>, ent: Entry, fuel: nat,
                           w1: World, d: ModelId, c: Collection, version: seq<int>, into: Entry)
    requires Good(reg) && IdsBelow(w1) && d in w1.models && LiveWorld(ws)
    requires w1.models[d] == c.(rows := w1.models[d].rows)
    requires RowRoundTrips(reg, qt, c, names, ent, version)
    ensures DecodeValues(reg, qt, w1, SerializeEntry(qt, ws, names, ent, fuel).children, d, into, version, map[]) ==
      Collected(w1, ent.base)
  {
    forall k | k in ent.base
      ensures KeyRoundTrips(qt, w1.models[d], names, ent, k, version)
    {
      KeyRoundTripsKeepTable(qt, c, w1.models[d], names, ent, k, version);
    }
    EntryValuesRoundTrip(reg, qt, w1, ws, names, ent, fuel, d, into, version);
  }

  /** The loaded row is a copy of the written entry, and the world only grew. */
  lemma DecodeRow(reg: Registry, qt: Conversions, ws: World, names: map<Key, string>, ent: Entry, fuel: nat,
                  w: World, d: ModelId, c: Collection, version: seq<int>) returns (e: EntryId, w2: World)
    requires Good(reg) && IdsBelow(w) && d in w.models && LiveWorld(ws)
    requires w.models[d] == c.(rows := w.models[d].rows)
    requires RowRoundTrips(reg, qt, c, names, ent, version)
    ensures DecodeEntry(reg, qt, w, SerializeEntry(qt, ws, names, ent, fuel), d, version) == Made(w2, Some(EntryItem(e)))
    ensures Grows(w, w2) && e >= w.nextId && e in w2.entries && w2.models[d] == w.models[d]
    ensures CopyOf(w2, e, ent, w.nextId)
  {
    var w1;
    e, w1 := DecodeRowCreates(reg, qt, ws, names, ent, fuel, w, d, c, version);
    var written := SetValues(w1.entries[e], ent.base).entry;
    w2 := World(w1.entries[e := written], w1.models, w1.nextId);
    assert forall k :: k in ent.base ==> KeyRoundTrips(qt, c, names, ent, k, version);
    LoadedCopy(w1, e, ent, w.nextId);
    UpdateFreshEntry(w, w1, e, written);
    assert w2 == w1.(entries := w1.entries[e := written]);
  }

  /** Giving a fresh entry of the row's class the row's stored values makes it a copy of
      the row. */
  lemma LoadedCopy(w1: World, e: EntryId, ent: Entry, since: nat)
    requires e in w1.entries && e >= since && w1.entries[e].typeName == ent.typeName
    requires forall k :: k in ent.base ==> 0 <= k < ShadowedKeysStartAt
    ensures CopyOf(World(w1.entries[e := SetValues(w1.entries[e], ent.base).entry], w1.models, w1.nextId),
                   e, ent, since)
  {
    LoadedEntryHolds(w1.entries[e], ent);
    EntryLaws.SetValuesBaseBatch(w1.entries[e], ent.base);
  }

  /** Loading the first of the written rows: a fresh copy of the entry is created and
      appended, and the loop continues with the rest from there. */
  lemma RowStep(reg: Registry, qt: Conversions, ws: World, names: map<Key, string>, ent: Entry, fuel: nat,
                w: World, d: ModelId, c: Collection, version: seq<int>, rest: seq<Node>)
    returns (e: EntryId, w3: World)
    requires Good(reg) && IdsBelow(w) && d in w.models && LiveWorld(ws)
    requires w.models[d] == c.(rows := w.models[d].rows)
    requires RowRoundTrips(reg, qt, c, names, ent, version)
    ensures Grows(w, w3) && d in w3.models && w3.models[d] == c.(rows := w3.models[d].rows)
    ensures w3.models[d].rows == w.models[d].rows + [e]
    ensures CopyOf(w3, e, ent, w.nextId) && e < w3.nextId
    ensures DecodeRows(reg, qt, w, [SerializeEntry(qt, ws, names, ent, fuel)] + rest, d, version) ==
      DecodeRows(reg, qt, w3, rest, d, version)
  {
    var el := SerializeEntry(qt, ws, names, ent, fuel);
    var w2;
    e, w2 := DecodeRow(reg, qt, ws, names, ent, fuel, w, d, c, version);
    AppendFreshGrows(w, w2, d, e);
    w3 := Append(w2, d, Some(e)).world;
    assert w3.entries[e] == w2.entries[e].(owner := Some(d));
    assert w3.models[d] == w2.models[d].(rows := w2.models[d].rows + [e]);
    assert ([el] + rest)[0] == el && ([el] + rest)[1..] == rest;
  }

  /** One copy appended in front of the copies of the remaining rows is a copy of every
      row. */
  lemma AppendsCopiesCons(w: World, w3: World, r: World, d: ModelId, ws: World, rows: seq<EntryId>, e: EntryId)
    requires d in w.models && d in w3.models && rows != []
    requires forall x :: x in rows ==> x in ws.entries
    requires Grows(w3, r) && w.nextId <= w3.nextId
    requires w3.models[d].rows == w.models[d].rows + [e]
    requires CopyOf(w3, e, ws.entries[rows[0]], w.nextId) && e < w3.nextId
    requires AppendsCopies(w3, r, d, ws, rows[1..])
    ensures AppendsCopies(w, r, d, ws, rows)
  {
    var n := |w.models[d].rows|;
    var rs := r.models[d].rows;
    assert rs[..n + 1] == w.models[d].rows + [e];
    assert rs[..n] == (w.models[d].rows + [e])[..n];
    var later := rs[n + 1..];
    var added := rs[n..];
    assert added == [e] + later;
    assert r.entries[e] == w3.entries[e];
    forall i | 0 <= i < |rows|
      ensures CopyOf(r, added[i], ws.entries[rows[i]], w.nextId)
    {
      if i > 0 {
        assert added[i] == later[i - 1];
        assert rows[i] == rows[1..][i - 1];
        assert CopyOf(r, later[i - 1], ws.entries[rows[1..][i - 1]], w3.nextId);
      }
    }
    forall y | y in later
      ensures e < y
    {
      var i :| 0 <= i < |later| && later[i] == y;
      assert CopyOf(r, later[i], ws.entries[rows[1..][i]], w3.nextId);
    }
    ConsIncreasing(e, later);
  }

  /** Loading the written rows of a collection appends one fresh copy of each row, in row
      order, after the rows the destination already has. */
  lemma {:induction false} RowsRoundTrip(reg: Registry, qt: Conversions, ws: World, names: map<Key, string>,
                                         rows: seq<EntryId>, fuel: nat, w: World, d: ModelId, c: Collection,
                                         version: seq<int>)
    requires Good(reg) && IdsBelow(w) && d in w.models && LiveWorld(ws)
    requires w.models[d] == c.(rows := w.models[d].rows)
    requires forall e :: e in rows ==> e in ws.entries
    requires forall e :: e in rows ==> RowRoundTrips(reg, qt, c, names, ws.entries[e], version)
    ensures AppendsCopies(w, DecodeRows(reg, qt, w, SerializeRows(qt, ws, names, rows, fuel), d, version), d, ws, rows)
    decreases |rows|
  {
    if rows == [] {
      var nodes := SerializeRows(qt, ws, names, rows, fuel);
      assert nodes == [];
      var n := |w.models[d].rows|;
      assert w.models[d].rows[..n] == w.models[d].rows;
    } else {
      assert forall x :: x in rows[1..] ==> x in rows;
      var e, w3 := RowStep(reg, qt, ws, names, ws.entries[rows[0]], fuel, w, d, c, version,
                           SerializeRows(qt, ws, names, rows[1..], fuel));
      RowsRoundTrip(reg, qt, ws, names, rows[1..], fuel, w3, d, c, version);
      SerializeRowsCons(qt, ws, names, rows, fuel);
      AppendsCopiesCons(w, w3, DecodeRows(reg, qt, w3, SerializeRows(qt, ws, names, rows[1..], fuel), d, version),
                        d, ws, rows, e);
    }
  }

  /** The written rows are the first row's element followed by the elements of the rest. */
  lemma SerializeRowsCons(qt: Conversions, ws: World, names: map<Key, string>, rows: seq<EntryId>, fuel: nat)
    requires LiveWorld(ws) && rows != [] && forall x :: x in rows ==> x in ws.entries
    ensures SerializeRows(qt, ws, names, rows, fuel) ==
      [SerializeEntry(qt, ws, names, ws.entries[rows[0]], fuel)] + SerializeRows(qt, ws, names, rows[1..], fuel)
  {
    assert forall x :: x in rows[1..] ==> x in rows;
    var all := SerializeRows(qt, ws, names, rows, fuel);
    var tail := SerializeRows(qt, ws, names, rows[1..], fuel);
    forall i | 0 <= i < |tail|
      ensures all[i + 1] == tail[i]
    {
      assert rows[1..][i] == rows[i + 1];
    }
    ConsOfShifted(all, SerializeEntry(qt, ws, names, ws.entries[rows[0]], fuel), tail);
  }

  lemma ConsOfShifted<T>(a: seq<T>, x: T, b: seq<T>)
    requires |a| == |b| + 1 && a[0] == x
    requires forall i :: 0 <= i < |b| ==> a[i + 1] == b[i]
    ensures a == [x] + b
  {
    assert forall i :: 0 <= i < |a| ==> a[i] == ([x] + b)[i];
  }

  /** A written collection loads into a collection of the same class and version: the
      load succeeds and appends, after the rows already there, one fresh entry per
      written row, in row order, each of the row's class and reading the row's values. */
  lemma ModelRoundTrip(reg: Registry, qt: Conversions, ws: World, m: ModelId, fuel: nat, w: World, d: ModelId)
    requires LiveWorld(ws) && m in ws.models
    requires 0 <= ws.models[m].versionMajor <= IntMax && 0 <= ws.models[m].versionMinor <= IntMax
    requires Good(reg) && IdsBelow(w) && d in w.models
    requires w.models[d].typeName == ws.models[m].typeName
    requires w.models[d].versionMajor == ws.models[m].versionMajor
    requires w.models[d].versionMinor == ws.models[m].versionMinor
    requires forall e :: e in ws.models[m].rows ==>
      RowRoundTrips(reg, qt, w.models[d], ws.models[m].roleNames, ws.entries[e],
                    [ws.models[m].versionMajor, ws.models[m].versionMinor])
    ensures DecodeModel(reg, qt, w, SerializeModel(qt, ws, m, fuel), d).ok
    ensures AppendsCopies(w, DecodeModel(reg, qt, w, SerializeModel(qt, ws, m, fuel), d).world, d, ws, ws.models[m].rows)
  {
    var src := ws.models[m];
    SerializedModelGate(reg, qt, ws, m, fuel, w, d);
    VersionRoundTrip(src.versionMajor, src.versionMinor);
    var el := SerializeModel(qt, ws, m, fuel);
    assert ParseVersion(Attr(el, VersionAttr)) == [src.versionMajor, src.versionMinor];
    assert RowsLive(ws, m);
    RowsRoundTrip(reg, qt, ws, src.roleNames, src.rows, fuel, w, d, w.models[d],
                  [src.versionMajor, src.versionMinor]);
  }
}
