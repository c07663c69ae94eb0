# KVList in Dafny

A model of the core of KVList, a small Qt library for list data shown in QML. Proofs
about the model are included.

- **Entries.** A `KVListEntry` keeps values under integer keys in two stores:
  - the *base* store;
  - the *shadow* store, which holds uncommitted edits. A shadow edit is addressed as
    the base key plus 1024 (`SHADOWED_KEY`).

  It runs the callbacks registered on a key when a write changes that key. It tells
  its owning collection which keys changed.
- **Collections.** A `KVListModel` is an ordered collection of entries. It keeps:
  - a role table built from the entry type's enumeration;
  - version numbers;
  - handlers of its own.

  It is serialized to and from XML by `KVListSerializerXml`. The serializer creates
  entry and collection classes by name through a registry of factories.
- **Filtered view.** A `KVListFilteredModel` shows the rows whose roles hold allowed
  values.
- **Application types.** On top sit two types of the application:
  - `ActivityModel`, which rebuilds its rows from a fixed catalogue of icon files and
    keeps the user's selection;
  - `FriendsEntry`, which derives a display name and a "last seen" text, replaces a
    newly picked logo by a copy named after the friend's uid when the edits are
    committed, and owns an `ActivityModel` together with a filtered view of it.

**Pure functions.** Everything is modelled as pure functions over immutable data:
- A `World` maps entry and collection identities to their state.
- Pointers become identities.
- Qt signals and the callbacks an operation runs become lists of notices. The result
  records them in order.
- QVariant conversions, the clock, uuid generation and file contents are parameters.

**Modules, one per file:**

| module | file | covers |
|---|---|---|
| `KVTypes`, `Callbacks` | kv_types.dfy | keys, slots, values, entries, collections, the world, and the callback tables |
| `KVEntry` | kv_entry.dfy | entry operations |
| `EntryLaws` | kv_entry_laws.dfy | their laws |
| `KVModel` | kv_model.dfy | collection operations |
| `ModelLaws` | kv_model_laws.dfy | their laws, including the owner-link invariant |
| `KVRegistry` | kv_registry.dfy | the factory registry |
| `Variant` | kv_variant.dfy | the QVariant conversions the core uses |
| `Versions` | kv_version.dfy | version text |
| `KVXml` | kv_xml.dfy | the XML serializer |
| `XmlLaws` | kv_xml_laws.dfy | its round trips |
| `Filtering` | kv_filter.dfy | the filtered view |
| `Activities` | kv_activities.dfy | the activity list |
| `ActivityLaws` | kv_activities_laws.dfy | its laws |
| `Friends` | kv_friends.dfy | the friend entry |
| `FriendLaws` | kv_friends_laws.dfy | its laws |
| `Ordered` | ordered.dfy | ascending enumeration of sets, the order of QMap keys and of QString |

## Model

| member | source | states |
|---|---|---|
| KVTypes.KeySpacePartition | src/libs/kvlist/include/kvlistentry.h:118-119 | Keys below 1024 address the base store. Key k + 1024 addresses the shadow slot of k and, for a base key k, lies below the internal keys at 2048. |
| KVTypes.SlotOfInjective | src/libs/kvlist/include/kvlistentry.h:151 | Two different keys never address the same slot, so the writes of one batch cannot collide. |
| KVTypes.Lookup | src/libs/kvlist/src/kvlistentry.cpp:23-33 | A key absent from a store reads as the invalid value, and a present key reads as what is stored. |
| Callbacks.RegisterAppends | src/libs/kvlist/src/kvlistentry.cpp:99-106 | Registering a handle under a list of keys appends it to each key's list once per occurrence of that key. It touches no other key. |
| Callbacks.RemoveAll | src/libs/kvlist/src/kvlistentry.cpp:116-122 | QVector::removeAll drops every copy of the handle and keeps the count of every other handle. |
| Callbacks.RemoveAllAppend | src/libs/kvlist/src/kvlistentry.cpp:116-122 | Removing from a concatenation is removing from each part, and a list without the handle is kept: the remaining handles keep their order. |
| Callbacks.Unregister | src/libs/kvlist/src/kvlistentry.cpp:116-122 | Every key's list is QVector::removeAll of its old list, so the other handles keep their order. The handle is in no list afterwards. Every other handle keeps its count in every list. |
| Callbacks.Collect | src/libs/kvlist/src/kvlistentry.cpp:149-170 | A handle is collected exactly when it is registered on at least one of the changed keys. |
| KVEntry.NewEntry | src/libs/kvlist/include/kvlistentry.h:68-72 | A constructed entry has empty stores, no callbacks and no owner. |
| KVEntry.GetValueMut | src/libs/kvlist/src/kvlistentry.cpp:35-45 | The non-const getValue reads what the const one reads. It leaves every read unchanged, but it inserts the key it fell back to into the base store. |
| KVEntry.Keys | src/libs/kvlist/include/kvlistentry.h:142 | keys() lists exactly the base-store keys, in strictly ascending order. |
| KVEntry.GetChildModel | src/libs/kvlist/src/kvlistentry.cpp:61-64 | A child model is returned exactly when the key holds a collection reference, and it is that collection. |
| KVEntry.SetValueInt | src/libs/kvlist/src/kvlistentry.cpp:172-187 | The key reads back the written value, and every other slot keeps its value. The key joins its store's keys, and the other store is untouched. The change flag is set exactly when the slot held a different value, or was absent and the value is not Invalid. Class, callbacks, owner and handle counter are kept. |
| KVEntry.Notify | src/libs/kvlist/src/kvlistentry.cpp:149-170 | One changed key runs its list as registered, repeats included. Several keys run each distinct handle of their lists once. |
| KVEntry.Announce | src/libs/kvlist/src/kvlistentry.cpp:149-170 | A change first runs the entry's callbacks. The owning collection is informed second, and only when there is an owner. |
| KVEntry.SetValue | src/libs/kvlist/src/kvlistentry.cpp:47-54 | setValue keeps the owner, and every report it produces goes to that owner. |
| KVEntry.ShadowBatch | src/libs/kvlist/src/kvlistentry.cpp:92-97 | setShadowedValues hands setValues each pair under its shadowed key, and nothing else. |
| KVEntry.ApplyShadowedChanges | src/libs/kvlist/src/kvlistentry.cpp:128-140 | Committing keeps the owner and reports only to it. |
| KVEntry.OnValueChanged | src/libs/kvlist/src/kvlistentry.cpp:99-114 | The handle returned is fresh, and the counter moves past it. Only the callback table changes. |
| KVEntry.RemoveOnValueChanged | src/libs/kvlist/src/kvlistentry.cpp:116-122 | Only the callback table changes. |
| EntryLaws.SetValueReadBack | src/libs/kvlist/src/kvlistentry.cpp:47-54 | After setValue(k, v), getValue(k) is v and every other key reads as before. Callbacks and owner are kept. Nothing is reported exactly when the slot already held v. |
| EntryLaws.EqualWriteIsSilent | src/libs/kvlist/src/kvlistentry.cpp:172-187 | Writing to a base key the value getValue already returns reports nothing. |
| EntryLaws.ChangedWriteNotifies | src/libs/kvlist/src/kvlistentry.cpp:149-170 | A changing write runs the key's callbacks as registered. Then, and only with an owner, the owner is told about that one key. |
| EntryLaws.InvalidWriteAddsKeySilently | src/libs/kvlist/src/kvlistentry.cpp:172-187 | setValueInt creates the slot before comparing. So writing the invalid value to an absent base key reports nothing, yet keys() now lists it. |
| EntryLaws.MutableReadAddsKey | src/libs/kvlist/src/kvlistentry.cpp:35-45 | The non-const getValue on an absent base key returns the invalid value and adds the key to keys(). Every read stays the same. |
| EntryLaws.ShadowReadFallsBack | src/libs/kvlist/src/kvlistentry.cpp:82-85 | getShadowedValue gives the shadow value when there is one. Otherwise it gives the base value. |
| EntryLaws.SetShadowedValueSpec | src/libs/kvlist/src/kvlistentry.cpp:87-90 | setShadowedValue stores into the shadow store only, reads back, and reports exactly when the shadow slot held another value. |
| EntryLaws.ShadowWriteOfFallbackValueNotifies | src/libs/kvlist/src/kvlistentry.cpp:82-90 | This is a concrete entry. Writing to the shadow the value that the shadow read already shows still reports a change, because the comparison is with the empty shadow slot. |
| EntryLaws.ShadowWriteKeepsKeys | src/libs/kvlist/include/kvlistentry.h:142 | A shadow write never changes keys(). |
| EntryLaws.WriteAllStores | src/libs/kvlist/src/kvlistentry.cpp:66-80 | The write loop stores every listed pair into its slot and nothing else. |
| EntryLaws.WriteAllChanged | src/libs/kvlist/src/kvlistentry.cpp:66-80 | The loop collects exactly the listed keys whose slot held another value, still in ascending order. |
| EntryLaws.SetValuesSpec | src/libs/kvlist/src/kvlistentry.cpp:66-80 | setValues leaves every slot holding the batch value or its old value. It reports nothing exactly when no key changed. Otherwise it makes one announcement of the changed keys in ascending order. |
| EntryLaws.BatchFiresEachHandleOnce | src/libs/kvlist/src/kvlistentry.cpp:149-170 | When a batch changes two or more keys, each distinct handle registered on any of them runs once. |
| EntryLaws.SetShadowedValuesSpec | src/libs/kvlist/src/kvlistentry.cpp:92-97 | setShadowedValues merges the batch into the shadow store and leaves the base store alone. |
| EntryLaws.SetValuesBaseBatch | src/libs/kvlist/src/kvlistentry.cpp:66-80 | A batch of base keys merges into the base store, and nothing else in the entry changes. |
| EntryLaws.SetValuesOnNew | src/libs/kvlist/src/kvlistentry.cpp:66-80 | On a new entry, a batch of base keys becomes the whole base store. |
| EntryLaws.ApplyCommits | src/libs/kvlist/src/kvlistentry.cpp:128-140 | applyShadowedChanges writes the shadow store over the base store and empties it. The count is the number of shadow values that differed, and it is zero exactly when nothing is reported. |
| EntryLaws.RevertDiscards | src/libs/kvlist/src/kvlistentry.cpp:124-126 | After a revert, base store, callbacks and owner are kept, and every shadow read falls back to the base value. |
| EntryLaws.ChildModelRoundTrip | src/libs/kvlist/src/kvlistentry.cpp:56-64 | getChildModel returns the collection that setChildModel stored under the same key. |
| EntryLaws.NonModelValueHasNoChild | src/libs/kvlist/src/kvlistentry.cpp:61-64 | A key holding anything but a collection has no child model. |
| EntryLaws.OnValueChangedThenRemove | src/libs/kvlist/src/kvlistentry.cpp:99-122 | The fresh handle is listed under a key exactly when the key was among those registered. Removing it restores every key's list. |
| KVModel.HashFromEnum | src/libs/kvlist/src/kvlistmodel.cpp:164-169 | The table has a name for exactly the values the enumeration lists, and each name comes from an entry of the enumeration. |
| ModelLaws.HashLaterWins | src/libs/kvlist/src/kvlistmodel.cpp:164-169 | For a value listed more than once, the name of its last occurrence wins. |
| KVModel.NewCollection | src/libs/kvlist/src/kvlistmodel.cpp:12-14 | A constructed collection has no rows, no handlers and version 1.0. |
| KVModel.IndexOf | src/libs/kvlist/include/kvlistmodel.h:160 | indexOf gives the first position of the entry, or -1 exactly when it is not listed. |
| ModelLaws.IndexOfDistinct | src/libs/kvlist/include/kvlistmodel.h:160 | In a list without repeats, indexOf of the entry at position i is i. |
| KVModel.ReverseLookup | src/libs/kvlist/src/kvlistmodel.cpp:257-265 | It gives a key carrying the name, the least such, or -1 when no key carries it. |
| KVModel.LookupKey | src/libs/kvlist/src/kvlistmodel.cpp:257-265 | A version that is neither null nor equal to the collection's own in both segments finds no key. Otherwise the name is resolved in the role table. |
| ModelLaws.LookupFindsUniqueName | src/libs/kvlist/src/kvlistmodel.cpp:257-265 | A name that only one role carries resolves to that role, with no version or with the collection's own. |
| ModelLaws.LookupVersionGate | src/libs/kvlist/src/kvlistmodel.cpp:257-265 | A different major or minor number finds nothing. A version with only a major segment matches only when the collection's minor is 0. |
| ModelLaws.RoleTableShape | src/libs/kvlist/src/kvlistmodel.cpp:306-334 | The role names are the base names, each base name again under its shadowed key with `_shadowed` appended, and MODEL and ENTRY. |
| ModelLaws.InternalNamesReserved | src/libs/kvlist/src/kvlistmodel.cpp:306-334 | No role except the two internal ones is named MODEL or ENTRY. |
| ModelLaws.NewCollectionResolves | src/libs/kvlist/src/kvlistmodel.cpp:306-334 | In a new collection the names MODEL and ENTRY resolve to the internal roles. |
| KVModel.Clamp | src/libs/kvlist/src/kvlistmodel.cpp:336-344 | The index insert uses lies in [0, n]. It is i when i is in range, 0 below and n above. |
| ModelLaws.InsertPlaces | src/libs/kvlist/src/kvlistmodel.cpp:27-32 | insert places the entry at the clamped index and shifts the later rows up by one. The entry gets the collection as owner, and one rows-inserted notice is emitted. |
| ModelLaws.InsertNullIgnored | src/libs/kvlist/src/kvlistmodel.cpp:27-42 | Inserting, appending or prepending a null entry changes nothing and emits nothing. |
| ModelLaws.AppendPrependEnds | src/libs/kvlist/src/kvlistmodel.cpp:34-42 | append adds after the last row and prepend before the first. They are insert at the size and at 0. |
| KVModel.TakeAt | src/libs/kvlist/src/kvlistmodel.cpp:44-50 | takeAt returns the entry exactly for an index in range, and it is the row at that index. Out of range nothing changes. |
| ModelLaws.TakeAtRemoves | src/libs/kvlist/src/kvlistmodel.cpp:361-369 | takeAt removes the row, shifts the later rows down, detaches the entry without destroying it and emits one rows-removed notice. |
| ModelLaws.InsertThenTake | src/libs/kvlist/src/kvlistmodel.cpp:27-50 | Taking the row just inserted returns the entry and restores the world. |
| ModelLaws.TakeFromEmpty | src/libs/kvlist/src/kvlistmodel.cpp:52-96 | On an empty collection, takeFirst and takeLast return nothing, deleteFirst and deleteLast do nothing, and the world is unchanged. |
| ModelLaws.TakeEnds | src/libs/kvlist/src/kvlistmodel.cpp:52-60 | takeFirst and takeLast take the first and the last row. |
| ModelLaws.DeleteAtDestroys | src/libs/kvlist/src/kvlistmodel.cpp:83-96 | deleteAt removes the row and destroys its entry. An index out of range changes nothing. |
| ModelLaws.MoveSeqPlaces | src/libs/kvlist/src/kvlistmodel.cpp:346-359 | The moved element ends at the destination, the others keep their relative order, and the rows are a permutation of the old ones. |
| ModelLaws.MoveSeqInverse | src/libs/kvlist/src/kvlistmodel.cpp:346-359 | Moving back from the destination to the origin restores the sequence. |
| ModelLaws.MoveRelocates | src/libs/kvlist/src/kvlistmodel.cpp:62-68 | move of two distinct rows in range makes the rows `MoveSeq(rows, from, to)`, so the other rows keep their relative order (`ModelLaws.MoveSeqPlaces`). Only that collection's rows change. The row lands at `to`, and the notice reports the destination the way beginMoveRows counts it (to + 1 when moving down). Anything else only warns. |
| ModelLaws.MoveBack | src/libs/kvlist/src/kvlistmodel.cpp:62-68 | Moving a row and moving it back restores the world. |
| ModelLaws.ClearDetaches | src/libs/kvlist/src/kvlistmodel.cpp:71-81 | clear empties the collection and detaches every former row without destroying it, with one reset notice. An empty collection is left alone. |
| ModelLaws.DeleteAllDestroys | src/libs/kvlist/src/kvlistmodel.cpp:98-109 | deleteAll empties the collection and destroys exactly its former rows. Other entries are kept, and one reset notice is emitted. |
| KVModel.Detach | src/libs/kvlist/src/kvlistmodel.cpp:371-378 | Exactly the listed entries lose their owner. Nothing else changes. |
| ModelLaws.InsertKeepsOwned | src/libs/kvlist/src/kvlistmodel.cpp:336-344 | Inserting a detached entry keeps the owner links consistent: rows are distinct and owned, and owned entries are listed. |
| ModelLaws.TakeKeepsOwned | src/libs/kvlist/src/kvlistmodel.cpp:361-369 | takeAt and deleteAt keep the owner links consistent. |
| ModelLaws.MoveKeepsOwned | src/libs/kvlist/src/kvlistmodel.cpp:346-359 | move keeps the owner links consistent. |
| ModelLaws.ClearKeepsOwned | src/libs/kvlist/src/kvlistmodel.cpp:71-109 | clear and deleteAll keep the owner links consistent. |
| ModelLaws.DataReads | src/libs/kvlist/src/kvlistmodel.cpp:124-141 | data returns what the row's entry holds for the role. Its only side effect is the non-const read, which changes no link and no value read afterwards. |
| ModelLaws.SetDataReadBack | src/libs/kvlist/src/kvlistmodel.cpp:143-158 | setData succeeds exactly for a non-internal role of an existing row, and the row then holds the value. On refusal nothing changes. Other entries and other roles read as before. |
| ModelLaws.SetDataNotices | src/libs/kvlist/src/kvlistmodel.cpp:143-158 | A changing setData runs the entry's callbacks for the role, then the collection's handlers for it, then emits dataChanged for the row. An equal value emits nothing. |
| ModelLaws.SetDataKeepsOwned | src/libs/kvlist/src/kvlistmodel.cpp:143-158 | setData keeps the owner links consistent. |
| KVModel.EntryHasChanged | src/libs/kvlist/src/kvlistmodel.cpp:281-304 | A change report runs each collection handler registered on a changed role, then emits dataChanged at the entry's row. |
| KVModel.OnEntriesChanged | src/libs/kvlist/src/kvlistmodel.cpp:171-184 | The handle returned is fresh, and only the handler table and the counter change. |
| KVModel.RemoveEntriesRoleChanged | src/libs/kvlist/src/kvlistmodel.cpp:186-192 | Afterwards the handle is in no role's list, and only the handler table changes. |
| ModelLaws.OnEntriesChangedThenRemove | src/libs/kvlist/src/kvlistmodel.cpp:171-192 | The fresh handle is listed under exactly the given roles. Removing it restores every role's list. |
| KVModel.ApplyRows | src/libs/kvlist/src/kvlistmodel.cpp:267-273 | Committing the rows changes no owner link. |
| ModelLaws.ApplyRowsCommits | src/libs/kvlist/src/kvlistmodel.cpp:267-273 | Each row's shadow values, after the entry type's hook, are written over its base values and the shadow store is emptied. Other entries are kept. |
| ModelLaws.ApplyRowsCount | src/libs/kvlist/src/kvlistmodel.cpp:267-273 | The count returned is the number of shadow values that differed, summed over the rows. |
| ModelLaws.ApplyAllCommits | src/libs/kvlist/src/kvlistmodel.cpp:267-273 | applyAllShadowedChanges commits every row, returns the number of changed values and keeps the rows. |
| ModelLaws.ApplyAllKeepsOwned | src/libs/kvlist/src/kvlistmodel.cpp:267-273 | Committing keeps the owner links consistent. |
| KVModel.RevertRows | src/libs/kvlist/src/kvlistmodel.cpp:275-279 | Exactly the listed rows lose their uncommitted edits. Every other entry is kept. |
| ModelLaws.RevertThenApply | src/libs/kvlist/src/kvlistmodel.cpp:275-279 | After revertAllShadowedChanges every row has an empty shadow store, so committing right after changes and counts nothing. |
| ModelLaws.RevertAllKeepsOwned | src/libs/kvlist/src/kvlistmodel.cpp:275-279 | Reverting keeps the owner links consistent. |
| KVRegistry.Register | src/libs/kvlist/src/kvlistserializer.cpp:9-13 | Registering a new name adds exactly that name with the factory and keeps every other. |
| KVRegistry.Place | src/libs/kvlist/src/kvlistserializer.cpp:15-23 | The created object is stored under the identity the counter held, and the counter moves on. |
| KVRegistry.CreateItem | src/libs/kvlist/src/kvlistserializer.cpp:15-23 | An unregistered name creates nothing and changes nothing. A registered one runs its factory. |
| KVRegistry.CreateItemGrows | src/libs/kvlist/src/kvlistserializer.cpp:15-23 | Under well-behaved factories the world only grows. The created entry or empty collection is fresh. |
| KVRegistry.RegisterThenCreate | src/libs/kvlist/src/kvlistserializer.cpp:9-23 | After registering a name, creating it runs the new factory, and every other name behaves as before. |
| KVRegistry.UnknownNameCreatesNothing | src/libs/kvlist/src/kvlistserializer.cpp:15-23 | An unknown name yields nothing and leaves the world as it was, however often it is tried. |
| Variant.ToBool | src/activitymodel.cpp:131-138 | A boolean converts to itself, and the invalid value to false. |
| Variant.ToText | src/friendsentry.cpp:130-141 | A string converts to itself, and the invalid value to the empty string. |
| Variant.ToDateTime | src/friendsentry.cpp:28-35 | A date converts to itself, and the invalid value to the invalid date. |
| Variant.ToUuidText | src/friendsentry.cpp:80 | toUuid without braces: a uuid converts to itself, the invalid value to the null uuid, and any other value (a string holding uuid text, say) through the conversion record. |
| Versions.ParseVersion | src/libs/kvlist/kvlistserializerxml.cpp:231 | QVersionNumber::fromString of Qt 5: every parsed segment lies in 0..INT_MAX, and a non-null version has digits after the leading white space and optional plus sign. |
| Versions.SpaceSkipped | src/libs/kvlist/kvlistserializerxml.cpp:231 | White space before a segment is skipped. |
| Versions.PlusSkipped | src/libs/kvlist/kvlistserializerxml.cpp:231 | One plus sign before a segment's digits is accepted. |
| Versions.OversizedSegmentStops | src/libs/kvlist/kvlistserializerxml.cpp:231 | A first segment above INT_MAX gives the null version. |
| Versions.OversizedMinorDropped | src/libs/kvlist/kvlistserializerxml.cpp:231 | A minor number above INT_MAX is dropped: the text reads as the major number alone. |
| Versions.NoDigitsNull | src/libs/kvlist/kvlistserializerxml.cpp:231 | Text with no digits after the white space and plus sign is the null version. |
| Versions.SignAndSpaceExamples | src/libs/kvlist/kvlistserializerxml.cpp:231 | " 1.0" and "+1.0" read as 1.0. |
| Versions.VersionRoundTrip | src/libs/kvlist/kvlistserializerxml.cpp:61 | The text written for a version whose segments are non-negative ints parses back to those segments. |
| Versions.NegativeMajorUnreadable | src/libs/kvlist/kvlistserializerxml.cpp:61 | A negative major number is written with a sign, and that text parses as the null version. |
| KVXml.FirstElement | src/libs/kvlist/kvlistserializerxml.cpp:135 | firstChildElement gives an element of the list, or none exactly when the list holds no element. |
| KVXml.NameOf | src/libs/kvlist/kvlistserializerxml.cpp:74-77 | A key's name is its role-table name, or empty when the table has none. |
| XmlLaws.WrittenNameExactly | src/libs/kvlist/kvlistserializerxml.cpp:78 | The write filter drops exactly the names ending in `_noserialize`. |
| XmlLaws.NsWrittenButSkipped | src/libs/kvlist/kvlistserializerxml.cpp:78 | A name ending in `_ns` is written, and the read filter skips it. |
| XmlLaws.PlainNameKept | src/libs/kvlist/kvlistserializerxml.cpp:299 | A name ending in neither suffix is written and read. |
| KVXml.SerializeValue | src/libs/kvlist/kvlistserializerxml.cpp:88-109 | A plain value becomes a Value element with its type name and text. An entry or object pointer becomes no element. Any element written carries the key's name. |
| KVXml.SerializeRows | src/libs/kvlist/kvlistserializerxml.cpp:63-64 | One Entry element per row, in row order. |
| XmlLaws.SerializeKeysSound | src/libs/kvlist/kvlistserializerxml.cpp:76-83 | Every Value element written for an entry stands for one of its keys whose name passes the write filter. |
| XmlLaws.SerializeKeysComplete | src/libs/kvlist/kvlistserializerxml.cpp:76-83 | Every key holding a plain value whose name passes the write filter is written. |
| XmlLaws.NoSerializeNeverWritten | src/libs/kvlist/kvlistserializerxml.cpp:78 | No element written for an entry is named with the `_noserialize` suffix. |
| XmlLaws.DocumentAccepted | src/libs/kvlist/kvlistserializerxml.cpp:29-38 | A written document passes the root checks of both loads, and its payload is the written collection. |
| KVXml.DecodeChildModel | src/libs/kvlist/kvlistserializerxml.cpp:192-221 | A non-Model element loads nothing. The result is the given destination when there is one. The world only grows. |
| KVXml.DecodeModel | src/libs/kvlist/kvlistserializerxml.cpp:223-253 | Loading succeeds exactly when the tag, class name and both version segments match. On failure the world is untouched. |
| KVXml.DecodeEntry | src/libs/kvlist/kvlistserializerxml.cpp:255-289 | A non-Entry element yields nothing. A loaded entry is fresh, and the world only grows. |
| KVXml.DecodeValue | src/libs/kvlist/kvlistserializerxml.cpp:291-333 | A key is returned only for a Value element whose name passes the read filter and resolves under the version. A plain value is a successful conversion of the text to a known type. A nested collection is a live one. |
| XmlLaws.PlainValueRoundTrip | src/libs/kvlist/kvlistserializerxml.cpp:88-109 | A plain value written under a name that resolves to key k reads back as k with the same value, when its conversion reads its own text. |
| XmlLaws.KeysRoundTrip | src/libs/kvlist/kvlistserializerxml.cpp:275-285 | Reading back the elements written for a list of keys adds exactly their stored values to the batch. |
| XmlLaws.EntryValuesRoundTrip | src/libs/kvlist/kvlistserializerxml.cpp:69-86 | Reading a written entry through a collection with a compatible role table collects exactly the entry's base store. |
| XmlLaws.DecodeEntryCreates | src/libs/kvlist/kvlistserializerxml.cpp:255-289 | A loaded entry is the registry's new entry given the collected values by one setValues. |
| XmlLaws.LoadedEntryHolds | src/libs/kvlist/kvlistserializerxml.cpp:286 | The loaded entry reads every stored key as the original value. |
| XmlLaws.RowStep | src/libs/kvlist/kvlistserializerxml.cpp:238-249 | Loading the first written row appends one fresh copy of its entry to the collection and continues with the rest from the grown world. |
| XmlLaws.DecodeRow | src/libs/kvlist/kvlistserializerxml.cpp:255-289 | A written row that round-trips loads as a fresh entry of its class that reads every stored key as the original. |
| XmlLaws.AppendsCopiesCons | src/libs/kvlist/kvlistserializerxml.cpp:238-249 | One copy appended before the copies of the remaining rows is a copy of every row, in row order. |
| XmlLaws.RowsRoundTrip | src/libs/kvlist/kvlistserializerxml.cpp:238-249 | Loading the written rows appends, after the rows already there, one fresh copy per row, in row order, under increasing identities. |
| XmlLaws.ModelRoundTrip | src/libs/kvlist/kvlistserializerxml.cpp:223-253 | A collection written by serialize (lines 55-67) loads into a collection of the same class and version. The load succeeds and appends one copy of each written row, in row order, each reading the row's values. |
| XmlLaws.SerializedModelGate | src/libs/kvlist/kvlistserializerxml.cpp:223-236 | A written collection loads into a collection exactly when their class names and versions agree. |
| KVXml.DeserializeToNew | src/libs/kvlist/kvlistserializerxml.cpp:113-150 | A missing document or a rejected root loads nothing and changes nothing. A loaded collection is live. |
| KVXml.DeserializeToExisting | src/libs/kvlist/kvlistserializerxml.cpp:152-189 | A missing document or a rejected root fails and changes nothing. Any failure leaves the world untouched. |
| KVXml.Save | src/libs/kvlist/src/kvlistmodel.cpp:225-239 | A document is written exactly when the path is non-empty and ends in `.xml`, in any case. |
| KVXml.Load | src/libs/kvlist/src/kvlistmodel.cpp:241-255 | A path that selects no serializer fails and changes nothing. Loading only adds to the world. |
| XmlLaws.SaveThenLoad | src/libs/kvlist/src/kvlistmodel.cpp:225-255 | Saving to an XML path and loading that file succeeds exactly when the target's class name and version match the saved collection's. |
| Filtering.NewFiltered | src/libs/kvlist/src/kvlistfilteredmodel.cpp:4-10 | The view has the given collection as source and no filter. |
| Filtering.SetFilter | src/libs/kvlist/src/kvlistfilteredmodel.cpp:12-16 | The whole filter is replaced, and the source is kept. |
| Filtering.DataSameReads | src/libs/kvlist/src/kvlistmodel.cpp:124-141 | A read through data changes no value any later getValue read returns. keys() does see the Invalid slot that the read inserts. |
| Filtering.AcceptsFrom | src/libs/kvlist/src/kvlistfilteredmodel.cpp:18-38 | The loop over the filtered roles accepts exactly when every role's value is in its allowed list. |
| Filtering.AcceptsIffAdmits | src/libs/kvlist/src/kvlistfilteredmodel.cpp:18-38 | filterAcceptsRow shows a row exactly when every filtered role holds an allowed value. |
| Filtering.EmptyFilterAcceptsAll | src/libs/kvlist/src/kvlistfilteredmodel.cpp:18-38 | With no filter every row is shown. |
| Filtering.OneFailureRejects | src/libs/kvlist/src/kvlistfilteredmodel.cpp:18-38 | One role whose value is not allowed hides the row. |
| Filtering.EmptyAllowListRejects | src/libs/kvlist/src/kvlistfilteredmodel.cpp:18-38 | A role with an empty allowed list hides every row. |
| Filtering.MoreRolesShowFewer | src/libs/kvlist/src/kvlistfilteredmodel.cpp:18-38 | Filtering on more roles can only hide more rows. |
| Filtering.SetFilterForgets | src/libs/kvlist/src/kvlistfilteredmodel.cpp:12-16 | After setFilter the verdict depends on the new filter alone. |
| Filtering.InternalRolesDispatch | src/libs/kvlist/src/kvlistmodel.cpp:124-141 | The MODEL role of every row holds the source collection. The ENTRY role holds a null entry exactly for rows out of range. |
| Activities.Chop | src/activitymodel.cpp:113-115 | QString::chop drops the last n characters, or all of them, and keeps a prefix. |
| Activities.Capitalize | src/activitymodel.cpp:117 | The first character is upper-cased and the rest kept. |
| ActivityLaws.BasenameExamples | src/activitymodel.cpp:112-117 | The display names of sample icon files: the extension and a one-digit number suffix are dropped, and the first letter is capitalized. |
| ActivityLaws.TwoDigitNumberKeepsTheDash | src/activitymodel.cpp:113-115 | With a two-digit number both digits go, and the dash stays. |
| Activities.FreshEntry | src/activitymodel.cpp:119-124 | A fresh activity entry has exactly the name, icon and selected keys, and no owner. |
| Activities.FreshEntryIsSetValues | src/activitymodel.cpp:119-124 | The fresh entry is a new entry given the three fields by one setValues. |
| ActivityLaws.FreshEntryReads | src/activitymodel.cpp:119-124 | The entry reads the display name, the icon resource path and not-selected. |
| Activities.NamesOfMembers | src/activitymodel.cpp:109-127 | A name is in the catalogue exactly when some icon file has that display name. |
| Activities.Catalogue | src/activitymodel.cpp:109-127 | The catalogue's names are exactly the icons' display names. |
| ActivityLaws.LastIndex | src/activitymodel.cpp:126 | Every catalogued name has a last icon file carrying it. |
| ActivityLaws.CatalogueLast | src/activitymodel.cpp:109-127 | The catalogue entry of a name is the fresh entry of the last icon file with that name. |
| ActivityLaws.LaterIconWins | src/activitymodel.cpp:109-127 | `basketball-1.png` followed by `basketball.png` gives one entry, that of `basketball.png`. |
| Activities.MarkReads | src/activitymodel.cpp:131-138 | Marking selects the entry and keeps its owner and its other base keys. |
| Activities.MarkSelected | src/activitymodel.cpp:129-138 | A rebuilt entry is selected when an old row with that name was selected. Everything else is as catalogued. |
| Activities.Install | src/activitymodel.cpp:147-153 | The entries are placed under consecutive fresh identities, owned by the collection. Other entries are kept. |
| ActivityLaws.ProcessShape | src/activitymodel.cpp:140-155 | processActivities emits one reset. It replaces the rows by one fresh row per distinct name. It destroys the old rows and keeps everything else. |
| ActivityLaws.ProcessRowIds | src/activitymodel.cpp:147-153 | The new rows are consecutive fresh identities, one per name. |
| ActivityLaws.ProcessEntries | src/activitymodel.cpp:140-153 | The entries are the survivors plus the selection-marked catalogue installed in name order. |
| ActivityLaws.MarkedReads | src/activitymodel.cpp:129-138 | The marked entry of a name reads that name, the last icon of that name, and whether an old row of that name was selected. |
| ActivityLaws.ProcessRowReads | src/activitymodel.cpp:147-153 | Row i shows the i-th name in QString order, with its icon and its carried-over selection. |
| ActivityLaws.ProcessRowsShow | src/activitymodel.cpp:109-155 | Each row shows its name, the icon of the last file of that name, and the old selection. The entry is owned by the collection. |
| ActivityLaws.ProcessRebuilt | src/activitymodel.cpp:140-155 | The rebuilt collection lists, under fresh identities, exactly the sorted names with their icons and carried-over selections. |
| ActivityLaws.ProcessOwned | src/activitymodel.cpp:150-152 | Every new row is live and owned by the collection. |
| ActivityLaws.ProcessOrdered | src/activitymodel.cpp:147-153 | The rows' names are strictly ascending in QString order. |
| ActivityLaws.SelectionCarriesOver | src/activitymodel.cpp:129-138 | After a rebuild, a name counts as selected exactly when it did before. |
| ActivityLaws.ProcessTwiceSameView | src/activitymodel.cpp:140-155 | Rebuilding twice shows the same rows as rebuilding once. |
| Friends.DisplayNameOf | src/friendsentry.cpp:130-141 | The display name is never empty. It starts with the first name when there is one, and is the surname when only that is given. |
| FriendLaws.DisplayNameCases | src/friendsentry.cpp:130-141 | "unkown" without names, the surname alone, the first name alone, or the first name, a space and the surname's initial. |
| FriendLaws.DisplayNameIsFirstIff | src/friendsentry.cpp:130-141 | The display name is the bare first name exactly when a first name is given and no surname. |
| FriendLaws.SurnameOnlyByInitial | src/friendsentry.cpp:139 | Given a first name, two surnames give the same display name exactly when their initials agree. |
| Friends.NameRefresh | src/friendsentry.cpp:130-141 | The handler keeps owner and callbacks. |
| FriendLaws.NameRefreshShows | src/friendsentry.cpp:130-141 | The handler stores the display name of the current names and changes no other read. |
| FriendLaws.NameRefreshSettles | src/friendsentry.cpp:140 | Running the handler again changes nothing and reports nothing. |
| Friends.Classify | src/friendsentry.cpp:37-66 | Never exactly without a date. Minute counts are 1-59, hour counts 1-23 and year counts at least 1. Weekday and month buckets name the stored date. |
| FriendLaws.BucketByThresholds | src/friendsentry.cpp:45-66 | A date's bucket is the number of thresholds (60 s, 1 h, 1 day, 1 week, 365 days) the elapsed time has reached. The refresh delay runs to the next threshold. |
| Friends.RefreshDelay | src/friendsentry.cpp:39-66 | -1 without a date, positive before a year has passed, and non-positive afterwards (the year threshold minus the elapsed time). |
| Friends.Int32Of | src/friendsentry.cpp:71 | The narrowing of a qint64 to int: a value in int range congruent to the input modulo 2^32, and the input itself when it fits. |
| Friends.TimerFor | src/friendsentry.cpp:68-71 | The timer stops exactly for a negative delay. Otherwise start receives the delay in milliseconds narrowed to int: exactly the milliseconds up to INT_MAX / 1000 s. |
| FriendLaws.TimerWrapsInMonthBucket | src/friendsentry.cpp:59-71 | A date one week old asks for 30931200 s, and start receives 866428928 ms. A delay one second above INT_MAX / 1000 s gives a negative interval, so no timer runs. |
| FriendLaws.TimerFiresAtBucketChange | src/friendsentry.cpp:45-71 | Before the year threshold the bucket stays the same until the delay runs out, and moves to the next bucket exactly then. Under a week old, or in the last INT_MAX / 1000 s of the year, start receives that delay exactly. |
| FriendLaws.TimerStopsIff | src/friendsentry.cpp:39-71 | The timer stops exactly for a missing date or more than a year elapsed. At exactly a year it starts with 0 ms. |
| FriendLaws.MinutesLabelOutlivesItsMinute | src/friendsentry.cpp:50-52 | Within the minutes bucket the text a minute later differs, yet the timer waits longer than a minute: the label goes stale. |
| FriendLaws.SeenCountReadsBack | src/friendsentry.cpp:51-63 | The minute, hour and year labels begin with their count. |
| Friends.UpdateLastSeen | src/friendsentry.cpp:28-74 | updateLastSeenStatus keeps owner and callbacks. |
| FriendLaws.ContactMeansNow | src/friendsentry.cpp:31-73 | With contact the current time is stored and the text is "now". The timer runs 60 s, and the last-seen handlers fire when the date changed. Nothing else changes. |
| FriendLaws.NoContactShowsStored | src/friendsentry.cpp:34-73 | Without contact only the text changes: the stored date's bucket, with the matching timer. |
| FriendLaws.NeverSeen | src/friendsentry.cpp:39-41 | No stored date gives "never" and a stopped timer. |
| Friends.LogoPath | src/friendsentry.cpp:80 | The copy is `<dir>/<uid>.png`: the stored uuid's text, the null uuid when no uid is stored, and a text uid's toUuid conversion. |
| Friends.FriendShadow | src/friendsentry.cpp:77-91 | addNewLogo changes only the pending logo, and only when there is one. |
| FriendLaws.FriendApplyCommits | src/friendsentry.cpp:20-26 | With no pending logo the override is the plain commit. Otherwise the logo committed is the url of `Friends.LogoPath`, `<dir>/<uid>.png` with the uid read through toUuid, and the other edits commit as they are. |
| FriendLaws.LogoNamedByUid | src/friendsentry.cpp:80-90 | The committed logo url depends on the uid alone, not on the file picked. |
| FriendLaws.PickedFileForgotten | src/friendsentry.cpp:20-26 | Entries differing only in the picked logo file commit alike. |
| FriendLaws.DefaultsWritten | src/friendsentry.cpp:117-124 | The defaults batch on a new entry becomes its whole store. |
| FriendLaws.PreparedStore | src/friendsentry.cpp:117-127 | Before the last-seen pass the store is the defaults plus the uid, with no pending edits. |
| FriendLaws.PreparedCallbacks | src/friendsentry.cpp:130-159 | The name handler is on first and surname, the logo handler on the logo and the last-seen handler on the date. No key has any other handler. |
| FriendLaws.InitStore | src/friendsentry.cpp:106-171 | A constructed friend stores the defaults, the uid, an invalid date, "never", the activity collection and the filtered view. It has no pending edits and no owner. |
| FriendLaws.InitCallbacks | src/friendsentry.cpp:130-159 | Construction leaves exactly the three handlers on their keys. |
| FriendLaws.InitParts | src/friendsentry.cpp:160-170 | The constructor's activity collection takes the next identity. The view over it allows only selected rows. The timer is stopped. |
| Friends.Init | src/friendsentry.cpp:162-170 | The activity collection exists in the resulting world, and the filtered view's source is that collection. |
| Friends.AddRebuilt | src/friendsentry.cpp:163-164 | The new collection exists in the world after the rebuild. |
| FriendLaws.AddRebuiltShape | src/friendsentry.cpp:163-164 | Adding the collection and rebuilding it touches nothing else. |
| FriendLaws.AddRebuiltGrows | src/friendsentry.cpp:163-164 | Adding and rebuilding the activity collection only adds to the world. |
| FriendLaws.ActivityWorldGrows | src/friendsentry.cpp:163-165 | The ActivityModel a friend creates only adds to the world. |
| FriendLaws.FriendFactoryWellBehaved | src/libs/kvlist/src/kvlistserializer.h:60-71 | The FriendsEntry factory registered by name only adds to the world and places a fresh detached entry. |
| FriendLaws.CreateIsInitThenBatch | src/friendsentry.cpp:14-18 | create is construction followed by one setValues of the initial values. |
| FriendLaws.CreateStores | src/friendsentry.cpp:14-18 | After create, every base key holds the initial value when given, and what construction left otherwise. |
| FriendLaws.CreateFiresNameOnce | src/friendsentry.cpp:14-18 | A create batch naming both names runs the display-name handler once. |
| FriendLaws.NamesOneByOneFireTwice | src/friendsentry.cpp:130 | Setting the two names one at a time runs the handler once per write. |
| Ordered.SortedInts | src/libs/kvlist/src/kvlistentry.cpp:66-80 | QMap order: the elements strictly ascending, each once. |
| Ordered.UnitRank | src/activitymodel.cpp:147-153 | The rank of a character under QString's UTF-16 comparison: itself below U+D800, and a supplementary character ranks in the surrogate range below U+E000..U+FFFF. |
| Ordered.UnitRankInjective | src/activitymodel.cpp:147-153 | Different characters rank differently. |
| Ordered.SupplementaryBeforeHighBmp | src/activitymodel.cpp:147-153 | A supplementary character sorts before U+FF01 and after U+D7FF, as QString's code-unit comparison orders them. |
| Ordered.SortedStrings | src/activitymodel.cpp:147-153 | QMap<QString, _> order: strictly ascending in QString's UTF-16 code-unit order, each once. |

## Left out

- File and document I/O are left out: opening, reading and writing files, and parsing XML text. The serializer works on an element tree. A missing or unreadable file is `None` from the `read` parameter.
- The `Date` attribute of a written document is a parameter.
- Both clock reads of updateLastSeenStatus are one instant `now`, in whole seconds. QDateTime's millisecond precision is not modelled.
- QVariant is the `Value` datatype. Its conversions are the `Conversions` record. The cases the core depends on are pinned down: a boolean, string, date or uuid converts to itself, and the invalid value to false, the empty string, the invalid date or the null uuid. Every other conversion, such as a string holding uuid text read through toUuid, is a field of the record.
- Two values are equal when they are structurally equal. QVariant's converting comparison is left out.
- The choice of QHash::key among several keys with the same name is fixed to the least key. Qt leaves the choice unspecified.
- Signals, slots and callbacks are not executed. An operation returns the notices it emits and the handles it runs, in order. The display-name handler is modelled as a separate step (`Friends.NameRefresh`) that the caller applies.
- The logo-exists handler at src/friendsentry.cpp:143-148 is only registered. Its file check is I/O.
- The collection's reaction to an entry's change report is a separate function (`KVModel.EntryHasChanged`), and `Deliverable` checks that the report reaches a listed owner.
- KVXml.DecodeChildModel: when loading into a collection the caller supplied fails, the source's `delete m` (src/libs/kvlist/kvlistserializerxml.cpp:215-216) destroys that collection too, leaving the entry that held it with a dangling pointer. The model keeps the collection in the world, because identities cannot dangle.
- Memory management is left out. `delete` of a created object that fails to load (src/libs/kvlist/kvlistserializerxml.cpp:211-216) is modelled as dropping it from the world. The activity entry that a later icon file of the same name replaces in the catalogue (src/activitymodel.cpp:126) is never deleted in the source; in the model it never enters the world.
- Nested collections in serialization are followed to a `fuel` depth. Loading recurses on the element tree, which is finite. Cycles of collections are not modelled.
- Image cropping, saving and the removal of the old logo file in addNewLogo are left out, along with the directory creation for the logo template. The logo directory is a parameter. The path separator is `/`, and QUrl::fromLocalFile is modelled for absolute paths as `file://` plus the path.
- The non-const `operator[]` reads in addNewLogo are left out: they can insert empty base slots for the logo and the uid, and the model reads them with the const lookup instead.
- The uuid of a new friend and the identity of its filtered view are parameters. The factory takes them as functions of the world's next identity.
- The QTimer object and its timeout connection are left out. updateLastSeenStatus returns the stop, or the int interval that start(int) receives after the qint64 milliseconds are narrowed. QTimer refuses a negative interval and starts no timer (`Friends.Runs`).
- Day and month names come from the `Calendar` parameter, in place of the locale.
- The duplicate `phonenumber` pair in the defaults of init is one map entry. The duplicate has no effect.
- rowCount, flags, keyNamesList, begin/end, at, size and the stream operators are accessors and are not modelled. Q_ASSERT checks are left out too.
- The text helpers (case folding, digit tests, upper-casing) are ASCII only.
- Friends.Prepared and Activities.FreshEntry are defined directly as the entries they produce. `FriendLaws.PreparedStore`, `FriendLaws.DefaultsWritten` and `Activities.FreshEntryIsSetValues` tie them to the setValues and setValue calls the source makes.
- XmlLaws.SaveThenLoad, XmlLaws.SerializedModelGate and XmlLaws.ModelRoundTrip require version numbers in 0..INT_MAX. A negative number is written with a sign that the parser does not read (see `Versions.NegativeMajorUnreadable`). The versions are C++ ints, so no larger number occurs.
- Strings are sequences of Unicode scalar values, not of UTF-16 code units. The ordering (`Ordered.StrLess`) compares by UTF-16 code units. Lengths, `chop` and the character-indexed text helpers count scalars. A supplementary character is one unit in the model and two in Qt. The icon catalogue and the defaults are ASCII, where the two agree.
- Friends.DisplayNameOf: the initial is the surname's first scalar. Qt's `name2.at(0)` is the first UTF-16 unit, which for a surname starting with a supplementary character is a lone high surrogate. A lone surrogate is not a Dafny `char`, so the model shows the whole character instead.
- FriendLaws.DisplayNameCases: same gap as `Friends.DisplayNameOf`. The initial is the first scalar, not the first UTF-16 unit.
- FriendLaws.SurnameOnlyByInitial: compares first scalars. In Qt two surnames whose first supplementary characters share a high surrogate give the same display name. The model distinguishes them.
- FriendLaws.TimerFiresAtBucketChange: the bucket change is stated for the delay in seconds. The interval start receives equals it only where `Friends.TimerFor` shows no wrap (see `FriendLaws.TimerWrapsInMonthBucket`).
- KVRegistry.CreateItemGrows assumes factories that only add to the world, the property `WellBehaved`. `FriendLaws.FriendFactoryWellBehaved` proves it for the FriendsEntry factory.
- Behaviours kept as written rather than corrected:
  - the "unkown" placeholder spelling;
  - "N years" without "ago";
  - a minute label that goes stale for up to an hour (`FriendLaws.MinutesLabelOutlivesItsMinute`);
  - a timer started with 0 ms at exactly one year;
  - a month-bucket delay above INT_MAX / 1000 s (about 24.8 days) whose milliseconds wrap when narrowed to int. The timer then fires early or never starts (`FriendLaws.TimerWrapsInMonthBucket`);
  - a value named `..._ns` that is written but never read back (`XmlLaws.NsWrittenButSkipped`).

  The source gives no indication which of these are unintended.
