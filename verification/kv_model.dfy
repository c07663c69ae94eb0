/** KVListModel: an ordered list of entries with a role-name table, a version, and
    per-role callbacks of its own.

    Objects live in a `World`: entries and collections are addressed by id, so the
    entry's owner link and a child-model value are plain ids. Each operation returns the
    new world and the notices it raised (row events and fired callback handles).
 */
module KVModel {
  import opened KVTypes
  import opened Ordered
  import opened KVEntry
  import Callbacks

  /** The internal roles MODEL and ENTRY (EnInternalKeys). */
  const ModelRole: Key := InternalKeysStartAt
  const EntryRole: Key := InternalKeysStartAt + 1

  /** The version a collection reports unless a subtype changes it. */
  const DefaultVersionMajor: int := 1
  const DefaultVersionMinor: int := 0

  datatype Collection = Collection(
    typeName: string,            // the concrete class name, used by the serializer
    rows: seq<EntryId>,          // entries_
    roleNames: map<Key, string>, // roleNames_
    versionMajor: int,
    versionMinor: int,
    callbacks: Callbacks.Table,  // entryChangedCallbacks_
    nextHandle: Handle,
    serializationFile: string)

  datatype World = World(entries: map<EntryId, Entry>, models: map<ModelId, Collection>, nextId: nat)

  /** What an operation announced, in order. */
  datatype Notice =
    | EntryCallbacks(entry: EntryId, fired: Fired)
    | CollectionCallbacks(model: ModelId, handles: set<Handle>)
    | DataChanged(model: ModelId, row: int, roles: seq<Key>)
    | RowsInserted(model: ModelId, row: int)
    | RowsRemoved(model: ModelId, row: int)
    | RowsMoved(model: ModelId, from: int, destination: int)
    | ModelReset(model: ModelId)
    | Warning(model: ModelId)

  datatype Step = Step(world: World, notices: seq<Notice>)

  // ------------------------------------------------------------------ role names

  /** createHashFromEnum: insert the enum's (value, name) pairs in order, so a later
      pair with the same value replaces an earlier one. */
  function HashFromEnum(schema: seq<(Key, string)>): (h: map<Key, string>)
    ensures forall k :: k in h <==> exists i :: 0 <= i < |schema| && schema[i].0 == k
    ensures forall k :: k in h ==> exists i :: 0 <= i < |schema| && schema[i] == (k, h[k])
    decreases |schema|
  {
    if schema == [] then map[]
    else
      var init := schema[..|schema| - 1];
      var last := schema[|schema| - 1];
      assert forall i :: 0 <= i < |init| ==> init[i] == schema[i];
      HashFromEnum(init)[last.0 := last.1]
  }

  /** The base key a shadowed key stands for. */
  function Unshadowed(k: Key): Key {
    k - ShadowedKeysStartAt
  }

  /** The shadowed role of every base key of `h`, named `<name>_shadowed`. */
  function ShadowNames(h: map<Key, string>): map<Key, string> {
    map k | ShadowedKeysStartAt <= k < InternalKeysStartAt && Unshadowed(k) in h :: h[Unshadowed(k)] + "_shadowed"
  }

  /** The role table built from a table of base-key names: those names, a
      `<name>_shadowed` role for each, and the internal roles. */
  function RoleTable(h: map<Key, string>): map<Key, string> {
    (h + ShadowNames(h))[ModelRole := "MODEL"][EntryRole := "ENTRY"]
  }

  /** The documented preconditions on the schema enum: its values are base keys and its
      names do not clash with the internal role names. */
  predicate SchemaOk(schema: seq<(Key, string)>) {
    forall i :: 0 <= i < |schema| ==>
      0 <= schema[i].0 < ShadowedKeysStartAt &&
      !EqualsIgnoreCase(schema[i].1, "MODEL") && !EqualsIgnoreCase(schema[i].1, "ENTRY")
  }

  /** setupModelRoleNames. */
  function SetupModelRoleNames(schema: seq<(Key, string)>): map<Key, string>
    requires SchemaOk(schema)
  {
    RoleTable(HashFromEnum(schema))
  }

  /** A collection as its constructor leaves it. */
  function NewCollection(typeName: string, schema: seq<(Key, string)>): (c: Collection)
    requires SchemaOk(schema)
    ensures c.rows == [] && c.callbacks == map[]
    ensures c.versionMajor == 1 && c.versionMinor == 0
  {
    Collection(typeName, [], SetupModelRoleNames(schema), DefaultVersionMajor, DefaultVersionMinor,
               map[], 0, "")
  }

  // ------------------------------------------------------------------ lookups

  /** indexOf: the first position of `e`, or -1. */
  function IndexOf(rows: seq<EntryId>, e: EntryId): (i: int)
    ensures -1 <= i < |rows|
    ensures i == -1 <==> e !in rows
    ensures i >= 0 ==> rows[i] == e && forall j :: 0 <= j < i ==> rows[j] != e
    decreases |rows|
  {
    if rows == [] then -1
    else if rows[0] == e then 0
    else
      var i := IndexOf(rows[1..], e);
      assert e in rows <==> e in rows[1..];
      if i == -1 then -1 else i + 1
  }

  /** The least key mapped to `name` (QHash::key's choice among equal values is left
      open by Qt; the least one is taken here), or -1. */
  function ReverseLookup(names: map<Key, string>, name: string): (k: Key)
    ensures (exists j :: j in names && names[j] == name) ==>
      k in names && names[k] == name && forall j :: j in names && names[j] == name ==> k <= j
    ensures (forall j :: j in names ==> names[j] != name) ==> k == -1
  {
    var ks := set j | j in names && names[j] == name;
    assert forall j :: j in names && names[j] == name <==> j in ks;
    if ks == {} then -1 else MinInt(ks)
  }

  /** Major and minor segment of a version; a missing segment reads as 0 and an empty
      segment list is the null version. */
  function Major(version: seq<int>): int {
    if |version| > 0 then version[0] else 0
  }

  function Minor(version: seq<int>): int {
    if |version| > 1 then version[1] else 0
  }

  /** lookupKey: unless the version is null or equals the collection's own version, no
      key is found; otherwise the role table is searched by name. */
  function LookupKey(c: Collection, name: string, version: seq<int>): (k: Key)
    ensures !(version == [] || (Major(version) == c.versionMajor && Minor(version) == c.versionMinor)) ==>
      k == -1
    ensures (version == [] || (Major(version) == c.versionMajor && Minor(version) == c.versionMinor)) ==>
      k == ReverseLookup(c.roleNames, name)
  {
    if version == [] then ReverseLookup(c.roleNames, name)
    else if Major(version) == c.versionMajor && Minor(version) == c.versionMinor then
      ReverseLookup(c.roleNames, name)
    else -1
  }

  // ------------------------------------------------------------------ world access

  /** Every row of the collection is a live entry. */
  predicate RowsLive(w: World, m: ModelId) {
    m in w.models && forall e :: e in w.models[m].rows ==> e in w.entries
  }

  /** The entry's owner, if any, is a live collection that lists the entry (what
      entryHasChanged asserts when the entry reports a change). */
  predicate OwnerLists(w: World, e: EntryId) {
    e in w.entries &&
    (w.entries[e].owner.Some? ==>
      w.entries[e].owner.value in w.models && e in w.models[w.entries[e].owner.value].rows)
  }

  /** Two worlds with the same collections, the same entries and the same owner links:
      they differ at most in the entries' stores and callbacks. */
  ghost predicate SameLinks(w: World, w1: World) {
    w1.models == w.models && w1.nextId == w.nextId && w1.entries.Keys == w.entries.Keys &&
    forall e :: e in w1.entries ==> w1.entries[e].owner == w.entries[e].owner
  }

  lemma SameLinksKeepsOwners(w: World, w1: World, ids: seq<EntryId>)
    requires SameLinks(w, w1)
    requires forall e :: e in ids ==> OwnerLists(w, e)
    ensures forall e :: e in ids ==> OwnerLists(w1, e)
  {
  }

  lemma SameLinksTransitive(w: World, w1: World, w2: World)
    requires SameLinks(w, w1) && SameLinks(w1, w2)
    ensures SameLinks(w, w2)
  {
  }

  function SetRows(w: World, m: ModelId, rows: seq<EntryId>): (r: World)
    requires m in w.models
    ensures r.models == w.models[m := w.models[m].(rows := rows)]
    ensures r.entries == w.entries && r.nextId == w.nextId
  {
    w.(models := w.models[m := w.models[m].(rows := rows)])
  }

  function SetOwner(w: World, e: EntryId, owner: Option<ModelId>): (r: World)
    requires e in w.entries
    ensures r.entries == w.entries[e := w.entries[e].(owner := owner)]
    ensures r.models == w.models && r.nextId == w.nextId
  {
    w.(entries := w.entries[e := w.entries[e].(owner := owner)])
  }

  // ------------------------------------------------------------------ structure

  /** The index `insert` uses: `i` clamped into [0, n]. */
  function Clamp(i: int, n: nat): (j: nat)
    ensures j <= n
    ensures 0 <= i <= n ==> j == i
    ensures i < 0 ==> j == 0
    ensures i > n ==> j == n
  {
    if i < 0 then 0 else if i >= n then n else i
  }

  /** insertInt: a null entry is ignored; otherwise the entry is placed at `i` and its
      owner becomes this collection. */
  function InsertInt(w: World, m: ModelId, i: int, e: Option<EntryId>): Step
    requires m in w.models && 0 <= i <= |w.models[m].rows|
    requires e.Some? ==> e.value in w.entries
  {
    match e
    case None => Step(w, [])
    case Some(id) =>
      var rows := w.models[m].rows;
      Step(SetOwner(SetRows(w, m, rows[..i] + [id] + rows[i..]), id, Some(m)), [RowsInserted(m, i)])
  }

  /** insert: clamp the index, then insertInt. */
  function Insert(w: World, m: ModelId, i: int, e: Option<EntryId>): Step
    requires m in w.models
    requires e.Some? ==> e.value in w.entries
  {
    InsertInt(w, m, Clamp(i, |w.models[m].rows|), e)
  }

  function Append(w: World, m: ModelId, e: Option<EntryId>): Step
    requires m in w.models
    requires e.Some? ==> e.value in w.entries
  {
    InsertInt(w, m, |w.models[m].rows|, e)
  }

  function Prepend(w: World, m: ModelId, e: Option<EntryId>): Step
    requires m in w.models
    requires e.Some? ==> e.value in w.entries
  {
    InsertInt(w, m, 0, e)
  }

  datatype Taken = Taken(world: World, notices: seq<Notice>, entry: Option<EntryId>)

  /** takeAt: an index in range removes that row and clears the entry's owner (the entry
      is not destroyed); any other index returns nothing and changes nothing. */
  function TakeAt(w: World, m: ModelId, i: int): (t: Taken)
    requires RowsLive(w, m)
    ensures t.entry.Some? <==> 0 <= i < |w.models[m].rows|
    ensures t.entry.Some? ==> t.entry == Some(w.models[m].rows[i])
    ensures t.entry.None? ==> t.world == w && t.notices == []
  {
    var rows := w.models[m].rows;
    if 0 <= i < |rows| then
      var e := rows[i];
      Taken(SetOwner(SetRows(w, m, rows[..i] + rows[i + 1..]), e, None), [RowsRemoved(m, i)], Some(e))
    else Taken(w, [], None)
  }

  function TakeFirst(w: World, m: ModelId): Taken
    requires RowsLive(w, m)
  {
    TakeAt(w, m, 0)
  }

  function TakeLast(w: World, m: ModelId): Taken
    requires RowsLive(w, m)
  {
    TakeAt(w, m, |w.models[m].rows| - 1)
  }

  /** QVector::move(from, to): the element at `from` ends up at `to`. */
  function MoveSeq<T>(s: seq<T>, from: nat, to: nat): (r: seq<T>)
    requires from < |s| && to < |s|
    ensures |r| == |s|
  {
    var rest := s[..from] + s[from + 1..];
    rest[..to] + [s[from]] + rest[to..]
  }

  /** move: both indices must be rows. Qt refuses to move a row onto itself, so
      `from == to` only warns; otherwise the row moves and the move event names the
      destination the way beginMoveRows counts it (one past `to` when moving down). */
  function Move(w: World, m: ModelId, from: int, to: int): Step
    requires m in w.models
  {
    var rows := w.models[m].rows;
    if 0 <= from < |rows| && 0 <= to < |rows| then
      var destination := if to > from then to + 1 else to;
      if from == to then Step(w, [Warning(m)])
      else Step(SetRows(w, m, MoveSeq(rows, from, to)), [RowsMoved(m, from, destination)])
    else Step(w, [Warning(m)])
  }

  /** Clear the owner of each listed entry. */
  function Detach(entries: map<EntryId, Entry>, ids: seq<EntryId>): (r: map<EntryId, Entry>)
    requires forall e :: e in ids ==> e in entries
    ensures r.Keys == entries.Keys
    ensures forall e :: e in r ==> r[e] == if e in ids then entries[e].(owner := None) else entries[e]
    decreases |ids|
  {
    if ids == [] then entries
    else
      var e := ids[0];
      assert forall x :: x in ids <==> x == e || x in ids[1..];
      Detach(entries[e := entries[e].(owner := None)], ids[1..])
  }

  /** clear: detach every entry without destroying it; nothing happens on an empty
      collection. */
  function Clear(w: World, m: ModelId): Step
    requires RowsLive(w, m)
  {
    var rows := w.models[m].rows;
    if rows == [] then Step(w, [])
    else Step(SetRows(w.(entries := Detach(w.entries, rows)), m, []), [ModelReset(m)])
  }

  /** deleteAll: detach and destroy every entry; nothing happens on an empty collection. */
  function DeleteAll(w: World, m: ModelId): Step
    requires RowsLive(w, m)
  {
    var rows := w.models[m].rows;
    if rows == [] then Step(w, [])
    else
      var detached := Detach(w.entries, rows);
      Step(SetRows(w.(entries := detached - set e | e in rows), m, []), [ModelReset(m)])
  }

  /** Destroy what a take returned (deleteAt / deleteFirst / deleteLast). */
  function Destroy(t: Taken): Step {
    match t.entry
    case None => Step(t.world, t.notices)
    case Some(e) => Step(t.world.(entries := t.world.entries - {e}), t.notices)
  }

  function DeleteAt(w: World, m: ModelId, i: int): Step
    requires RowsLive(w, m)
  {
    Destroy(TakeAt(w, m, i))
  }

  function DeleteFirst(w: World, m: ModelId): Step
    requires RowsLive(w, m)
  {
    Destroy(TakeFirst(w, m))
  }

  function DeleteLast(w: World, m: ModelId): Step
    requires RowsLive(w, m)
  {
    Destroy(TakeLast(w, m))
  }

  // ------------------------------------------------------------------ data access

  datatype Fetched = Fetched(world: World, value: Value)

  /** The row's entry, if the row exists (QVector::value with a null default). */
  function RowEntry(c: Collection, row: int): Option<EntryId> {
    if 0 <= row < |c.rows| then Some(c.rows[row]) else None
  }

  /** data: MODEL gives the collection itself, ENTRY the row's entry (or null), any other
      role the entry's value read through the non-const getValue, which adds a default
      value for an absent base key; an out-of-range row gives the invalid value. */
  function Data(w: World, m: ModelId, row: int, role: Key): Fetched
    requires RowsLive(w, m)
  {
    if role == ModelRole then Fetched(w, ModelRef(m))
    else
      match RowEntry(w.models[m], row)
      case None => Fetched(w, if role == EntryRole then EntryRef(None) else Invalid)
      case Some(e) =>
        if role == EntryRole then Fetched(w, EntryRef(Some(e)))
        else
          var r := GetValueMut(w.entries[e], role);
          Fetched(w.(entries := w.entries[e := r.entry]), r.value)
  }

  /** What data returns, without its side effect on the entry. */
  function DataValue(w: World, m: ModelId, row: int, role: Key): Value
    requires RowsLive(w, m)
  {
    if role == ModelRole then ModelRef(m)
    else
      match RowEntry(w.models[m], row)
      case None => if role == EntryRole then EntryRef(None) else Invalid
      case Some(e) => if role == EntryRole then EntryRef(Some(e)) else GetValue(w.entries[e], role)
  }

  // ------------------------------------------------------------------ change reports

  /** entryHasChanged: every distinct collection handle registered on any modified role
      runs once, then one dataChanged for the entry's row with those roles. */
  function EntryHasChanged(c: Collection, m: ModelId, e: EntryId, roles: seq<Key>): (ns: seq<Notice>)
    requires e in c.rows
    ensures |ns| == 2
    ensures ns[0].CollectionCallbacks? && ns[0].model == m
    ensures forall h :: h in ns[0].handles <==>
      exists k :: k in roles && h in Callbacks.ListFor(c.callbacks, k)
    ensures ns[1] == DataChanged(m, IndexOf(c.rows, e), roles) && ns[1].row >= 0
  {
    [CollectionCallbacks(m, Callbacks.Collect(c.callbacks, roles)), DataChanged(m, IndexOf(c.rows, e), roles)]
  }

  /** Every owner report in `evs` names a collection that lists `e`. */
  predicate Deliverable(w: World, e: EntryId, evs: seq<EntryEvent>) {
    forall ev :: ev in evs && ev.OwnerInformed? ==> ev.model in w.models && e in w.models[ev.model].rows
  }

  lemma OwnerReportsDeliverable(w: World, e: EntryId, evs: seq<EntryEvent>)
    requires OwnerLists(w, e) && ReportsToOwner(w.entries[e].owner, evs)
    ensures Deliverable(w, e, evs)
  {
  }

  /** Turn the events of one entry mutation into notices: the entry's callbacks, then the
      owner's entryHasChanged. */
  function Deliver(w: World, e: EntryId, evs: seq<EntryEvent>): (ns: seq<Notice>)
    requires Deliverable(w, e, evs)
    decreases |evs|
  {
    if evs == [] then []
    else
      assert evs[0] in evs;
      var head := match evs[0]
        case CallbacksFired(f) => [EntryCallbacks(e, f)]
        case OwnerInformed(mo, keys) => EntryHasChanged(w.models[mo], mo, e, keys);
      head + Deliver(w, e, evs[1..])
  }

  /** An entry mutation applied to the world, with its notices. */
  function Mutate(w: World, e: EntryId, c: Change): Step
    requires e in w.entries
    requires Deliverable(w, e, c.events)
  {
    Step(w.(entries := w.entries[e := c.entry]), Deliver(w, e, c.events))
  }

  datatype Edited = Edited(world: World, notices: seq<Notice>, ok: bool)

  /** setData: the internal roles are read-only and a row must exist; otherwise the value
      is written through setValue and the call succeeds whether or not it changed. */
  function SetData(w: World, m: ModelId, row: int, v: Value, role: Key): Edited
    requires RowsLive(w, m)
    requires forall e :: e in w.models[m].rows ==> OwnerLists(w, e)
  {
    if role == ModelRole || role == EntryRole then Edited(w, [], false)
    else
      match RowEntry(w.models[m], row)
      case None => Edited(w, [], false)
      case Some(e) =>
        assert e in w.models[m].rows && OwnerLists(w, e);
        var c := SetValue(w.entries[e], role, v);
        OwnerReportsDeliverable(w, e, c.events);
        var s := Mutate(w, e, c);
        Edited(s.world, s.notices, true)
  }

  // ------------------------------------------------------------------ collection callbacks

  datatype Subscribed = Subscribed(model: Collection, handle: Handle)

  /** onEntriesChanged(roles): a fresh handle appended to the list of every listed role. */
  function OnEntriesChanged(c: Collection, roles: seq<Key>): (r: Subscribed)
    ensures r.handle == c.nextHandle && r.model.nextHandle > r.handle
    ensures r.model == c.(callbacks := r.model.callbacks, nextHandle := r.model.nextHandle)
  {
    Subscribed(c.(callbacks := Callbacks.Register(c.callbacks, roles, c.nextHandle),
                  nextHandle := c.nextHandle + 1), c.nextHandle)
  }

  /** removeEntriesRoleChanged: drop the handle from every role's list. */
  function RemoveEntriesRoleChanged(c: Collection, h: Handle): (r: Collection)
    ensures r == c.(callbacks := r.callbacks)
    ensures forall k :: h !in Callbacks.ListFor(r.callbacks, k)
  {
    c.(callbacks := Callbacks.Unregister(c.callbacks, h))
  }

  // ------------------------------------------------------------------ shadow commit / discard

  datatype Committed = Committed(world: World, notices: seq<Notice>, count: nat)

  /** The virtual applyShadowedChanges of an entry type: an optional rewrite of the shadow
      store (a subtype's hook) followed by the base commit. */
  type ShadowHook = Entry -> map<Key, Value>

  function NoHook(e: Entry): map<Key, Value> {
    e.shadow
  }

  /** applyAllShadowedChanges over the listed rows, summing the per-entry counts. */
  function ApplyRows(w: World, ids: seq<EntryId>, hook: ShadowHook): (r: Committed)
    requires forall e :: e in ids ==> OwnerLists(w, e)
    ensures SameLinks(w, r.world)
    decreases |ids|
  {
    if ids == [] then Committed(w, [], 0)
    else
      var e := ids[0];
      assert e in ids && OwnerLists(w, e);
      var ent := w.entries[e];
      var a := ApplyShadowedChanges(ent.(shadow := hook(ent)));
      OwnerReportsDeliverable(w, e, a.events);
      var w1 := w.(entries := w.entries[e := a.entry]);
      var ns := Deliver(w, e, a.events);
      assert SameLinks(w, w1);
      assert forall x :: x in ids[1..] ==> x in ids;
      SameLinksKeepsOwners(w, w1, ids[1..]);
      var rest := ApplyRows(w1, ids[1..], hook);
      SameLinksTransitive(w, w1, rest.world);
      Committed(rest.world, ns + rest.notices, a.count + rest.count)
  }

  function ApplyAll(w: World, m: ModelId, hook: ShadowHook): Committed
    requires RowsLive(w, m)
    requires forall e :: e in w.models[m].rows ==> OwnerLists(w, e)
  {
    ApplyRows(w, w.models[m].rows, hook)
  }

  /** revertAllShadowedChanges: discard the shadow store of every row. */
  function RevertRows(entries: map<EntryId, Entry>, ids: seq<EntryId>): (r: map<EntryId, Entry>)
    requires forall e :: e in ids ==> e in entries
    ensures r.Keys == entries.Keys
    ensures forall e :: e in r ==>
      r[e] == if e in ids then RevertShadowedChanges(entries[e]) else entries[e]
    decreases |ids|
  {
    if ids == [] then entries
    else
      var e := ids[0];
      assert forall x :: x in ids <==> x == e || x in ids[1..];
      RevertRows(entries[e := RevertShadowedChanges(entries[e])], ids[1..])
  }

  function RevertAll(w: World, m: ModelId): World
    requires RowsLive(w, m)
  {
    w.(entries := RevertRows(w.entries, w.models[m].rows))
  }
}
