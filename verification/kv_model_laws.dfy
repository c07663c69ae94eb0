/** What the operations of KVListModel guarantee: where insert, take and move put the
    rows, that taking undoes inserting and moving back undoes a move, that the owner
    links stay consistent, what data and setData read and write, how role names are
    built and looked up, and what committing or discarding all shadow edits does.
 */
module ModelLaws {
  import opened KVTypes
  import opened Ordered
  import opened KVEntry
  import EntryLaws
  import Callbacks
  import opened KVModel

  // ------------------------------------------------------------------ sequences

  ghost predicate Distinct<T>(s: seq<T>) {
    forall i, j :: 0 <= i < j < |s| ==> s[i] != s[j]
  }

  lemma DistinctTail<T>(s: seq<T>)
    requires Distinct(s) && s != []
    ensures Distinct(s[1..]) && s[0] !in s[1..]
    ensures forall x :: x in s <==> x == s[0] || x in s[1..]
  {
    assert s == [s[0]] + s[1..];
  }

  /** Removing the element just inserted gives back the original sequence. */
  lemma InsertRemove<T>(a: seq<T>, x: T, b: seq<T>)
    ensures var s := a + [x] + b; s[|a|] == x && s[..|a|] + s[|a| + 1..] == a + b
  {
    var s := a + [x] + b;
    assert s[..|a|] == a;
    assert s[|a| + 1..] == b;
  }

  /** Re-inserting an element where it was removed gives back the original sequence. */
  lemma RemoveInsert<T>(s: seq<T>, i: nat)
    requires i < |s|
    ensures var rest := s[..i] + s[i + 1..]; rest[..i] + [s[i]] + rest[i..] == s
  {
    var rest := s[..i] + s[i + 1..];
    assert rest[..i] == s[..i];
    assert rest[i..] == s[i + 1..];
  }

  /** The element moved ends up at `to`; the others keep their relative order. */
  lemma MoveSeqPlaces<T>(s: seq<T>, from: nat, to: nat)
    requires from < |s| && to < |s|
    ensures var r := MoveSeq(s, from, to);
      r[to] == s[from] && r[..to] + r[to + 1..] == s[..from] + s[from + 1..] &&
      multiset(r) == multiset(s)
  {
    var rest := s[..from] + s[from + 1..];
    InsertRemove(rest[..to], s[from], rest[to..]);
    assert rest[..to] + rest[to..] == rest;
    calc {
      multiset(MoveSeq(s, from, to));
      multiset(rest[..to]) + multiset([s[from]]) + multiset(rest[to..]);
      { assert rest == rest[..to] + rest[to..]; }
      multiset(rest) + multiset([s[from]]);
      { assert s == s[..from] + [s[from]] + s[from + 1..]; }
      multiset(s);
    }
  }

  /** Moving the element back to where it came from restores the sequence. */
  lemma MoveSeqInverse<T>(s: seq<T>, from: nat, to: nat)
    requires from < |s| && to < |s|
    ensures MoveSeq(MoveSeq(s, from, to), to, from) == s
  {
    var r := MoveSeq(s, from, to);
    MoveSeqPlaces(s, from, to);
    RemoveInsert(s, from);
  }

  /** QVector::move(0, 2) on three elements rotates the first to the back, and
      move(2, 0) rotates the last to the front. */
  lemma MoveSeqExamples()
    ensures MoveSeq([10, 20, 30], 0, 2) == [20, 30, 10]
    ensures MoveSeq([10, 20, 30], 2, 0) == [30, 10, 20]
    ensures MoveSeq([10, 20, 30], 0, 1) == [20, 10, 30]
  {
    var s := [10, 20, 30];
    assert s[..0] + s[1..] == [20, 30];
    assert s[..2] + s[3..] == [10, 20];
  }

  // ------------------------------------------------------------------ insert and take

  /** insert clamps its index, places the entry there, shifts the later rows up by one,
      makes the collection the entry's owner and reports the row; nothing else changes. */
  lemma InsertPlaces(w: World, m: ModelId, i: int, id: EntryId)
    requires m in w.models && id in w.entries
    ensures var n := |w.models[m].rows|;
      var j := Clamp(i, n);
      var s := Insert(w, m, i, Some(id));
      var rows := s.world.models[m].rows;
      |rows| == n + 1 && rows[j] == id &&
      (forall k :: 0 <= k < j ==> rows[k] == w.models[m].rows[k]) &&
      (forall k :: j < k <= n ==> rows[k] == w.models[m].rows[k - 1]) &&
      s.world.entries == w.entries[id := w.entries[id].(owner := Some(m))] &&
      s.world.models == w.models[m := w.models[m].(rows := rows)] &&
      s.notices == [RowsInserted(m, j)]
  {
  }

  /** A null entry is ignored. */
  lemma InsertNullIgnored(w: World, m: ModelId, i: int)
    requires m in w.models
    ensures Insert(w, m, i, None) == Step(w, [])
    ensures Append(w, m, None) == Step(w, []) && Prepend(w, m, None) == Step(w, [])
  {
  }

  /** append adds the entry after the last row and prepend before the first. */
  lemma AppendPrependEnds(w: World, m: ModelId, id: EntryId)
    requires m in w.models && id in w.entries
    ensures Append(w, m, Some(id)).world.models[m].rows == w.models[m].rows + [id]
    ensures Prepend(w, m, Some(id)).world.models[m].rows == [id] + w.models[m].rows
    ensures Append(w, m, Some(id)) == Insert(w, m, |w.models[m].rows|, Some(id))
    ensures Prepend(w, m, Some(id)) == Insert(w, m, 0, Some(id))
  {
    var rows := w.models[m].rows;
    assert rows[..|rows|] == rows && rows[0..] == rows;
  }

  /** Taking the row just inserted returns the entry and restores the world, when the
      entry was detached before. */
  lemma InsertThenTake(w: World, m: ModelId, i: int, id: EntryId)
    requires RowsLive(w, m) && id in w.entries && w.entries[id].owner.None?
    ensures var j := Clamp(i, |w.models[m].rows|);
      var t := TakeAt(Insert(w, m, i, Some(id)).world, m, j);
      t.entry == Some(id) && t.world == w
  {
    var rows := w.models[m].rows;
    var j := Clamp(i, |rows|);
    InsertRemove(rows[..j], id, rows[j..]);
    assert rows[..j] + rows[j..] == rows;
    var w1 := Insert(w, m, i, Some(id)).world;
    var t := TakeAt(w1, m, j);
    assert t.world.models == w.models;
    assert t.world.entries == w.entries;
  }

  /** takeAt of a row removes it, shifts the later rows down by one, detaches the entry
      without destroying it and reports the row; nothing else changes. */
  lemma TakeAtRemoves(w: World, m: ModelId, i: int)
    requires RowsLive(w, m) && 0 <= i < |w.models[m].rows|
    ensures var old_ := w.models[m].rows;
      var t := TakeAt(w, m, i);
      var rows := t.world.models[m].rows;
      |rows| == |old_| - 1 &&
      (forall k :: 0 <= k < i ==> rows[k] == old_[k]) &&
      (forall k :: i <= k < |rows| ==> rows[k] == old_[k + 1]) &&
      t.world.entries == w.entries[old_[i] := w.entries[old_[i]].(owner := None)] &&
      t.world.models == w.models[m := w.models[m].(rows := rows)] &&
      t.notices == [RowsRemoved(m, i)]
  {
  }

  /** Taking from an empty collection returns nothing and changes nothing. */
  lemma TakeFromEmpty(w: World, m: ModelId)
    requires RowsLive(w, m) && w.models[m].rows == []
    ensures TakeFirst(w, m) == Taken(w, [], None)
    ensures TakeLast(w, m) == Taken(w, [], None)
    ensures DeleteFirst(w, m) == Step(w, []) && DeleteLast(w, m) == Step(w, [])
  {
  }

  /** takeFirst and takeLast take the first and the last row. */
  lemma TakeEnds(w: World, m: ModelId)
    requires RowsLive(w, m) && w.models[m].rows != []
    ensures TakeFirst(w, m).entry == Some(w.models[m].rows[0])
    ensures TakeLast(w, m).entry == Some(w.models[m].rows[|w.models[m].rows| - 1])
    ensures TakeFirst(w, m).world.models[m].rows == w.models[m].rows[1..]
    ensures TakeLast(w, m).world.models[m].rows == w.models[m].rows[..|w.models[m].rows| - 1]
  {
    var rows := w.models[m].rows;
    assert rows[..0] + rows[1..] == rows[1..];
    assert rows[..|rows| - 1] + rows[|rows|..] == rows[..|rows| - 1];
  }

  /** deleteAt takes the row and destroys its entry; an index out of range changes
      nothing. */
  lemma DeleteAtDestroys(w: World, m: ModelId, i: int)
    requires RowsLive(w, m)
    ensures var s := DeleteAt(w, m, i);
      if 0 <= i < |w.models[m].rows| then
        s.world.entries == w.entries - {w.models[m].rows[i]} &&
        s.world.models == TakeAt(w, m, i).world.models &&
        s.notices == [RowsRemoved(m, i)]
      else s == Step(w, [])
  {
  }

  // ------------------------------------------------------------------ move

  /** move of two different rows relocates the row and reports the destination the way
      beginMoveRows counts it; moving a row onto itself or naming a missing row only
      warns. */
  lemma MoveRelocates(w: World, m: ModelId, from: int, to: int)
    requires m in w.models
    ensures var rows := w.models[m].rows;
      var s := Move(w, m, from, to);
      if 0 <= from < |rows| && 0 <= to < |rows| && from != to then
        s.world.models[m].rows == MoveSeq(rows, from, to) &&
        s.world.models == w.models[m := w.models[m].(rows := MoveSeq(rows, from, to))] &&
        s.world.models[m].rows[to] == rows[from] &&
        multiset(s.world.models[m].rows) == multiset(rows) &&
        s.world.entries == w.entries &&
        s.notices == [RowsMoved(m, from, if to > from then to + 1 else to)]
      else s == Step(w, [Warning(m)])
  {
    var rows := w.models[m].rows;
    if 0 <= from < |rows| && 0 <= to < |rows| && from != to {
      MoveSeqPlaces(rows, from, to);
    }
  }

  /** Moving a row and then moving it back restores the world. */
  lemma MoveBack(w: World, m: ModelId, from: int, to: int)
    requires m in w.models
    requires 0 <= from < |w.models[m].rows| && 0 <= to < |w.models[m].rows| && from != to
    ensures Move(Move(w, m, from, to).world, m, to, from).world == w
  {
    MoveSeqInverse(w.models[m].rows, from, to);
  }

  // ------------------------------------------------------------------ clear and delete

  /** clear empties the collection and detaches every former row without destroying it;
      it does nothing (not even a reset) on an empty collection. */
  lemma ClearDetaches(w: World, m: ModelId)
    requires RowsLive(w, m)
    ensures var rows := w.models[m].rows;
      var s := Clear(w, m);
      if rows == [] then s == Step(w, [])
      else
        s.world.models == w.models[m := w.models[m].(rows := [])] &&
        s.world.entries.Keys == w.entries.Keys &&
        (forall e :: e in w.entries ==>
          s.world.entries[e] == if e in rows then w.entries[e].(owner := None) else w.entries[e]) &&
        s.notices == [ModelReset(m)]
  {
  }

  /** deleteAll empties the collection and destroys every former row; other entries are
      left alone; nothing happens on an empty collection. */
  lemma DeleteAllDestroys(w: World, m: ModelId)
    requires RowsLive(w, m)
    ensures var rows := w.models[m].rows;
      var s := DeleteAll(w, m);
      if rows == [] then s == Step(w, [])
      else
        s.world.models == w.models[m := w.models[m].(rows := [])] &&
        (forall e :: e in s.world.entries <==> e in w.entries && e !in rows) &&
        (forall e :: e in s.world.entries ==> s.world.entries[e] == w.entries[e]) &&
        s.notices == [ModelReset(m)]
  {
  }

  // ------------------------------------------------------------------ lookups

  /** indexOf finds the row of an entry listed once. */
  lemma IndexOfDistinct(rows: seq<EntryId>, i: nat)
    requires Distinct(rows) && i < |rows|
    ensures IndexOf(rows, rows[i]) == i
  {
    assert rows[i] in rows;
  }

  // ------------------------------------------------------------------ role names

  /** createHashFromEnum keeps, for each value, the name of its last occurrence. */
  lemma {:induction false} HashLaterWins(schema: seq<(Key, string)>, i: nat)
    requires i < |schema|
    requires forall j :: i < j < |schema| ==> schema[j].0 != schema[i].0
    ensures schema[i].0 in HashFromEnum(schema)
    ensures HashFromEnum(schema)[schema[i].0] == schema[i].1
    decreases |schema|
  {
    if i < |schema| - 1 {
      var init := schema[..|schema| - 1];
      assert init[i] == schema[i];
      HashLaterWins(init, i);
    }
  }

  lemma EqualsIgnoreCaseReflexive(a: string)
    ensures EqualsIgnoreCase(a, a)
  {
  }

  /** Every key of the table is a base key. */
  ghost predicate BaseKeys(h: map<Key, string>) {
    forall k :: k in h ==> 0 <= k < ShadowedKeysStartAt
  }

  /** The names of a valid schema sit under base keys and are not the internal names. */
  lemma SchemaHash(schema: seq<(Key, string)>)
    requires SchemaOk(schema)
    ensures BaseKeys(HashFromEnum(schema))
    ensures forall k :: k in HashFromEnum(schema) ==>
      HashFromEnum(schema)[k] != "MODEL" && HashFromEnum(schema)[k] != "ENTRY"
  {
    var h := HashFromEnum(schema);
    forall k | k in h
      ensures 0 <= k < ShadowedKeysStartAt && h[k] != "MODEL" && h[k] != "ENTRY"
    {
      var i :| 0 <= i < |schema| && schema[i] == (k, h[k]);
      EqualsIgnoreCaseReflexive(h[k]);
    }
  }

  lemma RoleTableHas(h: map<Key, string>, k: Key)
    ensures k in RoleTable(h) <==> k in h || k in ShadowNames(h) || k == ModelRole || k == EntryRole
    ensures k in ShadowNames(h) <==> ShadowedKeysStartAt <= k < InternalKeysStartAt && Unshadowed(k) in h
  {
  }

  lemma RoleTableAt(h: map<Key, string>, k: Key)
    requires k in h && 0 <= k < ShadowedKeysStartAt
    ensures RoleTable(h)[k] == h[k]
    ensures RoleTable(h)[ShadowedKey(k)] == h[k] + "_shadowed"
  {
    assert Unshadowed(ShadowedKey(k)) == k;
  }

  /** The role table holds exactly the base names, the shadowed key of each under
      `<name>_shadowed`, and the two internal roles. */
  lemma RoleTableShape(h: map<Key, string>)
    requires BaseKeys(h)
    ensures var r := RoleTable(h);
      (forall k :: k in r <==> k in h || Unshadowed(k) in h || k == ModelRole || k == EntryRole) &&
      (forall k :: k in h ==> r[k] == h[k] && r[ShadowedKey(k)] == h[k] + "_shadowed") &&
      r[ModelRole] == "MODEL" && r[EntryRole] == "ENTRY"
  {
    var r := RoleTable(h);
    forall k
      ensures k in r <==> k in h || Unshadowed(k) in h || k == ModelRole || k == EntryRole
    {
      RoleTableHas(h, k);
    }
    forall k | k in h
      ensures r[k] == h[k] && r[ShadowedKey(k)] == h[k] + "_shadowed"
    {
      RoleTableAt(h, k);
    }
  }

  /** No role other than the internal ones is named MODEL or ENTRY. */
  lemma InternalNamesReserved(h: map<Key, string>, k: Key)
    requires BaseKeys(h)
    requires forall j :: j in h ==> h[j] != "MODEL" && h[j] != "ENTRY"
    requires k in RoleTable(h) && k != ModelRole && k != EntryRole
    ensures RoleTable(h)[k] != "MODEL" && RoleTable(h)[k] != "ENTRY"
  {
    RoleTableShape(h);
    var r := RoleTable(h);
    if k !in h {
      var b := Unshadowed(k);
      assert b in h && k == ShadowedKey(b);
      assert |r[k]| >= |"_shadowed"|;
    }
  }

  /** Looking up the name of a role whose name no other role carries finds that role,
      under the null version and under the collection's own version. */
  lemma LookupFindsUniqueName(c: Collection, k: Key, extra: seq<int>)
    requires k in c.roleNames
    requires forall j :: j in c.roleNames && j != k ==> c.roleNames[j] != c.roleNames[k]
    ensures LookupKey(c, c.roleNames[k], []) == k
    ensures LookupKey(c, c.roleNames[k], [c.versionMajor, c.versionMinor] + extra) == k
  {
  }

  /** A version that differs from the collection's in its major or minor number finds
      nothing, whatever the name; a missing minor number reads as 0. */
  lemma LookupVersionGate(c: Collection, name: string, major: int, minor: int)
    requires major != c.versionMajor || minor != c.versionMinor
    ensures LookupKey(c, name, [major, minor]) == -1
    ensures c.versionMinor == 0 ==> LookupKey(c, name, [c.versionMajor]) == LookupKey(c, name, [])
    ensures c.versionMinor != 0 ==> LookupKey(c, name, [c.versionMajor]) == -1
  {
  }

  /** A freshly built collection resolves the internal role names MODEL and ENTRY to the
      internal roles. */
  lemma NewCollectionResolves(t: string, schema: seq<(Key, string)>)
    requires SchemaOk(schema)
    ensures LookupKey(NewCollection(t, schema), "MODEL", []) == ModelRole
    ensures LookupKey(NewCollection(t, schema), "ENTRY", [1, 0]) == EntryRole
  {
    var c := NewCollection(t, schema);
    var h := HashFromEnum(schema);
    SchemaHash(schema);
    RoleTableShape(h);
    forall j | j in c.roleNames && j != ModelRole
      ensures c.roleNames[j] != "MODEL"
    {
      if j != EntryRole {
        InternalNamesReserved(h, j);
      }
    }
    forall j | j in c.roleNames && j != EntryRole
      ensures c.roleNames[j] != "ENTRY"
    {
      if j != ModelRole {
        InternalNamesReserved(h, j);
      }
    }
    LookupFindsUniqueName(c, ModelRole, []);
    LookupFindsUniqueName(c, EntryRole, []);
  }

  // ------------------------------------------------------------------ collection callbacks

  /** Every handle in the collection's table was handed out before. */
  ghost predicate HandlesIssuedBy(c: Collection) {
    forall k, h :: k in c.callbacks && h in c.callbacks[k] ==> h < c.nextHandle
  }

  /** onEntriesChanged(roles) adds its fresh handle under every listed role (and nowhere
      else); removeEntriesRoleChanged of that handle restores every role's list. */
  lemma OnEntriesChangedThenRemove(c: Collection, roles: seq<Key>, k: Key)
    requires HandlesIssuedBy(c)
    ensures var r := OnEntriesChanged(c, roles);
      (r.handle in Callbacks.ListFor(r.model.callbacks, k) <==> k in roles) &&
      Callbacks.ListFor(RemoveEntriesRoleChanged(r.model, r.handle).callbacks, k) == Callbacks.ListFor(c.callbacks, k)
  {
    var r := OnEntriesChanged(c, roles);
    Callbacks.RegisterAppends(c.callbacks, roles, r.handle, k);
    var old_ := Callbacks.ListFor(c.callbacks, k);
    var n := Callbacks.Occurrences(roles, k);
    assert r.handle !in old_;
    if n > 0 {
      assert Callbacks.Repeat(r.handle, n)[0] == r.handle;
      assert (old_ + Callbacks.Repeat(r.handle, n))[|old_|] == r.handle;
    }
    EntryLaws.RemoveAllAppended(old_, r.handle, n);
  }

  // ------------------------------------------------------------------ data and setData

  /** data returns what the entry holds for the role (DataValue); its only side effect is
      the default base value the non-const read may add, which no read can tell apart. */
  lemma DataReads(w: World, m: ModelId, row: int, role: Key, e: EntryId, k: Key)
    requires RowsLive(w, m) && e in w.entries
    ensures Data(w, m, row, role).value == DataValue(w, m, row, role)
    ensures SameLinks(w, Data(w, m, row, role).world)
    ensures GetValue(Data(w, m, row, role).world.entries[e], k) == GetValue(w.entries[e], k)
  {
  }

  /** setData refuses the internal roles and missing rows without changing anything;
      otherwise it succeeds, even when the value was already there, and data reads the
      new value back while every other role of every entry reads as before. */
  lemma SetDataReadBack(w: World, m: ModelId, row: int, v: Value, role: Key)
    requires RowsLive(w, m)
    requires forall e :: e in w.models[m].rows ==> OwnerLists(w, e)
    ensures var r := SetData(w, m, row, v, role);
      (r.ok <==> role != ModelRole && role != EntryRole && 0 <= row < |w.models[m].rows|) &&
      (!r.ok ==> r.world == w && r.notices == []) &&
      (r.ok ==> DataValue(r.world, m, row, role) == v && SameLinks(w, r.world))
    ensures var r := SetData(w, m, row, v, role);
      forall e, k :: e in w.entries && r.ok && (e != w.models[m].rows[row] || (k != role && k != ShadowedKey(role))) ==>
        GetValue(r.world.entries[e], k) == GetValue(w.entries[e], k)
  {
    if role != ModelRole && role != EntryRole && 0 <= row < |w.models[m].rows| {
      EntryLaws.SetValueReadBack(w.entries[w.models[m].rows[row]], role, v);
    }
  }

  /** A changing setData runs the entry's callbacks for the role, then the collection's
      callbacks for the role, then reports the edited row; an unchanging one is silent. */
  lemma SetDataNotices(w: World, m: ModelId, row: int, v: Value, role: Key)
    requires Owned(w) && m in w.models
    requires role != ModelRole && role != EntryRole && 0 <= row < |w.models[m].rows|
    ensures var c := w.models[m];
      var e := c.rows[row];
      var ent := w.entries[e];
      SetData(w, m, row, v, role).notices ==
        if SlotValue(ent, role) == v then []
        else [EntryCallbacks(e, InOrder(Callbacks.ListFor(ent.callbacks, role))),
              CollectionCallbacks(m, Callbacks.Collect(c.callbacks, [role])),
              DataChanged(m, row, [role])]
  {
    OwnedLive(w, m);
    var e := w.models[m].rows[row];
    assert e in w.models[m].rows;
    SetDataNoticesAt(w, m, row, v, role);
  }

  lemma SetDataNoticesAt(w: World, m: ModelId, row: int, v: Value, role: Key)
    requires RowsLive(w, m) && forall e :: e in w.models[m].rows ==> OwnerLists(w, e)
    requires Distinct(w.models[m].rows)
    requires role != ModelRole && role != EntryRole && 0 <= row < |w.models[m].rows|
    requires w.entries[w.models[m].rows[row]].owner == Some(m)
    ensures var c := w.models[m];
      var e := c.rows[row];
      var ent := w.entries[e];
      SetData(w, m, row, v, role).notices ==
        if SlotValue(ent, role) == v then []
        else [EntryCallbacks(e, InOrder(Callbacks.ListFor(ent.callbacks, role))),
              CollectionCallbacks(m, Callbacks.Collect(c.callbacks, [role])),
              DataChanged(m, row, [role])]
  {
    var c := w.models[m];
    var e := c.rows[row];
    var ent := w.entries[e];
    EntryLaws.SetValueReadBack(ent, role, v);
    if SlotValue(ent, role) != v {
      EntryLaws.ChangedWriteNotifies(ent, role, v);
      IndexOfDistinct(c.rows, row);
      var evs := SetValue(ent, role, v).events;
      assert evs == [evs[0], evs[1]];
      assert Deliver(w, e, evs[1..]) == EntryHasChanged(c, m, e, [role]) + Deliver(w, e, []);
    }
  }

  // ------------------------------------------------------------------ ownership

  /** No collection lists an entry twice. */
  ghost predicate RowsDistinct(w: World) {
    forall m :: m in w.models ==> Distinct(w.models[m].rows)
  }

  /** Every listed entry is live and names the listing collection as its owner. */
  ghost predicate RowsOwned(w: World) {
    forall m, e :: m in w.models && e in w.models[m].rows ==> e in w.entries && w.entries[e].owner == Some(m)
  }

  /** Every owned entry is listed by its owner. */
  ghost predicate OwnersList(w: World) {
    forall e :: e in w.entries ==> OwnerLists(w, e)
  }

  /** The owner links are consistent (what connectEntry and disconnectEntry maintain). */
  ghost predicate Owned(w: World) {
    RowsDistinct(w) && RowsOwned(w) && OwnersList(w)
  }

  lemma OwnedLive(w: World, m: ModelId)
    requires Owned(w) && m in w.models
    ensures RowsLive(w, m)
    ensures forall e :: e in w.models[m].rows ==> OwnerLists(w, e)
  {
    forall e | e in w.models[m].rows
      ensures e in w.entries && OwnerLists(w, e)
    {
    }
  }

  lemma DistinctInsert<T>(a: seq<T>, x: T, b: seq<T>)
    requires Distinct(a + b) && x !in a + b
    ensures Distinct(a + [x] + b)
    ensures forall y :: y in a + [x] + b <==> y == x || y in a + b
  {
    var s := a + [x] + b;
    forall i, j | 0 <= i < j < |s|
      ensures s[i] != s[j]
    {
      var ab := a + b;
      if i < |a| && j > |a| {
        assert s[i] == ab[i] && s[j] == ab[j - 1];
      } else if i > |a| {
        assert s[i] == ab[i - 1] && s[j] == ab[j - 1];
      } else if i == |a| {
        assert s[j] == ab[j - 1];
      } else if j == |a| {
        assert s[i] == ab[i];
      } else {
        assert s[i] == ab[i] && s[j] == ab[j];
      }
    }
  }

  lemma DistinctRemove<T>(s: seq<T>, i: nat)
    requires Distinct(s) && i < |s|
    ensures Distinct(s[..i] + s[i + 1..])
    ensures forall y :: y in s[..i] + s[i + 1..] <==> y in s && y != s[i]
  {
    var r := s[..i] + s[i + 1..];
    forall y
      ensures y in r <==> y in s && y != s[i]
    {
      if y in r {
        var k :| 0 <= k < |r| && r[k] == y;
        if k < i { assert s[k] == y; } else { assert s[k + 1] == y; }
      }
      if y in s && y != s[i] {
        var k :| 0 <= k < |s| && s[k] == y;
        if k < i { assert r[k] == y; } else { assert r[k - 1] == y; }
      }
    }
    forall p, q | 0 <= p < q < |r|
      ensures r[p] != r[q]
    {
      var p' := if p < i then p else p + 1;
      var q' := if q < i then q else q + 1;
      assert r[p] == s[p'] && r[q] == s[q'];
    }
  }

  /** The shape every structural operation has: collection `m` gets the rows `rows`, and
      the entries become `es`, where exactly the new rows are owned by `m`, the former
      rows that left are detached, destroyed entries were rows of `m`, and no entry of
      another collection joins. Such an update keeps the owner links consistent. */
  lemma Relink(w: World, m: ModelId, rows: seq<EntryId>, es: map<EntryId, Entry>)
    requires Owned(w) && m in w.models
    requires Distinct(rows)
    requires es.Keys <= w.entries.Keys
    requires forall e :: e in rows ==> e in es && (e in w.models[m].rows || w.entries[e].owner.None?)
    requires forall e :: e in es ==>
      es[e].owner == if e in rows then Some(m) else if e in w.models[m].rows then None else w.entries[e].owner
    requires forall e :: e in w.entries && e !in es ==> e in w.models[m].rows
    ensures Owned(World(es, w.models[m := w.models[m].(rows := rows)], w.nextId))
  {
    var w' := World(es, w.models[m := w.models[m].(rows := rows)], w.nextId);
    forall m', e | m' in w'.models && e in w'.models[m'].rows
      ensures e in w'.entries && w'.entries[e].owner == Some(m')
    {
      if m' != m {
        assert w.entries[e].owner == Some(m');
        if e in rows {
          assert w.entries[e].owner == Some(m);
        }
        if e in w.models[m].rows {
          assert w.entries[e].owner == Some(m);
        }
      }
    }
    assert RowsOwned(w');
    forall e | e in w'.entries
      ensures OwnerLists(w', e)
    {
      if e !in rows && e !in w.models[m].rows && w.entries[e].owner.Some? {
        assert OwnerLists(w, e);
      }
    }
    assert OwnersList(w');
  }

  /** Inserting a detached entry keeps the owner links consistent. */
  lemma InsertKeepsOwned(w: World, m: ModelId, i: int, id: EntryId)
    requires Owned(w) && m in w.models && id in w.entries && w.entries[id].owner.None?
    ensures Owned(Insert(w, m, i, Some(id)).world)
  {
    var rows := w.models[m].rows;
    var j := Clamp(i, |rows|);
    assert rows[..j] + rows[j..] == rows;
    DistinctInsert(rows[..j], id, rows[j..]);
    var es := w.entries[id := w.entries[id].(owner := Some(m))];
    OwnedLive(w, m);
    Relink(w, m, rows[..j] + [id] + rows[j..], es);
  }

  /** Taking a row keeps the owner links consistent; so does destroying the taken entry
      (deleteAt): no collection lists it any more. */
  lemma TakeKeepsOwned(w: World, m: ModelId, i: int)
    requires Owned(w) && m in w.models
    ensures Owned(TakeAt(w, m, i).world)
    ensures Owned(DeleteAt(w, m, i).world)
  {
    var rows := w.models[m].rows;
    OwnedLive(w, m);
    if 0 <= i < |rows| {
      DistinctRemove(rows, i);
      var es := w.entries[rows[i] := w.entries[rows[i]].(owner := None)];
      Relink(w, m, rows[..i] + rows[i + 1..], es);
      Relink(w, m, rows[..i] + rows[i + 1..], es - {rows[i]});
    }
  }

  /** Moving a row keeps the owner links consistent. */
  lemma MoveKeepsOwned(w: World, m: ModelId, from: int, to: int)
    requires Owned(w) && m in w.models
    ensures Owned(Move(w, m, from, to).world)
  {
    var rows := w.models[m].rows;
    if 0 <= from < |rows| && 0 <= to < |rows| && from != to {
      var rest := rows[..from] + rows[from + 1..];
      DistinctRemove(rows, from);
      assert rest[..to] + rest[to..] == rest;
      DistinctInsert(rest[..to], rows[from], rest[to..]);
      OwnedLive(w, m);
      Relink(w, m, MoveSeq(rows, from, to), w.entries);
    }
  }

  /** clear and deleteAll keep the owner links consistent. */
  lemma ClearKeepsOwned(w: World, m: ModelId)
    requires Owned(w) && m in w.models
    ensures Owned(Clear(w, m).world)
    ensures Owned(DeleteAll(w, m).world)
  {
    var rows := w.models[m].rows;
    OwnedLive(w, m);
    if rows != [] {
      var detached := Detach(w.entries, rows);
      Relink(w, m, [], detached);
      Relink(w, m, [], detached - set e | e in rows);
    }
  }

  /** Owner links depend only on the links, not on the stores: setData, applyAll and
      revertAll keep them consistent. */
  lemma SameLinksKeepsOwned(w: World, w1: World)
    requires Owned(w) && SameLinks(w, w1)
    ensures Owned(w1)
  {
    assert RowsDistinct(w1);
    forall m, e | m in w1.models && e in w1.models[m].rows
      ensures e in w1.entries && w1.entries[e].owner == Some(m)
    {
    }
    forall e | e in w1.entries
      ensures OwnerLists(w1, e)
    {
      assert OwnerLists(w, e);
    }
  }

  /** setData, applyAllShadowedChanges and revertAllShadowedChanges only touch the
      stores, so they keep the owner links consistent. */
  lemma SetDataKeepsOwned(w: World, m: ModelId, row: int, v: Value, role: Key)
    requires Owned(w) && m in w.models
    ensures RowsLive(w, m) && forall e :: e in w.models[m].rows ==> OwnerLists(w, e)
    ensures Owned(SetData(w, m, row, v, role).world)
  {
    OwnedLive(w, m);
    SetDataReadBack(w, m, row, v, role);
    SameLinksKeepsOwned(w, SetData(w, m, row, v, role).world);
  }

  lemma ApplyAllKeepsOwned(w: World, m: ModelId, hook: ShadowHook)
    requires Owned(w) && m in w.models
    ensures RowsLive(w, m) && forall e :: e in w.models[m].rows ==> OwnerLists(w, e)
    ensures Owned(ApplyAll(w, m, hook).world)
  {
    OwnedLive(w, m);
    SameLinksKeepsOwned(w, ApplyAll(w, m, hook).world);
  }

  lemma RevertAllKeepsOwned(w: World, m: ModelId)
    requires Owned(w) && m in w.models
    ensures RowsLive(w, m)
    ensures Owned(RevertAll(w, m))
  {
    OwnedLive(w, m);
    var w1 := RevertAll(w, m);
    assert SameLinks(w, w1);
    SameLinksKeepsOwned(w, w1);
  }

  // ------------------------------------------------------------------ commit and discard

  /** An entry with its shadow store replaced by what the hook returns. */
  function Hooked(ent: Entry, hook: ShadowHook): Entry {
    ent.(shadow := hook(ent))
  }

  /** An entry whose shadow values have been written over the base values. */
  function CommittedEntry(ent: Entry): Entry {
    ent.(base := ent.base + ent.shadow, shadow := map[])
  }

  /** How many shadow values of the listed entries differ from their base values: what
      committing them all reports. */
  function Pending(entries: map<EntryId, Entry>, ids: seq<EntryId>, hook: ShadowHook): nat
    requires forall e :: e in ids ==> e in entries
    decreases |ids|
  {
    if ids == [] then 0
    else
      assert ids[0] in ids;
      |EntryLaws.Differing(Hooked(entries[ids[0]], hook))| + Pending(entries, ids[1..], hook)
  }

  lemma {:induction false} PendingFrame(a: map<EntryId, Entry>, b: map<EntryId, Entry>, ids: seq<EntryId>, hook: ShadowHook)
    requires forall e :: e in ids ==> e in a && e in b && a[e] == b[e]
    ensures Pending(a, ids, hook) == Pending(b, ids, hook)
    decreases |ids|
  {
    if ids != [] {
      assert ids[0] in ids;
      PendingFrame(a, b, ids[1..], hook);
    }
  }

  /** Committing the rows writes each row's (hooked) shadow values over its base values
      and empties its shadow store; the count is the number of values that differed. */
  /** Facts about one step of the commit loop. */
  lemma ApplyRowsStep(w: World, ids: seq<EntryId>, hook: ShadowHook)
    requires ids != [] && forall e :: e in ids ==> OwnerLists(w, e)
    requires Distinct(ids)
    requires forall e :: e in ids ==> e in w.entries && EntryLaws.ShadowInBaseRange(Hooked(w.entries[e], hook))
    ensures var e := ids[0];
      var a := ApplyShadowedChanges(Hooked(w.entries[e], hook));
      var w1 := w.(entries := w.entries[e := a.entry]);
      a.entry == CommittedEntry(Hooked(w.entries[e], hook)) &&
      a.count == |EntryLaws.Differing(Hooked(w.entries[e], hook))| &&
      (forall x :: x in ids <==> x == e || x in ids[1..]) && e !in ids[1..] &&
      (forall x :: x in ids[1..] ==> OwnerLists(w1, x)) && Distinct(ids[1..]) &&
      (forall x :: x in ids[1..] ==> x in w1.entries && w1.entries[x] == w.entries[x]) &&
      ApplyRows(w, ids, hook).world == ApplyRows(w1, ids[1..], hook).world &&
      ApplyRows(w, ids, hook).count == a.count + ApplyRows(w1, ids[1..], hook).count &&
      Pending(w.entries, ids, hook) == a.count + Pending(w1.entries, ids[1..], hook)
  {
    var e := ids[0];
    assert e in ids && OwnerLists(w, e);
    var ent := w.entries[e];
    var a := ApplyShadowedChanges(Hooked(ent, hook));
    EntryLaws.ApplyCommits(Hooked(ent, hook));
    var w1 := w.(entries := w.entries[e := a.entry]);
    assert SameLinks(w, w1);
    var tail := ids[1..];
    DistinctTail(ids);
    SameLinksKeepsOwners(w, w1, tail);
    PendingFrame(w.entries, w1.entries, tail, hook);
  }

  /** Committing the rows writes each row's (hooked) shadow values over its base values
      and empties its shadow store; entries that are not listed are left alone. */
  lemma {:induction false} ApplyRowsCommits(w: World, ids: seq<EntryId>, hook: ShadowHook)
    requires forall e :: e in ids ==> OwnerLists(w, e)
    requires Distinct(ids)
    requires forall e :: e in ids ==> e in w.entries && EntryLaws.ShadowInBaseRange(Hooked(w.entries[e], hook))
    ensures var r := ApplyRows(w, ids, hook);
      forall e :: e in r.world.entries ==>
        r.world.entries[e] == if e in ids then CommittedEntry(Hooked(w.entries[e], hook)) else w.entries[e]
    decreases |ids|
  {
    if ids != [] {
      ApplyRowsStep(w, ids, hook);
      var e := ids[0];
      var a := ApplyShadowedChanges(Hooked(w.entries[e], hook));
      var w1 := w.(entries := w.entries[e := a.entry]);
      ApplyRowsCommits(w1, ids[1..], hook);
    }
  }

  /** The count committing the rows returns is the number of shadow values that
      differed from their base values. */
  lemma {:induction false} ApplyRowsCount(w: World, ids: seq<EntryId>, hook: ShadowHook)
    requires forall e :: e in ids ==> OwnerLists(w, e)
    requires Distinct(ids)
    requires forall e :: e in ids ==> e in w.entries && EntryLaws.ShadowInBaseRange(Hooked(w.entries[e], hook))
    ensures ApplyRows(w, ids, hook).count == Pending(w.entries, ids, hook)
    decreases |ids|
  {
    if ids != [] {
      ApplyRowsStep(w, ids, hook);
      var e := ids[0];
      var a := ApplyShadowedChanges(Hooked(w.entries[e], hook));
      var w1 := w.(entries := w.entries[e := a.entry]);
      ApplyRowsCount(w1, ids[1..], hook);
    }
  }

  /** applyAllShadowedChanges commits every row (through the entry type's hook) and
      returns the total number of values that changed; entries that are not rows are
      left alone. */
  lemma ApplyAllCommits(w: World, m: ModelId, hook: ShadowHook)
    requires Owned(w) && m in w.models
    requires forall e :: e in w.models[m].rows ==> EntryLaws.ShadowInBaseRange(Hooked(w.entries[e], hook))
    ensures RowsLive(w, m)
    ensures var r := ApplyAll(w, m, hook);
      var rows := w.models[m].rows;
      r.count == Pending(w.entries, rows, hook) &&
      r.world.models == w.models &&
      forall e :: e in r.world.entries ==>
        r.world.entries[e] == if e in rows then CommittedEntry(Hooked(w.entries[e], hook)) else w.entries[e]
  {
    OwnedLive(w, m);
    ApplyRowsCommits(w, w.models[m].rows, hook);
    ApplyRowsCount(w, w.models[m].rows, hook);
  }

  lemma {:induction false} ApplyRowsClean(w: World, ids: seq<EntryId>)
    requires forall e :: e in ids ==> OwnerLists(w, e) && w.entries[e].shadow == map[]
    ensures ApplyRows(w, ids, NoHook) == Committed(w, [], 0)
    decreases |ids|
  {
    if ids != [] {
      var e := ids[0];
      assert e in ids;
      var ent := w.entries[e];
      assert SortedInts(ent.shadow.Keys) == [];
      assert ApplyShadowedChanges(ent) == Applied(ent, [], 0);
      assert w.(entries := w.entries[e := ent]) == w;
      assert forall x :: x in ids[1..] ==> x in ids;
      ApplyRowsClean(w, ids[1..]);
    }
  }

  /** revertAllShadowedChanges empties the shadow store of every row and keeps the rest;
      committing right after it changes nothing and reports no change. */
  lemma RevertThenApply(w: World, m: ModelId)
    requires Owned(w) && m in w.models
    ensures RowsLive(w, m)
    ensures var w1 := RevertAll(w, m);
      (forall e :: e in w1.entries ==>
        w1.entries[e] == if e in w.models[m].rows then w.entries[e].(shadow := map[]) else w.entries[e]) &&
      RowsLive(w1, m) && (forall e :: e in w1.models[m].rows ==> OwnerLists(w1, e)) &&
      ApplyAll(w1, m, NoHook) == Committed(w1, [], 0)
  {
    OwnedLive(w, m);
    var w1 := RevertAll(w, m);
    assert SameLinks(w, w1);
    SameLinksKeepsOwners(w, w1, w.models[m].rows);
    ApplyRowsClean(w1, w1.models[m].rows);
  }
}
