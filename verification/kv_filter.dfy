/** KVListFilteredModel: a proxy over one collection that shows the rows whose values
    pass an allow-list per role.

    The filter maps roles to the values allowed for them. A row passes when, for every
    role of the filter in ascending role order, the value the source's `data` returns for
    that row and role is among the allowed ones; the first role that fails ends the test.
    Reading through `data` may give a missing base key an Invalid slot, so the test
    returns the world it leaves behind; no value any read can see changes.
 */
module Filtering {
  import opened KVTypes
  import opened Ordered
  import opened KVEntry
  import opened KVModel
  import ModelLaws

  datatype Filtered = Filtered(source: ModelId, filter: map<Key, seq<Value>>)

  datatype Verdict = Verdict(world: World, accepted: bool)

  /** The constructor: the parent collection becomes the source, with no filter. */
  function NewFiltered(source: ModelId): (f: Filtered)
    ensures f.source == source && f.filter == map[]
  {
    Filtered(source, map[])
  }

  /** setFilter: the whole filter is replaced. */
  function SetFilter(f: Filtered, filter: map<Key, seq<Value>>): (r: Filtered)
    ensures r.source == f.source && r.filter == filter
  {
    f.(filter := filter)
  }

  /** Nothing a read can observe differs between the worlds: the same collections, the
      same live entries, and every entry reading every key alike. */
  ghost predicate SameReads(w: World, w1: World) {
    w1.models == w.models && w1.entries.Keys == w.entries.Keys &&
    forall e, k :: e in w.entries ==> GetValue(w1.entries[e], k) == GetValue(w.entries[e], k)
  }

  /** A read through `data` changes nothing any later read observes. */
  lemma DataSameReads(w: World, m: ModelId, row: int, role: Key)
    requires RowsLive(w, m)
    ensures SameReads(w, Data(w, m, row, role).world)
    ensures Data(w, m, row, role).value == DataValue(w, m, row, role)
  {
    var d := Data(w, m, row, role);
    forall e, k | e in w.entries
      ensures GetValue(d.world.entries[e], k) == GetValue(w.entries[e], k)
    {
      ModelLaws.DataReads(w, m, row, role, e, k);
    }
  }

  /** Worlds alike to every read give the same `data` values. */
  lemma SameReadsData(w: World, w1: World, m: ModelId, row: int, role: Key)
    requires RowsLive(w, m) && SameReads(w, w1)
    ensures RowsLive(w1, m)
    ensures DataValue(w1, m, row, role) == DataValue(w, m, row, role)
  {
    if role != ModelRole && role != EntryRole {
      match RowEntry(w.models[m], row)
      case None =>
      case Some(e) =>
        assert e in w.models[m].rows;
    }
  }

  /** The loop of filterAcceptsRow over the listed roles of the filter. */
  function AcceptsFrom(w: World, m: ModelId, row: int, roles: seq<Key>, filter: map<Key, seq<Value>>): (r: Verdict)
    requires RowsLive(w, m)
    requires forall k :: k in roles ==> k in filter
    ensures SameReads(w, r.world)
    ensures r.accepted <==> forall k :: k in roles ==> DataValue(w, m, row, k) in filter[k]
    decreases |roles|
  {
    if roles == [] then Verdict(w, true)
    else
      var d := Data(w, m, row, roles[0]);
      DataSameReads(w, m, row, roles[0]);
      if d.value !in filter[roles[0]] then
        Verdict(d.world, false)
      else
        SameReadsData(w, d.world, m, row, roles[0]);
        var r := AcceptsFrom(d.world, m, row, roles[1..], filter);
        forall k | k in roles[1..]
          ensures DataValue(d.world, m, row, k) == DataValue(w, m, row, k)
        {
          SameReadsData(w, d.world, m, row, k);
        }
        assert forall k :: k in roles ==> k == roles[0] || k in roles[1..];
        Verdict(r.world, r.accepted)
  }

  /** filterAcceptsRow: every role of the filter, in ascending order. */
  function AcceptsRow(w: World, f: Filtered, row: int): (r: Verdict)
    requires RowsLive(w, f.source)
    ensures SameReads(w, r.world)
  {
    AcceptsFrom(w, f.source, row, SortedInts(f.filter.Keys), f.filter)
  }

  /** The allow-list condition: each filtered role's value is one of its allowed values. */
  ghost predicate Admits(w: World, m: ModelId, row: int, filter: map<Key, seq<Value>>)
    requires RowsLive(w, m)
  {
    forall k :: k in filter ==> DataValue(w, m, row, k) in filter[k]
  }

  // ------------------------------------------------------------------ laws

  /** A row is shown exactly when every filtered role holds an allowed value. */
  lemma AcceptsIffAdmits(w: World, f: Filtered, row: int)
    requires RowsLive(w, f.source)
    ensures AcceptsRow(w, f, row).accepted <==> Admits(w, f.source, row, f.filter)
  {
    var roles := SortedInts(f.filter.Keys);
    assert forall k :: k in roles <==> k in f.filter;
  }

  /** With no filter every row is shown. */
  lemma EmptyFilterAcceptsAll(w: World, m: ModelId, row: int)
    requires RowsLive(w, m)
    ensures AcceptsRow(w, NewFiltered(m), row).accepted
  {
    AcceptsIffAdmits(w, NewFiltered(m), row);
  }

  /** One role whose value is not allowed hides the row, whatever the other roles hold;
      in particular a role with no allowed values hides every row. */
  lemma OneFailureRejects(w: World, f: Filtered, row: int, k: Key)
    requires RowsLive(w, f.source)
    requires k in f.filter && DataValue(w, f.source, row, k) !in f.filter[k]
    ensures !AcceptsRow(w, f, row).accepted
  {
    AcceptsIffAdmits(w, f, row);
  }

  lemma EmptyAllowListRejects(w: World, f: Filtered, row: int, k: Key)
    requires RowsLive(w, f.source)
    requires k in f.filter && f.filter[k] == []
    ensures !AcceptsRow(w, f, row).accepted
  {
    OneFailureRejects(w, f, row, k);
  }

  /** Filtering on more roles can only hide more rows. */
  lemma MoreRolesShowFewer(w: World, f: Filtered, g: Filtered, row: int)
    requires RowsLive(w, f.source) && g.source == f.source
    requires forall k :: k in f.filter ==> k in g.filter && g.filter[k] == f.filter[k]
    ensures AcceptsRow(w, g, row).accepted ==> AcceptsRow(w, f, row).accepted
  {
    AcceptsIffAdmits(w, f, row);
    AcceptsIffAdmits(w, g, row);
  }

  /** After setFilter the verdict depends on the new filter alone, never on the one it
      replaced. */
  lemma SetFilterForgets(w: World, f: Filtered, g: Filtered, filter: map<Key, seq<Value>>, row: int)
    requires RowsLive(w, f.source) && g.source == f.source
    ensures AcceptsRow(w, SetFilter(f, filter), row).accepted == AcceptsRow(w, SetFilter(g, filter), row).accepted
    ensures AcceptsRow(w, SetFilter(f, filter), row).accepted <==> Admits(w, f.source, row, filter)
  {
    AcceptsIffAdmits(w, SetFilter(f, filter), row);
  }

  /** Values are read through the source's `data`: the MODEL role holds the source
      itself, and the ENTRY role the row's entry (none past the last row). */
  lemma InternalRolesDispatch(w: World, f: Filtered, row: int)
    requires RowsLive(w, f.source)
    ensures AcceptsRow(w, SetFilter(f, map[ModelRole := [ModelRef(f.source)]]), row).accepted
    ensures AcceptsRow(w, SetFilter(f, map[EntryRole := [EntryRef(None)]]), row).accepted <==>
      !(0 <= row < |w.models[f.source].rows|)
  {
    AcceptsIffAdmits(w, SetFilter(f, map[ModelRole := [ModelRef(f.source)]]), row);
    AcceptsIffAdmits(w, SetFilter(f, map[EntryRole := [EntryRef(None)]]), row);
  }
}
