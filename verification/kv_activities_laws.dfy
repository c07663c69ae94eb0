/** What processActivities guarantees: the naming rule, which icon a name keeps, the
    shape of the rebuilt collection, the values of every row, and that a second rebuild
    shows exactly what the first one showed.
 */
module ActivityLaws {
  import opened KVTypes
  import opened Ordered
  import opened KVEntry
  import opened KVModel
  import opened Variant
  import EntryLaws
  import opened Activities

  // ------------------------------------------------------------------ names

  /** The naming rule on catalogue files: the extension goes, a numbered variant loses
      its number and the dash before it, and the first letter is upper-cased. */
  lemma BasenameExamples()
    ensures Basename("basketball-1.png") == "Basketball"
    ensures Basename("basketball.png") == "Basketball"
    ensures Basename("pin-pong-1.png") == "Pin-pong"
    ensures Basename("ski-jump.png") == "Ski-jump"
  {
    assert Chop("basketball-1.png", 4) == "basketball-1";
    assert Chop("basketball-1", 2) == "basketball";
    assert Chop("basketball.png", 4) == "basketball";
    assert Chop("pin-pong-1.png", 4) == "pin-pong-1";
    assert Chop("pin-pong-1", 2) == "pin-pong";
    assert Chop("ski-jump.png", 4) == "ski-jump";
  }

  /** The rule assumes a one-digit number: with two digits, both digits go and the dash
      stays. */
  lemma TwoDigitNumberKeepsTheDash()
    ensures Basename("ski-12.png") == "Ski-"
  {
    assert Chop("ski-12.png", 4) == "ski-12";
    assert Chop("ski-12", 2) == "ski-";
  }

  // ------------------------------------------------------------------ fresh entries

  /** What a fresh entry reads under each of its roles. */
  lemma FreshEntryReads(file: string)
    ensures GetValue(FreshEntry(file), NameKey) == Text(Basename(file))
    ensures GetValue(FreshEntry(file), IconResKey) == Text(IconDir + file)
    ensures GetValue(FreshEntry(file), SelectedKey) == Bool(false)
  {
  }

  // ------------------------------------------------------------------ the catalogue

  /** `j` is the last position of the catalogue whose icon has display name `n`. */
  predicate LastNamed(icons: seq<string>, j: int, n: string) {
    0 <= j < |icons| && Basename(icons[j]) == n &&
    forall i {:trigger Basename(icons[i])} :: j < i < |icons| ==> Basename(icons[i]) != n
  }

  /** The last position of the catalogue whose icon has display name `n`. */
  function LastIndex(icons: seq<string>, n: string): (j: int)
    requires n in NamesOf(icons)
    ensures LastNamed(icons, j, n)
    decreases |icons|
  {
    var k := |icons| - 1;
    if Basename(icons[k]) == n then k
    else
      var j := LastIndex(icons[..k], n);
      LastNamedExtend(icons, j, n);
      j
  }

  /** A last position in all but the final icon stays the last one when the final icon
      carries another name. */
  lemma LastNamedExtend(icons: seq<string>, j: int, n: string)
    requires icons != [] && LastNamed(icons[..|icons| - 1], j, n)
    requires Basename(icons[|icons| - 1]) != n
    ensures LastNamed(icons, j, n)
  {
    var k := |icons| - 1;
    var init := icons[..k];
    forall t | j < t < |icons|
      ensures Basename(icons[t]) != n
    {
      if t < k {
        assert init[t] == icons[t];
      }
    }
  }

  /** The entry a name keeps is the one built from the last icon of that name: a later
      icon of the same name replaces an earlier one. */
  lemma {:induction false} CatalogueLast(icons: seq<string>, j: int, n: string)
    requires LastNamed(icons, j, n)
    ensures n in Catalogue(icons) && Catalogue(icons)[n] == FreshEntry(icons[j])
    decreases |icons|
  {
    var k := |icons| - 1;
    if j < k {
      var init := icons[..k];
      assert init[j] == icons[j];
      LastNamedInit(icons, j, n);
      CatalogueLast(init, j, n);
      CatalogueKeeps(icons, n);
    } else {
      CatalogueTakesLast(icons);
    }
  }

  /** The last icon's entry is the one its name keeps. */
  lemma CatalogueTakesLast(icons: seq<string>)
    requires icons != []
    ensures Basename(icons[|icons| - 1]) in Catalogue(icons)
    ensures Catalogue(icons)[Basename(icons[|icons| - 1])] == FreshEntry(icons[|icons| - 1])
  {
  }

  /** A name other than the last icon's keeps the entry it had before that icon. */
  lemma CatalogueKeeps(icons: seq<string>, n: string)
    requires icons != [] && Basename(icons[|icons| - 1]) != n
    requires n in Catalogue(icons[..|icons| - 1])
    ensures n in Catalogue(icons) && Catalogue(icons)[n] == Catalogue(icons[..|icons| - 1])[n]
  {
    var k := |icons| - 1;
    CatalogueUnfold(icons);
    UpdateKeeps(Catalogue(icons[..k]), Basename(icons[k]), FreshEntry(icons[k]), n);
  }

  /** One step of the catalogue: the last icon's entry put over the earlier ones. */
  lemma CatalogueUnfold(icons: seq<string>)
    requires icons != []
    ensures Catalogue(icons) ==
      Catalogue(icons[..|icons| - 1])[Basename(icons[|icons| - 1]) := FreshEntry(icons[|icons| - 1])]
  {
  }

  lemma UpdateKeeps(m: map<string, Entry>, a: string, v: Entry, n: string)
    requires a != n && n in m
    ensures n in m[a := v] && m[a := v][n] == m[n]
  {
  }

  /** A last position before the end is still the last one once the end is dropped. */
  lemma LastNamedInit(icons: seq<string>, j: int, n: string)
    requires LastNamed(icons, j, n) && j < |icons| - 1
    ensures LastNamed(icons[..|icons| - 1], j, n)
    ensures Basename(icons[|icons| - 1]) != n
  {
    var init := icons[..|icons| - 1];
    assert forall i :: j <= i < |init| ==> init[i] == icons[i];
  }

  /** Of the two basketball icons the plain one comes later, so it is the one shown. */
  lemma LaterIconWins()
    ensures "Basketball" in Catalogue(["basketball-1.png", "basketball.png"])
    ensures Catalogue(["basketball-1.png", "basketball.png"])["Basketball"] == FreshEntry("basketball.png")
    ensures |Catalogue(["basketball-1.png", "basketball.png"])| == 1
  {
    var icons := ["basketball-1.png", "basketball.png"];
    BasenameExamples();
    assert LastNamed(icons, 1, "Basketball");
    CatalogueLast(icons, 1, "Basketball");
    assert NamesOf(icons) == {"Basketball"};
  }

  // ------------------------------------------------------------------ the rebuild

  /** The rebuilt collection: one row per display name under consecutive fresh
      identities, the old rows destroyed, every other object untouched, and one reset
      announced. */
  lemma ProcessShape(qt: Conversions, w: World, m: ModelId, icons: seq<string>, r: Step)
    requires RowsLive(w, m) && r == ProcessWith(qt, w, m, icons)
    ensures r.notices == [ModelReset(m)]
    ensures r.world.nextId == w.nextId + |NamesOf(icons)|
    ensures m in r.world.models && |r.world.models[m].rows| == |NamesOf(icons)|
    ensures forall i :: 0 <= i < |r.world.models[m].rows| ==> r.world.models[m].rows[i] == w.nextId + i
    ensures r.world.models == w.models[m := w.models[m].(rows := r.world.models[m].rows)]
    ensures forall e :: e in w.models[m].rows && e < w.nextId ==> e !in r.world.entries
    ensures forall e :: e in w.entries && e !in w.models[m].rows && e < w.nextId ==>
      e in r.world.entries && r.world.entries[e] == w.entries[e]
    ensures forall e :: e in r.world.entries ==>
      (e in w.entries && e !in w.models[m].rows) || w.nextId <= e < r.world.nextId
  {
    var marked := Marked(qt, w, m, icons);
    assert |SortedStrings(marked.Keys)| == |NamesOf(icons)|;
  }

  /** The rebuilt rows are the fresh identities, one per name. */
  lemma ProcessRowIds(qt: Conversions, w: World, m: ModelId, icons: seq<string>, r: Step, names: seq<string>)
    requires RowsLive(w, m) && r == ProcessWith(qt, w, m, icons)
    requires names == SortedStrings(NamesOf(icons))
    ensures m in r.world.models && |r.world.models[m].rows| == |names|
    ensures forall i :: 0 <= i < |names| ==> r.world.models[m].rows[i] == w.nextId + i
  {
    assert Marked(qt, w, m, icons).Keys == NamesOf(icons);
  }

  /** The rebuilt entries: the old rows removed and the marked entries installed in
      ascending name order. */
  lemma ProcessEntries(qt: Conversions, w: World, m: ModelId, icons: seq<string>, r: Step)
    requires RowsLive(w, m) && r == ProcessWith(qt, w, m, icons)
    ensures r.world.entries == Install(Survivors(w, m), w.nextId,
                                       SortedStrings(NamesOf(icons)), Marked(qt, w, m, icons), m)
  {
    assert Marked(qt, w, m, icons).Keys == NamesOf(icons);
  }

  /** Reads do not look at the owner. */
  lemma OwnerNotRead(e: Entry, owner: Option<ModelId>)
    ensures forall k :: GetValue(e.(owner := owner), k) == GetValue(e, k)
  {
  }

  /** After the selection carry-over, a name reads its own name, the icon of the last
      icon file of that name, and the selection of the earlier entries. */
  lemma MarkedReads(qt: Conversions, w: World, m: ModelId, icons: seq<string>, j: int, n: string)
    requires RowsLive(w, m) && LastNamed(icons, j, n)
    ensures n in Marked(qt, w, m, icons)
    ensures GetValue(Marked(qt, w, m, icons)[n], NameKey) == Text(n)
    ensures GetValue(Marked(qt, w, m, icons)[n], IconResKey) == Text(IconDir + icons[j])
    ensures GetValue(Marked(qt, w, m, icons)[n], SelectedKey) == Bool(WasSelected(qt, OldEntries(w, m), n))
  {
    CatalogueLast(icons, j, n);
    FreshEntryReads(icons[j]);
  }

  /** The entry is owned by the collection and shows the given name, icon and
      selection. */
  predicate Shows(x: Entry, m: ModelId, name: string, icon: string, selected: bool) {
    && x.owner == Some(m)
    && GetValue(x, NameKey) == Text(name)
    && GetValue(x, IconResKey) == Text(icon)
    && GetValue(x, SelectedKey) == Bool(selected)
  }

  /** The icon resource a name shows: the one of the last icon file of that name. */
  function IconOf(icons: seq<string>, n: string): (path: string)
    requires n in NamesOf(icons)
    ensures exists j :: LastNamed(icons, j, n) && path == IconDir + icons[j]
  {
    IconDir + icons[LastIndex(icons, n)]
  }

  /** What a rebuilt row shows under a name: its icon, and the selection the earlier
      entries carried under that name. */
  predicate RowShows(qt: Conversions, w: World, m: ModelId, icons: seq<string>, x: Entry, n: string)
    requires RowsLive(w, m) && n in NamesOf(icons)
  {
    Shows(x, m, n, IconOf(icons, n), WasSelected(qt, OldEntries(w, m), n))
  }

  /** An installed entry is owned by the collection and reads what the marked entry of
      its name reads. */
  lemma InstalledReads(entries: map<EntryId, Entry>, kept: map<EntryId, Entry>, base: nat, names: seq<string>,
                       marked: map<string, Entry>, m: ModelId, i: int)
    requires forall n :: n in names ==> n in marked
    requires 0 <= i < |names| && entries == Install(kept, base, names, marked, m)
    ensures base + i in entries && entries[base + i].owner == Some(m)
    ensures forall k :: GetValue(entries[base + i], k) == GetValue(marked[names[i]], k)
  {
    OwnerNotRead(marked[names[i]], Some(m));
  }

  /** Installing the marked entries in ascending name order, over whatever entries are
      kept, puts at offset `i` an entry that shows the `i`-th name. */
  lemma RowFromInstall(qt: Conversions, w: World, m: ModelId, icons: seq<string>, entries: map<EntryId, Entry>,
                       kept: map<EntryId, Entry>, names: seq<string>, i: int)
    requires RowsLive(w, m) && names == SortedStrings(NamesOf(icons)) && 0 <= i < |names|
    requires forall n :: n in names ==> n in Marked(qt, w, m, icons)
    requires entries == Install(kept, w.nextId, names, Marked(qt, w, m, icons), m)
    ensures w.nextId + i in entries && RowShows(qt, w, m, icons, entries[w.nextId + i], names[i])
  {
    InstalledReads(entries, kept, w.nextId, names, Marked(qt, w, m, icons), m, i);
    MarkedReads(qt, w, m, icons, LastIndex(icons, names[i]), names[i]);
  }

  /** Row `i` of the rebuilt collection shows the `i`-th display name in ascending
      order. */
  lemma ProcessRowReads(qt: Conversions, w: World, m: ModelId, icons: seq<string>, r: Step,
                        names: seq<string>, i: int)
    requires RowsLive(w, m) && r == ProcessWith(qt, w, m, icons)
    requires names == SortedStrings(NamesOf(icons)) && 0 <= i < |names|
    ensures w.nextId + i in r.world.entries && RowShows(qt, w, m, icons, r.world.entries[w.nextId + i], names[i])
  {
    ProcessEntries(qt, w, m, icons, r);
    RowFromInstall(qt, w, m, icons, r.world.entries, Survivors(w, m), names, i);
  }

  // ------------------------------------------------------------------ the rebuilt rows

  /** The collection's rows are the consecutive identities from `base`, all live, and
      row `i` shows `names[i]` with icon `paths[i]` and selection `sel[i]`. */
  ghost predicate RowsShow(w1: World, m: ModelId, base: nat, names: seq<string>, paths: seq<string>, sel: seq<bool>) {
    && m in w1.models && |w1.models[m].rows| == |names| == |paths| == |sel|
    && forall i :: 0 <= i < |names| ==>
         && w1.models[m].rows[i] == base + i && base + i in w1.entries
         && Shows(w1.entries[base + i], m, names[i], paths[i], sel[i])
  }

  /** The icon each name shows, in order. */
  function Paths(icons: seq<string>, names: seq<string>): (p: seq<string>)
    requires forall n :: n in names ==> n in NamesOf(icons)
    ensures |p| == |names|
    ensures forall i :: 0 <= i < |names| ==> p[i] == IconOf(icons, names[i])
  {
    seq(|names|, i requires 0 <= i < |names| => IconOf(icons, names[i]))
  }

  /** The selection each name carries over from the earlier entries, in order. */
  function Selections(qt: Conversions, olds: seq<Entry>, names: seq<string>): (sel: seq<bool>)
    ensures |sel| == |names|
    ensures forall i :: 0 <= i < |names| ==> sel[i] == WasSelected(qt, olds, names[i])
  {
    seq(|names|, i requires 0 <= i < |names| => WasSelected(qt, olds, names[i]))
  }

  /** Every rebuilt row shows its name, its icon and its carried-over selection. */
  lemma ProcessRowsShow(qt: Conversions, w: World, m: ModelId, icons: seq<string>, r: Step, names: seq<string>)
    requires RowsLive(w, m) && r == ProcessWith(qt, w, m, icons)
    requires names == SortedStrings(NamesOf(icons))
    ensures forall i :: 0 <= i < |names| ==>
      && w.nextId + i in r.world.entries
      && Shows(r.world.entries[w.nextId + i], m, names[i], Paths(icons, names)[i], Selections(qt, OldEntries(w, m), names)[i])
  {
    forall i | 0 <= i < |names|
      ensures w.nextId + i in r.world.entries
      ensures Shows(r.world.entries[w.nextId + i], m, names[i], Paths(icons, names)[i],
                    Selections(qt, OldEntries(w, m), names)[i])
    {
      ProcessRowReads(qt, w, m, icons, r, names, i);
    }
  }

  /** processActivities leaves one row per display name, in ascending name order, each
      showing its name, the icon of the last icon file of that name and the selection
      carried over from the earlier rows. */
  lemma ProcessRebuilt(qt: Conversions, w: World, m: ModelId, icons: seq<string>, r: Step, names: seq<string>)
    requires RowsLive(w, m) && r == ProcessWith(qt, w, m, icons)
    requires names == SortedStrings(NamesOf(icons))
    ensures RowsShow(r.world, m, w.nextId, names, Paths(icons, names), Selections(qt, OldEntries(w, m), names))
  {
    ProcessRowIds(qt, w, m, icons, r, names);
    ProcessRowsShow(qt, w, m, icons, r, names);
  }

  /** Rows described this way are live. */
  lemma RowsShowLive(w1: World, m: ModelId, base: nat, names: seq<string>, paths: seq<string>, sel: seq<bool>)
    requires RowsShow(w1, m, base, names, paths, sel)
    ensures RowsLive(w1, m)
  {
    forall e | e in w1.models[m].rows
      ensures e in w1.entries
    {
      var i :| 0 <= i < |w1.models[m].rows| && w1.models[m].rows[i] == e;
    }
  }

  /** Rows described this way are live and listed by their owner. */
  lemma RowsShowOwned(w1: World, m: ModelId, base: nat, names: seq<string>, paths: seq<string>, sel: seq<bool>)
    requires RowsShow(w1, m, base, names, paths, sel)
    ensures RowsLive(w1, m)
    ensures forall e :: e in w1.models[m].rows ==> OwnerLists(w1, e)
  {
    forall e | e in w1.models[m].rows
      ensures e in w1.entries && OwnerLists(w1, e)
    {
      var i :| 0 <= i < |w1.models[m].rows| && w1.models[m].rows[i] == e;
    }
  }

  /** Every rebuilt row is a live entry whose owner lists it. */
  lemma ProcessOwned(qt: Conversions, w: World, m: ModelId, icons: seq<string>, r: Step)
    requires RowsLive(w, m) && r == ProcessWith(qt, w, m, icons)
    ensures RowsLive(r.world, m)
    ensures forall e :: e in r.world.models[m].rows ==> OwnerLists(r.world, e)
  {
    var names := SortedStrings(NamesOf(icons));
    ProcessRebuilt(qt, w, m, icons, r, names);
    RowsShowOwned(r.world, m, w.nextId, names, Paths(icons, names), Selections(qt, OldEntries(w, m), names));
  }

  /** Rows described by ascending names read their names in ascending order. */
  lemma RowsShowOrdered(qt: Conversions, w1: World, m: ModelId, base: nat, names: seq<string>, paths: seq<string>,
                        sel: seq<bool>, i: int, j: int)
    requires RowsShow(w1, m, base, names, paths, sel) && StrictlyAscending(names)
    requires 0 <= i < j < |w1.models[m].rows|
    ensures w1.models[m].rows[i] in w1.entries && w1.models[m].rows[j] in w1.entries
    ensures StrLess(ToText(qt, GetValue(w1.entries[w1.models[m].rows[i]], NameKey)),
                    ToText(qt, GetValue(w1.entries[w1.models[m].rows[j]], NameKey)))
  {
    assert StrLess(names[i], names[j]);
  }

  /** The rows come in ascending name order, each name once. */
  lemma ProcessOrdered(qt: Conversions, w: World, m: ModelId, icons: seq<string>, r: Step, i: int, j: int)
    requires RowsLive(w, m) && r == ProcessWith(qt, w, m, icons)
    requires 0 <= i < j < |r.world.models[m].rows|
    ensures r.world.models[m].rows[i] in r.world.entries && r.world.models[m].rows[j] in r.world.entries
    ensures StrLess(ToText(qt, GetValue(r.world.entries[r.world.models[m].rows[i]], NameKey)),
                    ToText(qt, GetValue(r.world.entries[r.world.models[m].rows[j]], NameKey)))
  {
    var names := SortedStrings(NamesOf(icons));
    ProcessRebuilt(qt, w, m, icons, r, names);
    RowsShowOrdered(qt, r.world, m, w.nextId, names, Paths(icons, names), Selections(qt, OldEntries(w, m), names), i, j);
  }

  // ------------------------------------------------------------------ a second rebuild

  /** What the list shows for one entry: its name, its icon and its selection. */
  function View(x: Entry): (Value, Value, Value) {
    (GetValue(x, NameKey), GetValue(x, IconResKey), GetValue(x, SelectedKey))
  }

  /** What the list shows, row by row. */
  function RowView(w: World, m: ModelId): (v: seq<(Value, Value, Value)>)
    requires RowsLive(w, m)
    ensures |v| == |w.models[m].rows|
    ensures forall i :: 0 <= i < |v| ==> v[i] == View(w.entries[w.models[m].rows[i]])
  {
    var rows := w.models[m].rows;
    seq(|rows|, i requires 0 <= i < |rows| => View(w.entries[rows[i]]))
  }

  /** Entries that show the same name, icon and selection look alike in the list. */
  lemma ShowsSameView(x: Entry, y: Entry, m: ModelId, name: string, icon: string, selected: bool)
    requires Shows(x, m, name, icon, selected) && Shows(y, m, name, icon, selected)
    ensures View(x) == View(y)
  {
  }

  /** Rows under distinct names read back, as earlier entries, exactly the selection
      they show. */
  lemma RowsShowSelection(qt: Conversions, w1: World, m: ModelId, base: nat, names: seq<string>, paths: seq<string>,
                          sel: seq<bool>, i: int)
    requires RowsShow(w1, m, base, names, paths, sel) && StrictlyAscending(names)
    requires 0 <= i < |names|
    ensures RowsLive(w1, m)
    ensures WasSelected(qt, OldEntries(w1, m), names[i]) == sel[i]
  {
    RowsShowOwned(w1, m, base, names, paths, sel);
    var olds := OldEntries(w1, m);
    forall t | 0 <= t < |olds|
      ensures SelectedAs(qt, olds[t], names[i]) <==> t == i && sel[i]
    {
      if t != i {
        if t < i { assert StrLess(names[t], names[i]); } else { assert StrLess(names[i], names[t]); }
        StrLessIrreflexive(names[i]);
      }
    }
    if sel[i] {
      assert SelectedAs(qt, olds[i], names[i]);
    }
  }

  /** Rows under distinct names carry over, name by name, exactly the selection they
      show. */
  lemma SelectionsStable(qt: Conversions, w1: World, m: ModelId, base: nat, names: seq<string>, paths: seq<string>,
                         sel: seq<bool>)
    requires RowsShow(w1, m, base, names, paths, sel) && StrictlyAscending(names)
    ensures RowsLive(w1, m)
    ensures Selections(qt, OldEntries(w1, m), names) == sel
  {
    RowsShowLive(w1, m, base, names, paths, sel);
    var sel1 := Selections(qt, OldEntries(w1, m), names);
    forall i | 0 <= i < |names|
      ensures sel1[i] == sel[i]
    {
      RowsShowSelection(qt, w1, m, base, names, paths, sel, i);
    }
  }

  /** The selection the first rebuild wrote is the selection the second one reads. */
  lemma SelectionCarriesOver(qt: Conversions, w: World, m: ModelId, icons: seq<string>, r: Step, n: string)
    requires RowsLive(w, m) && r == ProcessWith(qt, w, m, icons)
    requires n in NamesOf(icons)
    ensures RowsLive(r.world, m)
    ensures WasSelected(qt, OldEntries(r.world, m), n) == WasSelected(qt, OldEntries(w, m), n)
  {
    var names := SortedStrings(NamesOf(icons));
    ProcessRebuilt(qt, w, m, icons, r, names);
    var i :| 0 <= i < |names| && names[i] == n;
    RowsShowSelection(qt, r.world, m, w.nextId, names, Paths(icons, names), Selections(qt, OldEntries(w, m), names), i);
  }

  /** Two collections described alike show the same rows. */
  lemma RowsShowSameView(w1: World, w2: World, m: ModelId, b1: nat, b2: nat, names: seq<string>, paths: seq<string>,
                         sel: seq<bool>)
    requires RowsShow(w1, m, b1, names, paths, sel) && RowsShow(w2, m, b2, names, paths, sel)
    ensures RowsLive(w1, m) && RowsLive(w2, m)
    ensures RowView(w2, m) == RowView(w1, m)
  {
    RowsShowLive(w1, m, b1, names, paths, sel);
    RowsShowLive(w2, m, b2, names, paths, sel);
    forall i | 0 <= i < |names|
      ensures RowView(w2, m)[i] == RowView(w1, m)[i]
    {
      assert w1.models[m].rows[i] == b1 + i && w2.models[m].rows[i] == b2 + i;
      ShowsSameView(w1.entries[b1 + i], w2.entries[b2 + i], m, names[i], paths[i], sel[i]);
      assert RowView(w1, m)[i] == View(w1.entries[b1 + i]);
      assert RowView(w2, m)[i] == View(w2.entries[b2 + i]);
    }
    assert |RowView(w2, m)| == |names| == |RowView(w1, m)|;
  }

  /** Rebuilding twice shows the same rows as rebuilding once: same names, same icons,
      same selection. */
  lemma ProcessTwiceSameView(qt: Conversions, w: World, m: ModelId, icons: seq<string>, r1: Step, r2: Step)
    requires RowsLive(w, m) && r1 == ProcessWith(qt, w, m, icons)
    requires RowsLive(r1.world, m) && r2 == ProcessWith(qt, r1.world, m, icons)
    ensures RowsLive(r2.world, m)
    ensures RowView(r2.world, m) == RowView(r1.world, m)
  {
    var names := SortedStrings(NamesOf(icons));
    var paths := Paths(icons, names);
    var sel := Selections(qt, OldEntries(w, m), names);
    ProcessRebuilt(qt, w, m, icons, r1, names);
    ProcessRebuilt(qt, r1.world, m, icons, r2, names);
    SelectionsStable(qt, r1.world, m, w.nextId, names, paths, sel);
    RowsShowSameView(r1.world, r2.world, m, w.nextId, r1.world.nextId, names, paths, sel);
  }
}
