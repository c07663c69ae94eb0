/** ActivityModel: the list of sports activities a friend can be linked to, rebuilt from
    a fixed catalogue of icon files.

    `processActivities` derives a display name from every icon file, keeps one fresh
    entry per name (a later icon replaces an earlier one of the same name), carries over
    the selection of whatever entries the collection held before (typically the ones a
    file load appended), and then replaces the collection's rows with the fresh entries
    in ascending name order.
 */
module Activities {
  import opened KVTypes
  import opened Ordered
  import opened KVEntry
  import opened KVModel
  import opened Variant
  import EntryLaws

  /** The ActivityEntry schema. */
  const NameKey: Key := 0
  const IconResKey: Key := 1
  const SelectedKey: Key := 2
  const Schema: seq<(Key, string)> := [(NameKey, "name"), (IconResKey, "iconRes"), (SelectedKey, "selected")]

  const ActivityType: string := "ActivityEntry"
  const IconDir: string := "icons/activity-icons/"

  /** The icon catalogue, in the order the rebuild walks it. */
  const AllIcons: seq<string> := [
    "aqua-gym.png", "archery.png", "ball-games.png", "ball.png", "baseball.png",
    "basketball-1.png", "basketball.png", "bicycle.png", "boxing-1.png", "boxing.png",
    "canoe-1.png", "canoe.png", "chalice-1.png", "chalice.png", "chronometer.png",
    "equestrian.png", "equiptment.png", "fencing-1.png", "fencing.png", "field.png", "finish.png",
    "flag.png", "football-1.png", "football-2.png", "football.png", "golf.png", "gymnast-1.png",
    "gymnast-2.png", "gymnast-3.png", "gymnast-4.png", "gymnast-5.png", "gymnast.png",
    "gymnastic-1.png", "gymnastic-2.png", "gymnastic-3.png", "gymnastic-4.png", "gymnastic.png",
    "hammer-throw.png", "high-jump.png", "hockey.png", "javelin-throw.png", "karate.png",
    "kayak-1.png", "kayak-2.png", "kayak-3.png", "kayak.png", "lanes.png", "long-jump.png",
    "medal-1.png", "medal-2.png", "medal.png", "olympia.png", "olympic-games-1.png",
    "olympic-games.png", "olympic-torch-1.png", "olympic-torch.png", "paralympic.png",
    "pin-pong-1.png", "pin-pong.png", "podium.png", "pole-vault.png", "shirt.png", "shoot.png",
    "skates.png", "ski-1.png", "ski-2.png", "ski-3.png", "ski-jump.png", "ski.png",
    "snowboard.png", "sprint.png", "stadium.png", "start-gun.png", "swimmer.png", "swimmers.png",
    "target-shooter.png", "target.png", "tennis.png", "track-field.png", "velleyball.png",
    "volleyball.png", "water-polo.png", "water-sport-1.png", "water-sport-2.png",
    "water-sport.png", "water-sports.png", "weightlifter-1.png", "weightlifter.png",
    "weightlifting.png", "whistle.png", "wind-surf.png", "winner-1.png", "winner-2.png",
    "winner.png", "winners.png", "winter-games-1.png", "winter-games.png", "wrestling-1.png",
    "wrestling-2.png", "wrestling.png"
  ]

  // ------------------------------------------------------------------ names

  /** QString::chop: drop the last `n` characters, or everything when there are fewer. */
  function Chop(s: string, n: nat): (r: string)
    ensures |r| == if |s| >= n then |s| - n else 0
    ensures r == s[..|r|]
  {
    s[..if |s| >= n then |s| - n else 0]
  }

  /** The first character upper-cased. */
  function Capitalize(s: string): (r: string)
    ensures |r| == |s|
    ensures s != [] ==> r[0] == UpperAscii(s[0]) && r[1..] == s[1..]
  {
    if s == [] then [] else [UpperAscii(s[0])] + s[1..]
  }

  /** The display name of an icon file: the four-character extension goes, then a
      trailing digit goes together with the character before it, and the first
      character is upper-cased. */
  function Basename(file: string): string {
    var b := Chop(file, 4);
    Capitalize(if b != [] && IsDigit(b[|b| - 1]) then Chop(b, 2) else b)
  }

  // ------------------------------------------------------------------ fresh entries

  /** The values every fresh activity entry is given by one setValues. */
  function Fields(file: string): map<Key, Value> {
    map[SelectedKey := Bool(false), NameKey := Text(Basename(file)), IconResKey := Text(IconDir + file)]
  }

  /** The entry built for one icon file: a new entry given the three fields by one
      setValues (see FreshEntryIsSetValues), which reaches no callback and no owner. */
  function FreshEntry(file: string): (e: Entry)
    ensures e.owner == None && e.base.Keys == {NameKey, IconResKey, SelectedKey}
  {
    NewEntry(ActivityType).(base := Fields(file))
  }

  /** The fresh entry is what setValues makes of a new entry and the three fields. */
  lemma FreshEntryIsSetValues(file: string)
    ensures FreshEntry(file) == SetValues(NewEntry(ActivityType), Fields(file)).entry
  {
    var fields := Fields(file);
    assert fields.Keys == {NameKey, IconResKey, SelectedKey};
    EntryLaws.SetValuesOnNew(ActivityType, fields);
  }

  /** The display names of a catalogue (see NamesOfMembers). */
  function NamesOf(icons: seq<string>): set<string>
    decreases |icons|
  {
    if icons == [] then {} else NamesOf(icons[..|icons| - 1]) + {Basename(icons[|icons| - 1])}
  }

  /** Every icon's display name is a name of the catalogue. */
  lemma {:induction false} NamesOfHas(icons: seq<string>, i: int)
    requires 0 <= i < |icons|
    ensures Basename(icons[i]) in NamesOf(icons)
    decreases |icons|
  {
    var k := |icons| - 1;
    if i < k {
      var init := icons[..k];
      NamesOfHas(init, i);
      assert init[i] == icons[i];
    }
  }

  /** Every name of the catalogue is the display name of one of its icons. */
  lemma {:induction false} NamesOfWitness(icons: seq<string>, n: string) returns (i: int)
    requires n in NamesOf(icons)
    ensures 0 <= i < |icons| && Basename(icons[i]) == n
    decreases |icons|
  {
    var k := |icons| - 1;
    if Basename(icons[k]) == n {
      i := k;
    } else {
      var init := icons[..k];
      i := NamesOfWitness(init, n);
      assert init[i] == icons[i];
    }
  }

  /** A name belongs to a catalogue exactly when some icon of it carries that name. */
  lemma NamesOfMembers(icons: seq<string>, n: string)
    ensures n in NamesOf(icons) <==> exists i {:trigger Basename(icons[i])} :: 0 <= i < |icons| && Basename(icons[i]) == n
  {
    if n in NamesOf(icons) {
      var i := NamesOfWitness(icons, n);
    }
    if exists i {:trigger Basename(icons[i])} :: 0 <= i < |icons| && Basename(icons[i]) == n {
      var i :| 0 <= i < |icons| && Basename(icons[i]) == n;
      NamesOfHas(icons, i);
    }
  }

  /** The temporary map from display name to fresh entry, filled in catalogue order: a
      later icon of the same name replaces the entry of an earlier one. */
  function Catalogue(icons: seq<string>): (r: map<string, Entry>)
    ensures r.Keys == NamesOf(icons)
    decreases |icons|
  {
    if icons == [] then map[]
    else Catalogue(icons[..|icons| - 1])[Basename(icons[|icons| - 1]) := FreshEntry(icons[|icons| - 1])]
  }

  // ------------------------------------------------------------------ selection carry-over

  /** The entry reads as selected and carries the given name (through toBool and
      toString, as the rebuild reads them). */
  predicate SelectedAs(qt: Conversions, e: Entry, name: string) {
    ToBool(qt, GetValue(e, SelectedKey)) && ToText(qt, GetValue(e, NameKey)) == name
  }

  /** Some earlier entry was selected under this name. */
  predicate WasSelected(qt: Conversions, olds: seq<Entry>, name: string) {
    exists j :: 0 <= j < |olds| && SelectedAs(qt, olds[j], name)
  }

  function Mark(x: Entry): Entry {
    SetValue(x, SelectedKey, Bool(true)).entry
  }

  /** Marking selects the entry and leaves its owner and its other base keys alone. */
  lemma MarkReads(x: Entry)
    ensures Mark(x).owner == x.owner
    ensures GetValue(Mark(x), SelectedKey) == Bool(true)
    ensures forall k :: 0 <= k < ShadowedKeysStartAt && k != SelectedKey ==> GetValue(Mark(x), k) == GetValue(x, k)
  {
    EntryLaws.SetValueReadBack(x, SelectedKey, Bool(true));
  }

  /** The merge loop: a selected earlier entry whose name is in the map marks the fresh
      entry of that name as selected; every other earlier entry has no effect. */
  function MarkSelected(qt: Conversions, tmp: map<string, Entry>, olds: seq<Entry>): (r: map<string, Entry>)
    ensures r.Keys == tmp.Keys
    ensures forall n, k :: n in tmp && 0 <= k < ShadowedKeysStartAt ==>
      GetValue(r[n], k) == if k == SelectedKey && WasSelected(qt, olds, n) then Bool(true) else GetValue(tmp[n], k)
    ensures forall n :: n in tmp ==> r[n].owner == tmp[n].owner
    decreases |olds|
  {
    if olds == [] then tmp
    else
      var e := olds[0];
      var name := ToText(qt, GetValue(e, NameKey));
      var tmp1 :=
        if ToBool(qt, GetValue(e, SelectedKey)) && name in tmp then
          MarkReads(tmp[name]);
          tmp[name := Mark(tmp[name])]
        else tmp;
      var r := MarkSelected(qt, tmp1, olds[1..]);
      assert forall n :: WasSelected(qt, olds, n) <==> SelectedAs(qt, e, n) || WasSelected(qt, olds[1..], n) by {
        forall n
          ensures WasSelected(qt, olds, n) ==> SelectedAs(qt, e, n) || WasSelected(qt, olds[1..], n)
        {
          if WasSelected(qt, olds, n) {
            var j :| 0 <= j < |olds| && SelectedAs(qt, olds[j], n);
            if j > 0 {
              assert olds[1..][j - 1] == olds[j];
            }
          }
        }
        forall n
          ensures WasSelected(qt, olds[1..], n) ==> WasSelected(qt, olds, n)
        {
          if WasSelected(qt, olds[1..], n) {
            var j :| 0 <= j < |olds[1..]| && SelectedAs(qt, olds[1..][j], n);
            assert olds[j + 1] == olds[1..][j];
          }
        }
        assert SelectedAs(qt, e, name) == ToBool(qt, GetValue(e, SelectedKey));
      }
      r
  }

  // ------------------------------------------------------------------ the rebuild

  /** Install the named entries under consecutive fresh identities, owned by `m`. */
  function Install(entries: map<EntryId, Entry>, base: nat, names: seq<string>, marked: map<string, Entry>,
                   m: ModelId): (r: map<EntryId, Entry>)
    requires forall n :: n in names ==> n in marked
    ensures forall id :: id in r <==> id in entries || base <= id < base + |names|
    ensures forall i :: 0 <= i < |names| ==> r[base + i] == marked[names[i]].(owner := Some(m))
    ensures forall id :: id in entries && !(base <= id < base + |names|) ==> r[id] == entries[id]
    decreases |names|
  {
    if names == [] then entries
    else
      var r := Install(entries[base := marked[names[0]].(owner := Some(m))], base + 1, names[1..], marked, m);
      assert forall i :: 1 <= i < |names| ==> names[i] == names[1..][i - 1];
      r
  }

  /** The entries the collection held before the rebuild, in row order. */
  function OldEntries(w: World, m: ModelId): (olds: seq<Entry>)
    requires RowsLive(w, m)
    ensures |olds| == |w.models[m].rows|
    ensures forall i :: 0 <= i < |olds| ==> olds[i] == w.entries[w.models[m].rows[i]]
  {
    var rows := w.models[m].rows;
    seq(|rows|, i requires 0 <= i < |rows| => w.entries[rows[i]])
  }

  /** The entries that survive destroying the collection's rows. */
  function Survivors(w: World, m: ModelId): (r: map<EntryId, Entry>)
    requires m in w.models
    ensures forall e :: e in r <==> e in w.entries && e !in w.models[m].rows
    ensures forall e :: e in r ==> r[e] == w.entries[e]
  {
    w.entries - (set e | e in w.models[m].rows)
  }

  /** The fresh entries after the selection carry-over, by name. */
  function Marked(qt: Conversions, w: World, m: ModelId, icons: seq<string>): (r: map<string, Entry>)
    requires RowsLive(w, m)
    ensures r.Keys == Catalogue(icons).Keys
  {
    MarkSelected(qt, Catalogue(icons), OldEntries(w, m))
  }

  /** processActivities against the given catalogue: the old rows are destroyed and the
      collection is reset to one fresh entry per name, in ascending name order, under
      identities handed out from the world's counter. */
  function ProcessWith(qt: Conversions, w: World, m: ModelId, icons: seq<string>): (r: Step)
    requires RowsLive(w, m)
  {
    var c := w.models[m];
    var marked := Marked(qt, w, m, icons);
    var names := SortedStrings(marked.Keys);
    var rows := seq(|names|, i requires 0 <= i < |names| => w.nextId + i);
    Step(World(Install(Survivors(w, m), w.nextId, names, marked, m), w.models[m := c.(rows := rows)], w.nextId + |names|),
         [ModelReset(m)])
  }

  function ProcessActivities(qt: Conversions, w: World, m: ModelId): Step
    requires RowsLive(w, m)
  {
    ProcessWith(qt, w, m, AllIcons)
  }
}
