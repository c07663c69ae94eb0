/** FriendsEntry: the application's entry type, one friend of the user.

    On construction it stores its defaults and a fresh uid, registers three change
    handlers (display name, logo fallback, last-seen text), computes the last-seen text
    once, and attaches two child collections: every activity, and a proxy showing the
    selected ones. Its commit hook replaces a newly chosen logo file by a copy named
    after the friend's uid before the base commit runs.

    The clock, the uuid source, the local data directory and the locale's day and month
    names are parameters; image and file work, the timer object and the closures
    themselves are not executed (a handler is its handle id, a timer is the request
    made to it).
 */
module Friends {
  import opened KVTypes
  import opened Ordered
  import opened KVEntry
  import opened KVModel
  import opened KVRegistry
  import opened Variant
  import opened Versions
  import opened Filtering
  import Activities

  /** The FriendsEntry keys. */
  const FirstName: Key := 0
  const Surname: Key := 1
  const DisplayName: Key := 2
  const Email: Key := 3
  const PhoneNumber: Key := 4
  const Address: Key := 5
  const DisplayLastSeen: Key := 6
  const LastSeen: Key := 7
  const Uid: Key := 8
  const ActivitiesAll: Key := 9
  const ActivitiesSelected: Key := 10
  const LogoUrl: Key := 11
  const NewlyCreated: Key := 12

  const FriendType: string := "FriendsEntry"
  const ActivityModelType: string := "ActivityModel"
  const DefaultLogo: Value := Url("qrc:///qml/icons/default_user.png")
  /** The text of the null QUuid without braces. */

  /** The handles init registers, in order, on a fresh entry. */
  const NameHandle: Handle := 0
  const LogoHandle: Handle := 1
  const LastSeenHandle: Handle := 2

  // ------------------------------------------------------------------ display name

  /** The display name from first name and surname: the placeholder when both are empty,
      the one that is given when only one is, and otherwise the first name followed by
      a space and the surname's initial. */
  function DisplayNameOf(first: string, sur: string): (name: string)
    ensures name != []
    ensures first != [] ==> |first| <= |name| && name[..|first|] == first
    ensures first == [] && sur != [] ==> name == sur
  {
    if first == [] && sur == [] then "unkown"
    else if first == [] then sur
    else if sur == [] then first
    else first + [' ', sur[0]]
  }

  /** The display-name handler: both names are read through the non-const getValue (an
      absent name gets an Invalid slot), and the result is written to displayName. */
  function NameRefresh(qt: Conversions, e: Entry): (c: Change)
    ensures c.entry.owner == e.owner && c.entry.callbacks == e.callbacks
  {
    var r1 := GetValueMut(e, FirstName);
    var r2 := GetValueMut(r1.entry, Surname);
    SetValue(r2.entry, DisplayName, Text(DisplayNameOf(ToText(qt, r1.value), ToText(qt, r2.value))))
  }

  // ------------------------------------------------------------------ last seen

  const Minute: int := 60
  const Hour: int := 60 * 60
  const Day: int := 60 * 60 * 24
  const Week: int := 60 * 60 * 24 * 7
  const Year: int := 60 * 60 * 24 * 365

  /** What the last-seen text says. Weekday and month texts are the names of the day
      and month of the stored date `at`. */
  datatype Seen =
    | Never
    | Now
    | MinutesAgo(minutes: int)
    | HoursAgo(hours: int)
    | OnWeekday(at: int)
    | InMonth(at: int)
    | YearsAgo(years: int)

  /** The bucket of the stored date `d` (none when invalid) at time `now`, by the
      seconds elapsed since it. */
  function Classify(d: Option<int>, now: int): (s: Seen)
    ensures s == Never <==> d.None?
    ensures s.MinutesAgo? ==> 1 <= s.minutes < 60
    ensures s.HoursAgo? ==> 1 <= s.hours < 24
    ensures s.YearsAgo? ==> s.years >= 1
    ensures (s.OnWeekday? || s.InMonth?) ==> d == Some(s.at)
  {
    match d
    case None => Never
    case Some(t) =>
      var secs := now - t;
      if secs < Minute then Now
      else if secs < Hour then MinutesAgo(secs / Minute)
      else if secs < Day then HoursAgo(secs / Hour)
      else if secs < Week then OnWeekday(t)
      else if secs < Year then InMonth(t)
      else YearsAgo(secs / Year)
  }

  /** Seconds until the text should next be recomputed: the threshold that ends the
      current bucket minus the elapsed seconds (the year threshold for the last bucket,
      which makes it zero or negative), and -1 for an invalid date. */
  function RefreshDelay(d: Option<int>, now: int): (delay: int)
    ensures d.None? ==> delay == -1
    ensures d.Some? && now - d.value < Year ==> delay > 0
    ensures d.Some? && now - d.value >= Year ==> delay == Year - (now - d.value) <= 0
  {
    match d
    case None => -1
    case Some(t) =>
      var secs := now - t;
      if secs < Minute then Minute - secs
      else if secs < Hour then Hour - secs
      else if secs < Day then Day - secs
      else if secs < Week then Week - secs
      else Year - secs
  }

  /** The locale's full day and month names of a date. */
  datatype Calendar = Calendar(weekday: int -> string, month: int -> string)

  function SeenText(cal: Calendar, s: Seen): string {
    match s
    case Never => "never"
    case Now => "now"
    case MinutesAgo(n) => IntText(n) + " minutes ago"
    case HoursAgo(n) => IntText(n) + " hours ago"
    case OnWeekday(t) => cal.weekday(t)
    case InMonth(t) => cal.month(t)
    case YearsAgo(n) => IntText(n) + " years"
  }

  /** What the single-shot refresh timer is told: stop(), or start(ms) with the int
      interval it receives. */
  datatype Timer = Stopped | Started(ms: int)

  const TwoTo32: int := 0x1_0000_0000
  const IntMin: int := -0x8000_0000

  /** The C++ int a 64-bit integer is narrowed to: two's complement wrap-around. */
  function Int32Of(n: int): (r: int)
    ensures IntMin <= r <= IntMax
    ensures (n - r) % TwoTo32 == 0
    ensures IntMin <= n <= IntMax ==> r == n
  {
    var low := n % TwoTo32;
    if low > IntMax then low - TwoTo32 else low
  }

  /** The longest delay, in seconds, whose interval in milliseconds fits an int. */
  const MaxExactDelay: int := IntMax / 1000

  /** Whether a request leaves the timer running: QObject::startTimer refuses a negative
      interval, so start() with one stops the timer and starts none. */
  predicate Runs(t: Timer) {
    t.Started? && t.ms >= 0
  }

  /** The request updateLastSeenStatus makes: stop() for a negative delay, otherwise
      start() with the delay in milliseconds, computed in 64 bits and passed to the int
      parameter of QTimer::start. */
  function TimerFor(delay: int): (t: Timer)
    ensures t.Stopped? <==> delay < 0
    ensures 0 <= delay <= MaxExactDelay ==> t == Started(delay * 1000) && Runs(t)
    ensures t.Started? ==> IntMin <= t.ms <= IntMax && (t.ms - delay * 1000) % TwoTo32 == 0
  {
    if delay < 0 then Stopped else Started(Int32Of(delay * 1000))
  }

  datatype Refreshed = Refreshed(entry: Entry, events: seq<EntryEvent>, timer: Timer)

  /** updateLastSeenStatus: with contact, the current time is stored as last seen first;
      without, the stored value is read through the non-const getValue. The text and the
      timer follow from that date. Both reads of the clock are the one instant `now`. */
  function UpdateLastSeen(qt: Conversions, cal: Calendar, e: Entry, hasContact: bool, now: int): (r: Refreshed)
    ensures r.entry.owner == e.owner && r.entry.callbacks == e.callbacks
  {
    var c1 := if hasContact then SetValue(e, LastSeen, DateTime(now))
              else Change(GetValueMut(e, LastSeen).entry, []);
    var d := if hasContact then Some(now) else ToDateTime(qt, GetValue(e, LastSeen));
    var c2 := SetValue(c1.entry, DisplayLastSeen, Text(SeenText(cal, Classify(d, now))));
    Refreshed(c2.entry, c1.events + c2.events, TimerFor(RefreshDelay(d, now)))
  }

  // ------------------------------------------------------------------ logo hook

  /** The file a friend's logo is copied to: `<dir>/<uid>.png`, the uid read through
      QVariant::toUuid. */
  function LogoPath(qt: Conversions, dir: string, e: Entry): (path: string)
    ensures Lookup(e.base, Uid).Uuid? ==> path == dir + "/" + Lookup(e.base, Uid).id + ".png"
    ensures Uid !in e.base ==> path == dir + "/" + NullUuid + ".png"
    ensures Lookup(e.base, Uid).Text? ==> path == dir + "/" + qt.uuidOf(Lookup(e.base, Uid)) + ".png"
  {
    dir + "/" + ToUuidText(qt, Lookup(e.base, Uid)) + ".png"
  }

  /** QUrl::fromLocalFile of an absolute path. */
  function FromLocalFile(path: string): Value {
    Url("file://" + path)
  }

  /** addNewLogo as far as the entry sees it: the pending logo is replaced by the url of
      the copy; with no pending logo nothing happens. */
  function FriendShadow(qt: Conversions, dir: string, e: Entry): (s: map<Key, Value>)
    ensures s.Keys == e.shadow.Keys
    ensures forall k :: k in s && k != LogoUrl ==> s[k] == e.shadow[k]
  {
    if LogoUrl in e.shadow then e.shadow[LogoUrl := FromLocalFile(LogoPath(qt, dir, e))] else e.shadow
  }

  /** The FriendsEntry override of applyShadowedChanges: the hook, then the base commit,
      whose count is returned. */
  function FriendApply(qt: Conversions, dir: string, e: Entry): Applied {
    ApplyShadowedChanges(e.(shadow := FriendShadow(qt, dir, e)))
  }

  // ------------------------------------------------------------------ construction

  /** The values init sets in one batch (the phone number is listed twice, with the same
      value). */
  const Defaults: map<Key, Value> := map[
    PhoneNumber := Text(""), Address := Text(""), Email := Text(""),
    LogoUrl := DefaultLogo, NewlyCreated := Bool(false)]

  const SelectedOnly: map<Key, seq<Value>> := map[Activities.SelectedKey := [Bool(true)]]

  /** A constructed friend: the world with its activity collection, the entry (not yet
      placed in the world), the collection's identity, the selected-only proxy over it,
      and the last-seen timer request. */
  datatype Friend = Friend(world: World, entry: Entry, activities: ModelId, selected: Filtered, timer: Timer)

  /** The first part of the constructor: the defaults, the uid, and the three handlers
      (display name on both names, logo fallback on the logo, last-seen text on the date). */
  function Prepared(uuid: string): (e: Entry)
    ensures e.owner == None
  {
    var e1 := NewEntry(FriendType).(base := Defaults);  // setValues(Defaults), see DefaultsWritten
    var e2 := SetValue(e1, Uid, Uuid(uuid)).entry;
    var e3 := OnValueChanged(e2, [FirstName, Surname]).entry;
    var e4 := OnValueChanged(e3, [LogoUrl]).entry;
    OnValueChanged(e4, [LastSeen]).entry
  }

  /** The last part: the activity collection `m` as child model and the proxy's identity
      as the selected activities. */
  function Attached(e: Entry, m: ModelId, proxy: nat): (r: Entry)
    ensures r.owner == e.owner && r.callbacks == e.callbacks
  {
    var e1 := SetChildModel(e, ActivitiesAll, m).entry;
    SetValue(e1, ActivitiesSelected, ObjectRef(proxy)).entry
  }

  /** The constructed entry, given the identity `m` of its activity collection. */
  function InitEntry(qt: Conversions, cal: Calendar, uuid: string, m: ModelId, proxy: nat, now: int): (e: Entry)
    ensures e.owner == None
  {
    Attached(UpdateLastSeen(qt, cal, Prepared(uuid), false, now).entry, m, proxy)
  }

  /** The constructor. The activity collection takes the world's next identity and is
      rebuilt from the icon catalogue; `uuid` is the fresh uid and `proxy` the object
      identity of the filter proxy. */
  function Init(qt: Conversions, cal: Calendar, w: World, uuid: string, proxy: nat, now: int): (f: Friend)
    ensures f.activities == w.nextId && f.activities in f.world.models
    ensures f.selected.source == f.activities
  {
    var m := w.nextId;
    Friend(ActivityWorld(qt, w), InitEntry(qt, cal, uuid, m, proxy, now), m, SetFilter(NewFiltered(m), SelectedOnly),
           UpdateLastSeen(qt, cal, Prepared(uuid), false, now).timer)
  }

  /** The ActivityModel schema meets the role-name preconditions. */
  lemma ActivitySchemaOk()
    ensures SchemaOk(Activities.Schema)
  {
    forall i | 0 <= i < |Activities.Schema|
      ensures !EqualsIgnoreCase(Activities.Schema[i].1, "MODEL") && !EqualsIgnoreCase(Activities.Schema[i].1, "ENTRY")
    {
      assert |Activities.Schema[i].1| != 5;
    }
  }

  /** `new ActivityModel(this)` under the world's next identity, then processActivities. */
  function ActivityWorld(qt: Conversions, w: World): (w2: World)
    ensures w.nextId in w2.models
  {
    ActivitySchemaOk();
    AddRebuilt(qt, w, NewCollection(ActivityModelType, Activities.Schema), Activities.AllIcons)
  }

  /** The empty collection `c` added under the world's next identity, then rebuilt from
      `icons`. */
  function AddRebuilt(qt: Conversions, w: World, c: Collection, icons: seq<string>): (w2: World)
    requires c.rows == []
    ensures w.nextId in w2.models
  {
    assert RowsLive(Added(w, c), w.nextId);
    Activities.ProcessWith(qt, Added(w, c), w.nextId, icons).world
  }

  /** The world with `c` added under the next identity. */
  function Added(w: World, c: Collection): (w1: World)
    ensures w.nextId in w1.models && w1.models[w.nextId] == c && w1.nextId == w.nextId + 1
  {
    World(w.entries, w.models[w.nextId := c], w.nextId + 1)
  }

  datatype Created = Created(friend: Friend, events: seq<EntryEvent>)

  /** create: construct, then write the initial values in one batch. */
  function Create(qt: Conversions, cal: Calendar, w: World, uuid: string, proxy: nat, now: int,
                  initial: map<Key, Value>): (r: Created)
  {
    var f := Init(qt, cal, w, uuid, proxy, now);
    var c := SetValues(f.entry, initial);
    Created(f.(entry := c.entry), c.events)
  }

  /** The registry's factory for FriendsEntry: the uid and the proxy identity of each
      construction are drawn from the world's counter at that moment. */
  function FriendFactory(qt: Conversions, cal: Calendar, uuids: nat -> string, proxies: nat -> nat, now: int): Factory {
    (w: World) => var f := Init(qt, cal, w, uuids(w.nextId), proxies(w.nextId), now);
         Built(f.world, EntryProduct(f.entry))
  }
}
