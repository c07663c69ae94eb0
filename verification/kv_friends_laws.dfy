/** Laws of FriendsEntry: the display-name rule, the last-seen buckets and their
    refresh timer, the logo hook around the base commit, and what construction leaves
    behind.
 */
module FriendLaws {
  import opened KVTypes
  import opened Ordered
  import opened KVEntry
  import opened KVModel
  import opened KVRegistry
  import opened Variant
  import opened Versions
  import opened Filtering
  import opened Friends
  import Activities
  import ActivityLaws
  import EntryLaws
  import Callbacks

  // ------------------------------------------------------------------ display name

  /** The four cases of the rule. */
  lemma DisplayNameCases(first: string, sur: string)
    ensures first == [] && sur == [] ==> DisplayNameOf(first, sur) == "unkown"
    ensures first == [] && sur != [] ==> DisplayNameOf(first, sur) == sur
    ensures first != [] && sur == [] ==> DisplayNameOf(first, sur) == first
    ensures first != [] && sur != [] ==> DisplayNameOf(first, sur) == first + " " + [sur[0]]
  {
  }

  /** The display name is the bare first name exactly when a first name is given and the
      surname is empty. */
  lemma DisplayNameIsFirstIff(first: string, sur: string)
    ensures DisplayNameOf(first, sur) == first <==> first != [] && sur == []
  {
    if first != [] && sur != [] {
      assert |DisplayNameOf(first, sur)| == |first| + 2;
    }
  }

  /** Given a first name, the surname matters only through its initial. */
  lemma SurnameOnlyByInitial(first: string, s1: string, s2: string)
    requires first != [] && s1 != [] && s2 != []
    ensures DisplayNameOf(first, s1) == DisplayNameOf(first, s2) <==> s1[0] == s2[0]
  {
    if DisplayNameOf(first, s1) == DisplayNameOf(first, s2) {
      assert DisplayNameOf(first, s1)[|first| + 1] == s1[0];
      assert DisplayNameOf(first, s2)[|first| + 1] == s2[0];
    }
  }

  /** The handler writes the display name of the current names and changes no other
      value any read can see. */
  lemma NameRefreshShows(qt: Conversions, e: Entry)
    ensures GetValue(NameRefresh(qt, e).entry, DisplayName) ==
      Text(DisplayNameOf(ToText(qt, GetValue(e, FirstName)), ToText(qt, GetValue(e, Surname))))
    ensures forall k :: k != DisplayName && k != ShadowedKey(DisplayName) ==>
      GetValue(NameRefresh(qt, e).entry, k) == GetValue(e, k)
  {
    var r1 := GetValueMut(e, FirstName);
    var r2 := GetValueMut(r1.entry, Surname);
    EntryLaws.SetValueReadBack(r2.entry, DisplayName,
      Text(DisplayNameOf(ToText(qt, r1.value), ToText(qt, r2.value))));
  }

  /** Running the handler again writes the same name: nothing changes, nothing fires. */
  lemma NameRefreshSettles(qt: Conversions, e: Entry)
    ensures NameRefresh(qt, NameRefresh(qt, e).entry).events == []
  {
    NameRefreshShows(qt, e);
  }

  // ------------------------------------------------------------------ last seen

  /** The bucket boundaries, in seconds. */
  const Thresholds: seq<int> := [Minute, Hour, Day, Week, Year]

  /** How many of the boundaries `s` has reached. */
  function Reached(s: int, ts: seq<int>): (n: nat)
    ensures n <= |ts|
  {
    if ts == [] then 0 else (if ts[0] <= s then 1 else 0) + Reached(s, ts[1..])
  }

  /** The first boundary above `s`, or the last boundary when `s` has reached them all. */
  function NextThreshold(s: int, ts: seq<int>): int
    requires ts != []
  {
    if s < ts[0] || |ts| == 1 then ts[0] else NextThreshold(s, ts[1..])
  }

  /** The position of a bucket in the order the buckets follow one another. */
  function Rank(s: Seen): int {
    match s
    case Never => -1
    case Now => 0
    case MinutesAgo(_) => 1
    case HoursAgo(_) => 2
    case OnWeekday(_) => 3
    case InMonth(_) => 4
    case YearsAgo(_) => 5
  }

  /** A valid date's bucket is the number of boundaries the elapsed time has reached, and
      the refresh delay runs to the next boundary (the last one, once all are reached). */
  lemma BucketByThresholds(t: int, now: int)
    ensures Rank(Classify(Some(t), now)) == Reached(now - t, Thresholds)
    ensures RefreshDelay(Some(t), now) == NextThreshold(now - t, Thresholds) - (now - t)
  {
    var s := now - t;
    var t1, t2, t3, t4 := [Hour, Day, Week, Year], [Day, Week, Year], [Week, Year], [Year];
    assert Thresholds[1..] == t1 && t1[1..] == t2 && t2[1..] == t3 && t3[1..] == t4 && t4[1..] == [];
    assert Reached(s, t4) == (if Year <= s then 1 else 0);
    assert Reached(s, t3) == (if Week <= s then 1 else 0) + Reached(s, t4);
    assert Reached(s, t2) == (if Day <= s then 1 else 0) + Reached(s, t3);
    assert Reached(s, t1) == (if Hour <= s then 1 else 0) + Reached(s, t2);
    assert Reached(s, Thresholds) == (if Minute <= s then 1 else 0) + Reached(s, t1);
    assert NextThreshold(s, t4) == Year;
    assert NextThreshold(s, t3) == if s < Week then Week else Year;
    assert NextThreshold(s, t2) == if s < Day then Day else NextThreshold(s, t3);
    assert NextThreshold(s, t1) == if s < Hour then Hour else NextThreshold(s, t2);
    assert NextThreshold(s, Thresholds) == if s < Minute then Minute else NextThreshold(s, t1);
  }

  /** Before the year boundary the delay ends exactly when the bucket changes: the
      bucket holds until the delay has passed, and the next one starts then. The timer
      is started with that delay in milliseconds whenever it fits an int: for every
      sighting less than a week old, and in the month bucket only during its last
      MaxExactDelay seconds (see TimerWrapsInMonthBucket for the rest). */
  lemma TimerFiresAtBucketChange(t: int, now: int)
    requires now - t < Year
    ensures RefreshDelay(Some(t), now) > 0
    ensures forall later :: now <= later < now + RefreshDelay(Some(t), now) ==>
      Rank(Classify(Some(t), later)) == Rank(Classify(Some(t), now))
    ensures Rank(Classify(Some(t), now + RefreshDelay(Some(t), now))) == Rank(Classify(Some(t), now)) + 1
    ensures 0 <= now - t < Week || Year - MaxExactDelay <= now - t ==>
      TimerFor(RefreshDelay(Some(t), now)) == Started(RefreshDelay(Some(t), now) * 1000)
  {
  }

  /** In the rest of the month bucket the interval does not fit an int and wraps. A
      week-old sighting asks for 30,931,200 s and the timer gets 866,428,928 ms (about
      ten days instead of 358); one MaxExactDelay + 1 seconds before the year boundary
      the interval wraps negative and no timer runs. */
  lemma TimerWrapsInMonthBucket(t: int)
    ensures RefreshDelay(Some(t), t + Week) == 30931200
    ensures TimerFor(RefreshDelay(Some(t), t + Week)) == Started(866428928)
    ensures RefreshDelay(Some(t), t + Year - MaxExactDelay - 1) == MaxExactDelay + 1
    ensures TimerFor(MaxExactDelay + 1) == Started(-2147483296)
    ensures !Runs(TimerFor(MaxExactDelay + 1))
  {
  }

  /** The timer is stopped exactly for an invalid date and once more than a year has
      passed; at exactly one year it is started with no delay. */
  lemma TimerStopsIff(d: Option<int>, now: int)
    ensures TimerFor(RefreshDelay(d, now)).Stopped? <==> d.None? || now - d.value > Year
    ensures d.Some? && now - d.value == Year ==> TimerFor(RefreshDelay(d, now)) == Started(0)
  {
  }

  /** The minute count goes stale: within the minutes bucket the text a minute later
      differs, but the timer is not due before the hour boundary. */
  lemma MinutesLabelOutlivesItsMinute(cal: Calendar, t: int, now: int)
    requires Minute <= now - t < Hour - Minute
    ensures SeenText(cal, Classify(Some(t), now + Minute)) != SeenText(cal, Classify(Some(t), now))
    ensures RefreshDelay(Some(t), now) > Minute
  {
    var a, b := Classify(Some(t), now), Classify(Some(t), now + Minute);
    assert b.minutes == a.minutes + 1;
    CountLabelReadsBack(a.minutes, " minutes ago");
    CountLabelReadsBack(b.minutes, " minutes ago");
  }

  /** The count at the head of a counted label reads back as the count. */
  lemma CountLabelReadsBack(n: int, suffix: string)
    requires n >= 0 && suffix != [] && !IsDigit(suffix[0])
    ensures var s := IntText(n) + suffix; DigitsValue(s[..DigitRun(s)]) == n
  {
    var s := IntText(n) + suffix;
    DigitRunStops(NatToString(n), suffix);
    assert s[..|NatToString(n)|] == NatToString(n);
    DigitsValueOfText(n);
  }

  /** The minute, hour and year labels each begin with their count. */
  lemma SeenCountReadsBack(cal: Calendar, s: Seen)
    requires s.MinutesAgo? || s.HoursAgo? || s.YearsAgo?
    requires (s.MinutesAgo? ==> s.minutes >= 0) && (s.HoursAgo? ==> s.hours >= 0) && (s.YearsAgo? ==> s.years >= 0)
    ensures var text := SeenText(cal, s);
      DigitsValue(text[..DigitRun(text)]) == match s
        case MinutesAgo(n) => n
        case HoursAgo(n) => n
        case YearsAgo(n) => n
        case _ => 0
  {
    match s
    case MinutesAgo(n) => CountLabelReadsBack(n, " minutes ago");
    case HoursAgo(n) => CountLabelReadsBack(n, " hours ago");
    case YearsAgo(n) => CountLabelReadsBack(n, " years");
  }

  /** With contact the current time is stored as last seen, the text is "now", and the
      timer is due in a minute; every other value reads as before. A changed last-seen
      value runs its handlers first. */
  lemma ContactMeansNow(qt: Conversions, cal: Calendar, e: Entry, now: int)
    ensures GetValue(UpdateLastSeen(qt, cal, e, true, now).entry, LastSeen) == DateTime(now)
    ensures GetValue(UpdateLastSeen(qt, cal, e, true, now).entry, DisplayLastSeen) == Text("now")
    ensures UpdateLastSeen(qt, cal, e, true, now).timer == Started(60000)
    ensures forall k :: k !in {LastSeen, DisplayLastSeen, ShadowedKey(LastSeen), ShadowedKey(DisplayLastSeen)} ==>
      GetValue(UpdateLastSeen(qt, cal, e, true, now).entry, k) == GetValue(e, k)
    ensures GetValue(e, LastSeen) != DateTime(now) ==>
      UpdateLastSeen(qt, cal, e, true, now).events[0] ==
        CallbacksFired(InOrder(Callbacks.ListFor(e.callbacks, LastSeen)))
  {
  }

  /** Without contact the stored date is only read: the text and the timer are those of
      the stored date, and every other value reads as before. */
  lemma NoContactShowsStored(qt: Conversions, cal: Calendar, e: Entry, now: int)
    ensures var d := ToDateTime(qt, GetValue(e, LastSeen));
      GetValue(UpdateLastSeen(qt, cal, e, false, now).entry, DisplayLastSeen) ==
        Text(SeenText(cal, Classify(d, now))) &&
      UpdateLastSeen(qt, cal, e, false, now).timer == TimerFor(RefreshDelay(d, now))
    ensures forall k :: k != DisplayLastSeen && k != ShadowedKey(DisplayLastSeen) ==>
      GetValue(UpdateLastSeen(qt, cal, e, false, now).entry, k) == GetValue(e, k)
  {
    var r := GetValueMut(e, LastSeen);
    var d := ToDateTime(qt, GetValue(e, LastSeen));
    EntryLaws.SetValueReadBack(r.entry, DisplayLastSeen, Text(SeenText(cal, Classify(d, now))));
  }

  /** Never seen: no stored date gives "never" and a stopped timer. */
  lemma NeverSeen(qt: Conversions, cal: Calendar, e: Entry, now: int)
    requires GetValue(e, LastSeen) == Invalid
    ensures GetValue(UpdateLastSeen(qt, cal, e, false, now).entry, DisplayLastSeen) == Text("never")
    ensures UpdateLastSeen(qt, cal, e, false, now).timer == Stopped
  {
    NoContactShowsStored(qt, cal, e, now);
  }

  // ------------------------------------------------------------------ logo hook

  /** The override: with no pending logo it is the plain commit. With one, the pending
      logo is first replaced by the url of the copy, and then every pending value, that
      url included, is written over the base store; the count is that of the commit. */
  lemma FriendApplyCommits(qt: Conversions, dir: string, e: Entry)
    requires EntryLaws.ShadowInBaseRange(e)
    ensures LogoUrl !in e.shadow ==> FriendApply(qt, dir, e) == ApplyShadowedChanges(e)
    ensures FriendApply(qt, dir, e).entry.shadow == map[]
    ensures FriendApply(qt, dir, e).entry.base == e.base + FriendShadow(qt, dir, e)
    ensures FriendApply(qt, dir, e).count == |EntryLaws.Differing(e.(shadow := FriendShadow(qt, dir, e)))|
    ensures LogoUrl in e.shadow ==> FriendApply(qt, dir, e).entry.base[LogoUrl] == FromLocalFile(LogoPath(qt, dir, e))
    ensures forall k :: k in e.shadow && k != LogoUrl ==> FriendApply(qt, dir, e).entry.base[k] == e.shadow[k]
  {
    var h := e.(shadow := FriendShadow(qt, dir, e));
    assert EntryLaws.ShadowInBaseRange(h);
    EntryLaws.ApplyCommits(h);
    if LogoUrl !in e.shadow {
      assert h == e;
    }
  }

  /** The committed logo is named by the uid alone: which file the user picked, and any
      other pending value, make no difference to it. */
  lemma LogoNamedByUid(qt: Conversions, dir: string, e1: Entry, e2: Entry)
    requires LogoUrl in e1.shadow && LogoUrl in e2.shadow
    requires Lookup(e1.base, Uid) == Lookup(e2.base, Uid)
    ensures FriendShadow(qt, dir, e1)[LogoUrl] == FriendShadow(qt, dir, e2)[LogoUrl]
  {
  }

  /** Two entries that differ only in the file picked as the new logo commit alike. */
  lemma PickedFileForgotten(qt: Conversions, dir: string, e: Entry, picked1: Value, picked2: Value)
    ensures FriendApply(qt, dir, e.(shadow := e.shadow[LogoUrl := picked1])) ==
            FriendApply(qt, dir, e.(shadow := e.shadow[LogoUrl := picked2]))
  {
    var e1, e2 := e.(shadow := e.shadow[LogoUrl := picked1]), e.(shadow := e.shadow[LogoUrl := picked2]);
    assert LogoPath(qt, dir, e1) == LogoPath(qt, dir, e2);
    assert FriendShadow(qt, dir, e1) == FriendShadow(qt, dir, e2);
  }

  // ------------------------------------------------------------------ construction

  /** The defaults batch on a new entry becomes its whole store. */
  lemma DefaultsWritten()
    ensures SetValues(NewEntry(FriendType), Defaults).entry == NewEntry(FriendType).(base := Defaults)
  {
    EntryLaws.SetValuesOnNew(FriendType, Defaults);
  }

  /** The store and handlers before the last-seen text is computed. */
  lemma PreparedStore(uuid: string)
    ensures Prepared(uuid).base == Defaults[Uid := Uuid(uuid)]
    ensures Prepared(uuid).shadow == map[] && Prepared(uuid).typeName == FriendType
  {
  }

  lemma PreparedCallbacks(uuid: string, k: Key)
    ensures Callbacks.ListFor(Prepared(uuid).callbacks, k) ==
      if k == FirstName || k == Surname then [NameHandle]
      else if k == LogoUrl then [LogoHandle]
      else if k == LastSeen then [LastSeenHandle]
      else []
    ensures Prepared(uuid).nextHandle == 3
  {
    var t1 := Callbacks.Register(map[], [FirstName, Surname], NameHandle);
    var t2 := Callbacks.Register(t1, [LogoUrl], LogoHandle);
    var t3 := Callbacks.Register(t2, [LastSeen], LastSeenHandle);
    assert Prepared(uuid).callbacks == t3;
    Callbacks.RegisterAppends(map[], [FirstName, Surname], NameHandle, k);
    Callbacks.RegisterAppends(t1, [LogoUrl], LogoHandle, k);
    Callbacks.RegisterAppends(t2, [LastSeen], LastSeenHandle, k);
    assert Callbacks.Repeat(NameHandle, 1) == [NameHandle];
    assert Callbacks.Repeat(LogoHandle, 1) == [LogoHandle];
    assert Callbacks.Repeat(LastSeenHandle, 1) == [LastSeenHandle];
  }

  /** What construction stores: the defaults, the uid, the Invalid slot the last-seen
      read leaves behind, the "never" text, and the two child collections; no pending
      values, no owner. */
  lemma InitStore(qt: Conversions, cal: Calendar, uuid: string, m: ModelId, proxy: nat, now: int)
    ensures var e := InitEntry(qt, cal, uuid, m, proxy, now);
      && e.base == map[PhoneNumber := Text(""), Address := Text(""), Email := Text(""),
                       LogoUrl := DefaultLogo, NewlyCreated := Bool(false), Uid := Uuid(uuid),
                       LastSeen := Invalid, DisplayLastSeen := Text("never"),
                       ActivitiesAll := ModelRef(m), ActivitiesSelected := ObjectRef(proxy)]
      && e.shadow == map[] && e.owner == None && e.typeName == FriendType
  {
    var p := Prepared(uuid);
    PreparedStore(uuid);
    var seen := UpdateLastSeen(qt, cal, p, false, now);
    NeverSeenStore(qt, cal, p, now);
    AttachedStore(seen.entry, m, proxy);
  }

  /** The constructor's parts: the entry above, the collection under the next identity
      with the selected-only proxy over it, and a stopped timer. */
  lemma InitParts(qt: Conversions, cal: Calendar, w: World, uuid: string, proxy: nat, now: int)
    ensures var f := Init(qt, cal, w, uuid, proxy, now);
      && f.entry == InitEntry(qt, cal, uuid, w.nextId, proxy, now)
      && f.activities == w.nextId && f.selected == Filtered(w.nextId, SelectedOnly)
      && f.timer == Stopped
  {
    PreparedTimerStopped(qt, cal, uuid, now);
  }

  /** A freshly prepared friend has never been seen, so its last-seen pass stops the timer. */
  lemma PreparedTimerStopped(qt: Conversions, cal: Calendar, uuid: string, now: int)
    ensures UpdateLastSeen(qt, cal, Prepared(uuid), false, now).timer == Stopped
  {
    PreparedStore(uuid);
    NeverSeenStore(qt, cal, Prepared(uuid), now);
  }

  /** Without a stored date the last-seen pass leaves an Invalid date slot and the text
      "never" in the base store, and stops the timer. */
  lemma NeverSeenStore(qt: Conversions, cal: Calendar, e: Entry, now: int)
    requires LastSeen !in e.base
    ensures UpdateLastSeen(qt, cal, e, false, now).entry ==
      e.(base := e.base[LastSeen := Invalid][DisplayLastSeen := Text("never")])
    ensures UpdateLastSeen(qt, cal, e, false, now).timer == Stopped
  {
  }

  lemma AttachedStore(e: Entry, m: ModelId, proxy: nat)
    ensures Attached(e, m, proxy) == e.(base := e.base[ActivitiesAll := ModelRef(m)][ActivitiesSelected := ObjectRef(proxy)])
  {
  }

  /** Construction registers the display-name handler on both names, the logo handler on
      the logo and the last-seen handler on the date, and nothing else. */
  lemma InitCallbacks(qt: Conversions, cal: Calendar, uuid: string, m: ModelId, proxy: nat, now: int, k: Key)
    ensures Callbacks.ListFor(InitEntry(qt, cal, uuid, m, proxy, now).callbacks, k) ==
      if k == FirstName || k == Surname then [NameHandle]
      else if k == LogoUrl then [LogoHandle]
      else if k == LastSeen then [LastSeenHandle]
      else []
    ensures InitEntry(qt, cal, uuid, m, proxy, now).nextHandle == 3
  {
    PreparedCallbacks(uuid, k);
  }

  /** create is construction followed by one batch write of the initial values. */
  lemma CreateIsInitThenBatch(qt: Conversions, cal: Calendar, w: World, uuid: string, proxy: nat, now: int,
                              initial: map<Key, Value>)
    ensures var c := SetValues(InitEntry(qt, cal, uuid, w.nextId, proxy, now), initial);
      Create(qt, cal, w, uuid, proxy, now, initial) == Created(Init(qt, cal, w, uuid, proxy, now).(entry := c.entry), c.events)
  {
    InitParts(qt, cal, w, uuid, proxy, now);
  }

  /** The batch writes the initial values over what construction left: every base key
      reads its initial value when it has one and its constructed value otherwise. */
  lemma CreateStores(qt: Conversions, cal: Calendar, uuid: string, m: ModelId, proxy: nat, now: int,
                     initial: map<Key, Value>, k: Key)
    requires 0 <= k < ShadowedKeysStartAt
    ensures GetValue(SetValues(InitEntry(qt, cal, uuid, m, proxy, now), initial).entry, k) ==
      if k in initial then initial[k] else GetValue(InitEntry(qt, cal, uuid, m, proxy, now), k)
  {
    EntryLaws.SetValuesSpec(InitEntry(qt, cal, uuid, m, proxy, now), initial);
  }

  /** What construction leaves in the entry, as one description. */
  ghost predicate AsConstructed(e: Entry, uuid: string, m: ModelId, proxy: nat) {
    && e.base == map[PhoneNumber := Text(""), Address := Text(""), Email := Text(""),
                     LogoUrl := DefaultLogo, NewlyCreated := Bool(false), Uid := Uuid(uuid),
                     LastSeen := Invalid, DisplayLastSeen := Text("never"),
                     ActivitiesAll := ModelRef(m), ActivitiesSelected := ObjectRef(proxy)]
    && e.shadow == map[] && e.owner == None && e.typeName == FriendType && e.nextHandle == 3
    && forall k :: Callbacks.ListFor(e.callbacks, k) ==
         if k == FirstName || k == Surname then [NameHandle]
         else if k == LogoUrl then [LogoHandle]
         else if k == LastSeen then [LastSeenHandle]
         else []
  }

  lemma InitConstructed(qt: Conversions, cal: Calendar, uuid: string, m: ModelId, proxy: nat, now: int)
    ensures AsConstructed(InitEntry(qt, cal, uuid, m, proxy, now), uuid, m, proxy)
  {
    InitStore(qt, cal, uuid, m, proxy, now);
    forall k
      ensures Callbacks.ListFor(InitEntry(qt, cal, uuid, m, proxy, now).callbacks, k) ==
        if k == FirstName || k == Surname then [NameHandle]
        else if k == LogoUrl then [LogoHandle]
        else if k == LastSeen then [LastSeenHandle]
        else []
    {
      InitCallbacks(qt, cal, uuid, m, proxy, now, k);
    }
    InitCallbacks(qt, cal, uuid, m, proxy, now, 0);
  }

  /** A batch naming the friend, as create writes it, runs the display-name handler once:
      one notification pass, in which each handle runs at most once. */
  lemma CreateFiresNameOnce(qt: Conversions, cal: Calendar, uuid: string, m: ModelId, proxy: nat, now: int,
                            initial: map<Key, Value>)
    requires FirstName in initial && Surname in initial
    requires initial[FirstName] != Invalid && initial[Surname] != Invalid
    ensures var evs := SetValues(InitEntry(qt, cal, uuid, m, proxy, now), initial).events;
      |evs| >= 1 && evs[0].CallbacksFired? && evs[0].fired.Deduplicated? && NameHandle in evs[0].fired.handles
  {
    InitConstructed(qt, cal, uuid, m, proxy, now);
    BatchNamingFiresOnce(InitEntry(qt, cal, uuid, m, proxy, now), uuid, m, proxy, initial);
  }

  lemma BatchNamingFiresOnce(e: Entry, uuid: string, m: ModelId, proxy: nat, batch: map<Key, Value>)
    requires AsConstructed(e, uuid, m, proxy)
    requires FirstName in batch && Surname in batch
    requires batch[FirstName] != Invalid && batch[Surname] != Invalid
    ensures var evs := SetValues(e, batch).events;
      |evs| >= 1 && evs[0].CallbacksFired? && evs[0].fired.Deduplicated? && NameHandle in evs[0].fired.handles
  {
    var changed := EntryLaws.ChangedKeys(e, batch);
    assert FirstName !in e.base && Surname !in e.base;
    assert FirstName in changed && Surname in changed;
    var two: set<Key> := {FirstName, Surname};
    assert changed == two + (changed - two);
    assert |two| == 2;
    EntryLaws.BatchFiresEachHandleOnce(e, batch);
    assert NameHandle in Callbacks.ListFor(e.callbacks, FirstName);
  }

  /** Setting the two names one at a time instead runs the handler once per write. */
  lemma NamesOneByOneFireTwice(qt: Conversions, cal: Calendar, uuid: string, m: ModelId, proxy: nat, now: int,
                               first: Value, sur: Value)
    requires first != Invalid && sur != Invalid
    ensures var e := InitEntry(qt, cal, uuid, m, proxy, now);
      var c1 := SetValue(e, FirstName, first);
      var c2 := SetValue(c1.entry, Surname, sur);
      c1.events == [CallbacksFired(InOrder([NameHandle]))] && c2.events == [CallbacksFired(InOrder([NameHandle]))]
  {
    InitConstructed(qt, cal, uuid, m, proxy, now);
    OneByOne(InitEntry(qt, cal, uuid, m, proxy, now), uuid, m, proxy, first, sur);
  }

  lemma OneByOne(e: Entry, uuid: string, m: ModelId, proxy: nat, first: Value, sur: Value)
    requires AsConstructed(e, uuid, m, proxy)
    requires first != Invalid && sur != Invalid
    ensures var c1 := SetValue(e, FirstName, first);
      var c2 := SetValue(c1.entry, Surname, sur);
      c1.events == [CallbacksFired(InOrder([NameHandle]))] && c2.events == [CallbacksFired(InOrder([NameHandle]))]
  {
    assert FirstName !in e.base && Surname !in e.base;
    assert Callbacks.ListFor(e.callbacks, FirstName) == [NameHandle];
    assert Callbacks.ListFor(e.callbacks, Surname) == [NameHandle];
  }

  // ------------------------------------------------------------------ the world

  /** `w2` is `w1` with collection `m` given rows under consecutive fresh identities, its
      old rows dropped and nothing else touched. */
  ghost predicate RebuiltFrom(w1: World, m: ModelId, w2: World) {
    m in w1.models && m in w2.models && w1.nextId <= w2.nextId &&
    w2.models == w1.models[m := w1.models[m].(rows := w2.models[m].rows)] &&
    (forall i :: 0 <= i < |w2.models[m].rows| ==> w2.models[m].rows[i] == w1.nextId + i) &&
    (forall e :: e in w1.entries && e !in w1.models[m].rows && e < w1.nextId ==>
       e in w2.entries && w2.entries[e] == w1.entries[e]) &&
    (forall e :: e in w2.entries ==> (e in w1.entries && e !in w1.models[m].rows) || w1.nextId <= e < w2.nextId)
  }

  /** processActivities rebuilds its collection and touches nothing else. */
  lemma ProcessRebuiltFrom(qt: Conversions, w1: World, m: ModelId, icons: seq<string>)
    requires RowsLive(w1, m)
    ensures RebuiltFrom(w1, m, Activities.ProcessWith(qt, w1, m, icons).world)
  {
    ActivityLaws.ProcessShape(qt, w1, m, icons, Activities.ProcessWith(qt, w1, m, icons));
  }

  /** Rebuilding a collection freshly added under the next identity only adds to the
      world. */
  lemma FreshRebuiltGrows(w: World, c: Collection, w2: World)
    requires IdsBelow(w) && c.rows == []
    requires RebuiltFrom(Added(w, c), w.nextId, w2)
    ensures Grows(w, w2)
  {
    var m := w.nextId;
    forall x | x in w.models
      ensures x in w2.models && AppendedTo(w.models[x], w2.models[x], w.nextId)
    {
      assert x != m;
      assert w2.models[x] == w.models[x];
      assert w.models[x].rows[..|w.models[x].rows|] == w.models[x].rows;
    }
  }

  /** The activity collection is added and rebuilt, and nothing else is touched. */
  lemma AddRebuiltShape(qt: Conversions, w: World, c: Collection, icons: seq<string>)
    requires c.rows == []
    ensures RebuiltFrom(Added(w, c), w.nextId, AddRebuilt(qt, w, c, icons))
  {
    assert RowsLive(Added(w, c), w.nextId);
    ProcessRebuiltFrom(qt, Added(w, c), w.nextId, icons);
  }

  /** Attaching the activity collection only adds to the world. */
  lemma AddRebuiltGrows(qt: Conversions, w: World, c: Collection, icons: seq<string>)
    requires IdsBelow(w) && c.rows == []
    ensures Grows(w, AddRebuilt(qt, w, c, icons))
  {
    AddRebuiltShape(qt, w, c, icons);
    FreshRebuiltGrows(w, c, AddRebuilt(qt, w, c, icons));
  }

  lemma ActivityWorldGrows(qt: Conversions, w: World)
    requires IdsBelow(w)
    ensures Grows(w, ActivityWorld(qt, w))
  {
    AddRebuiltGrows(qt, w, NewCollection(ActivityModelType, Activities.Schema), Activities.AllIcons);
  }

  /** The FriendsEntry factory is one the registry may hold: it only adds to the world
      and builds an entry. */
  lemma FriendFactoryWellBehaved(qt: Conversions, cal: Calendar, uuids: nat -> string, proxies: nat -> nat, now: int)
    ensures WellBehaved(FriendFactory(qt, cal, uuids, proxies, now))
  {
    var f := FriendFactory(qt, cal, uuids, proxies, now);
    forall w | IdsBelow(w)
      ensures Grows(w, f(w).world) && !f(w).product.ModelProduct?
    {
      ActivityWorldGrows(qt, w);
    }
  }
}
