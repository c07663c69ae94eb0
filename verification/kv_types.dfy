/** Vocabulary shared by every part of the library: the key space of an entry,
    the value cell stored under a key, object identities, and the record of which
    change callbacks fired.
 */
module KVTypes {

  datatype Option<+T> = None | Some(value: T)

  /** Keys of an entry and roles of a model are plain ints. */
  type Key = int

  /** Identities standing in for the C++ object pointers. */
  type EntryId = nat
  type ModelId = nat
  type Handle = nat

  /** Keys `[0, ShadowedKeysStartAt)` address the base store; key `ShadowedKeysStartAt + k`
      addresses the shadow (uncommitted) value of base key `k`; keys from
      `InternalKeysStartAt` on are reserved for the model's internal roles. */
  const ShadowedKeysStartAt: Key := 1024
  const InternalKeysStartAt: Key := 2048

  /** SHADOWED_KEY: the key under which the shadow value of `k` is read and written. */
  function ShadowedKey(k: Key): Key {
    k + ShadowedKeysStartAt
  }

  /** The storage slot a key is redirected to by every read and write of an entry. */
  datatype Slot = BaseSlot(key: Key) | ShadowSlot(key: Key)

  function SlotOf(k: Key): Slot {
    if k >= ShadowedKeysStartAt then ShadowSlot(k - ShadowedKeysStartAt) else BaseSlot(k)
  }

  /** Base keys are their own slot; the shadowed key of a non-negative key is the
      shadow slot of that key; internal keys start one whole range after the shadow keys. */
  lemma KeySpacePartition(k: Key)
    ensures k < ShadowedKeysStartAt ==> SlotOf(k) == BaseSlot(k)
    ensures k >= 0 ==> SlotOf(ShadowedKey(k)) == ShadowSlot(k)
    ensures 0 <= k < ShadowedKeysStartAt ==> ShadowedKeysStartAt <= ShadowedKey(k) < InternalKeysStartAt
    ensures InternalKeysStartAt == 2 * ShadowedKeysStartAt
  {
  }

  /** Two different keys never share a slot, so the writes of one batch never collide. */
  lemma SlotOfInjective(k1: Key, k2: Key)
    requires SlotOf(k1) == SlotOf(k2)
    ensures k1 == k2
  {
  }

  /** The value cell (QVariant). `Invalid` is the default-constructed value. Pointer
      values are kept apart: a model pointer (child model, or the MODEL role), an entry
      pointer (the ENTRY role, possibly null), and any other object pointer. */
  datatype Value =
    | Invalid
    | Bool(b: bool)
    | Int(i: int)
    | Real(r: real)
    | Text(s: string)
    | DateTime(t: int)
    | Url(u: string)
    | Uuid(id: string)
    | ModelRef(model: ModelId)
    | EntryRef(entry: Option<EntryId>)
    | ObjectRef(obj: nat)

  /** The value held in a map, or the default value when the key is absent
      (QMap::value / the const QMap::operator[]). */
  function Lookup(m: map<Key, Value>, k: Key): (v: Value)
    ensures k !in m ==> v == Invalid
    ensures k in m ==> v == m[k]
  {
    if k in m then m[k] else Invalid
  }

  /** Which change callbacks ran: a single changed key runs that key's list as
      registered (a handle listed twice runs twice); several changed keys run each
      distinct handle once. */
  datatype Fired = InOrder(order: seq<Handle>) | Deduplicated(handles: set<Handle>)
}

/** The per-key callback table kept by an entry (per key) and by a model (per role). */
module Callbacks {
  import opened KVTypes

  type Table = map<Key, seq<Handle>>

  /** The handles registered under `k`, in registration order. */
  function ListFor(t: Table, k: Key): seq<Handle> {
    if k in t then t[k] else []
  }

  function Repeat(h: Handle, n: nat): (r: seq<Handle>)
    ensures |r| == n
    ensures forall i :: 0 <= i < n ==> r[i] == h
  {
    if n == 0 then [] else [h] + Repeat(h, n - 1)
  }

  /** How often `k` occurs in `keys`. */
  function Occurrences(keys: seq<Key>, k: Key): (n: nat)
    ensures n == 0 <==> k !in keys
  {
    if keys == [] then 0 else (if keys[0] == k then 1 else 0) + Occurrences(keys[1..], k)
  }

  /** onValueChanged / onEntriesChanged: append `h` to the list of every listed key,
      once per occurrence of the key (see RegisterAppends). */
  function Register(t: Table, keys: seq<Key>, h: Handle): Table
    decreases |keys|
  {
    if keys == [] then t
    else Register(t[keys[0] := ListFor(t, keys[0]) + [h]], keys[1..], h)
  }

  /** After registering, the list of every key is its old list followed by one copy of
      the handle per occurrence of the key, and the table gained exactly the listed keys. */
  lemma {:induction false} RegisterAppends(t: Table, keys: seq<Key>, h: Handle, k: Key)
    ensures ListFor(Register(t, keys, h), k) == ListFor(t, k) + Repeat(h, Occurrences(keys, k))
    ensures k in Register(t, keys, h) <==> k in t || k in keys
    decreases |keys|
  {
    if keys != [] {
      var k0 := keys[0];
      var t' := t[k0 := ListFor(t, k0) + [h]];
      RegisterAppends(t', keys[1..], h, k);
      var n := Occurrences(keys[1..], k);
      assert k in keys <==> k == k0 || k in keys[1..];
      if k == k0 {
        assert Repeat(h, n + 1) == [h] + Repeat(h, n);
      }
    }
  }

  /** QVector::removeAll. */
  function RemoveAll(s: seq<Handle>, h: Handle): (r: seq<Handle>)
    ensures h !in r
    ensures forall x :: x != h ==> multiset(r)[x] == multiset(s)[x]
    ensures |r| <= |s|
  {
    if s == [] then []
    else
      assert s == [s[0]] + s[1..];
      (if s[0] == h then [] else [s[0]]) + RemoveAll(s[1..], h)
  }

  /** QVector::removeAll keeps the remaining handles in their order: removing from a
      concatenation is removing from each part, and a list without `h` is kept as it is. */
  lemma {:induction false} RemoveAllAppend(a: seq<Handle>, b: seq<Handle>, h: Handle)
    ensures RemoveAll(a + b, h) == RemoveAll(a, h) + RemoveAll(b, h)
    ensures h !in a ==> RemoveAll(a, h) == a
    decreases |a|
  {
    if a != [] {
      var head := if a[0] == h then [] else [a[0]];
      assert (a + b)[0] == a[0] && (a + b)[1..] == a[1..] + b;
      RemoveAllAppend(a[1..], b, h);
      assert RemoveAll(a + b, h) == head + RemoveAll(a[1..] + b, h);
      assert RemoveAll(a, h) == head + RemoveAll(a[1..], h);
      assert a == [a[0]] + a[1..];
    } else {
      assert a + b == b;
    }
  }

  /** removeOnValueChanged / removeEntriesRoleChanged: QVector::removeAll on every list. */
  function Unregister(t: Table, h: Handle): (r: Table)
    ensures r.Keys == t.Keys
    ensures forall k :: ListFor(r, k) == RemoveAll(ListFor(t, k), h)
    ensures forall k :: h !in ListFor(r, k)
    ensures forall k, x :: x != h ==> multiset(ListFor(r, k))[x] == multiset(ListFor(t, k))[x]
  {
    map k | k in t :: RemoveAll(t[k], h)
  }

  /** The distinct handles registered on any of `keys`. */
  function Collect(t: Table, keys: seq<Key>): (r: set<Handle>)
    ensures forall h :: h in r <==> exists k :: k in keys && h in ListFor(t, k)
    decreases |keys|
  {
    if keys == [] then {}
    else
      var rest := Collect(t, keys[1..]);
      assert forall k :: k in keys <==> k == keys[0] || k in keys[1..];
      (set h | h in ListFor(t, keys[0])) + rest
  }
}
