/** KVListSerializer's factory registry: a map from a class name to a factory that
    constructs a new entry or collection of that class. The deserializer creates every
    object it loads through this registry.

    A factory is a constructor run against the world: it may build further objects (an
    entry type whose constructor attaches child collections does so) and hands back the
    constructed object, which `CreateItem` places under the next fresh identity.
 */
module KVRegistry {
  import opened KVTypes
  import opened KVEntry
  import opened KVModel

  /** What a constructor builds: an entry or a collection, the two kinds of KVListBase. */
  datatype Product = EntryProduct(entry: Entry) | ModelProduct(model: Collection)

  datatype Built = Built(world: World, product: Product)

  type Factory = World -> Built

  /** The single registry shared by every serializer (a static member in the library). */
  type Registry = map<string, Factory>

  /** An object the registry created, by identity. */
  datatype Item = EntryItem(entry: EntryId) | ModelItem(model: ModelId)

  datatype Made = Made(world: World, item: Option<Item>)

  /** registerFactoryItem: a name may be registered once only. */
  function Register(reg: Registry, name: string, f: Factory): (r: Registry)
    requires name !in reg
    ensures r.Keys == reg.Keys + {name}
    ensures r[name] == f
    ensures forall n :: n in reg ==> r[n] == reg[n]
  {
    reg[name := f]
  }

  /** Store a constructed object under the world's next identity. */
  function Place(b: Built): (r: Made)
    ensures r.item.Some?
    ensures r.world.nextId == b.world.nextId + 1
    ensures r.world.entries.Keys <= b.world.entries.Keys + {b.world.nextId}
    ensures r.world.models.Keys <= b.world.models.Keys + {b.world.nextId}
    ensures match r.item.value
      case EntryItem(e) =>
        e == b.world.nextId && b.product.EntryProduct? && r.world.models == b.world.models &&
        r.world.entries == b.world.entries[e := b.product.entry]
      case ModelItem(m) =>
        m == b.world.nextId && b.product.ModelProduct? && r.world.entries == b.world.entries &&
        r.world.models == b.world.models[m := b.product.model]
  {
    var id := b.world.nextId;
    match b.product
    case EntryProduct(ent) =>
      Made(b.world.(entries := b.world.entries[id := ent], nextId := id + 1), Some(EntryItem(id)))
    case ModelProduct(c) =>
      Made(b.world.(models := b.world.models[id := c], nextId := id + 1), Some(ModelItem(id)))
  }

  /** createItem: an unregistered name creates nothing and changes nothing; a registered
      one runs its factory. The registry itself is an input only: no call changes it. */
  function CreateItem(reg: Registry, w: World, name: string): (r: Made)
    ensures name !in reg ==> r == Made(w, None)
    ensures name in reg ==> r == Place(reg[name](w))
  {
    if name in reg then Place(reg[name](w)) else Made(w, None)
  }

  // ------------------------------------------------------------------ well-behaved factories

  /** Identities are handed out from a counter: every live object's identity is below it. */
  ghost predicate IdsBelow(w: World) {
    (forall e :: e in w.entries ==> e < w.nextId) && (forall m :: m in w.models ==> m < w.nextId)
  }

  /** `c1` is `c` with zero or more rows appended, each of them an identity handed out
      at or after `since`. */
  ghost predicate AppendedTo(c: Collection, c1: Collection, since: nat) {
    c1 == c.(rows := c1.rows) && |c.rows| <= |c1.rows| && c1.rows[..|c.rows|] == c.rows &&
    forall i :: |c.rows| <= i < |c1.rows| ==> c1.rows[i] >= since
  }

  /** `w1` only adds to `w`: every entry of `w` is untouched, every collection of `w` at
      most gained rows at its end, and the identity counter did not go back. */
  ghost predicate Grows(w: World, w1: World) {
    w.nextId <= w1.nextId && IdsBelow(w1) &&
    (forall e :: e in w.entries ==> e in w1.entries && w1.entries[e] == w.entries[e]) &&
    (forall m :: m in w.models ==> m in w1.models && AppendedTo(w.models[m], w1.models[m], w.nextId))
  }

  /** A constructor that only adds objects to the world, and builds an empty collection
      when it builds a collection at all. */
  ghost predicate WellBehaved(f: Factory) {
    forall w {:trigger f(w)} :: IdsBelow(w) ==>
      Grows(w, f(w).world) && (f(w).product.ModelProduct? ==> f(w).product.model.rows == [])
  }

  ghost predicate Good(reg: Registry) {
    forall n :: n in reg ==> WellBehaved(reg[n])
  }

  lemma GrowsReflexive(w: World)
    requires IdsBelow(w)
    ensures Grows(w, w)
  {
    forall m | m in w.models
      ensures AppendedTo(w.models[m], w.models[m], w.nextId)
    {
      assert w.models[m].rows[..|w.models[m].rows|] == w.models[m].rows;
    }
  }

  lemma GrowsTransitive(w: World, w1: World, w2: World)
    requires Grows(w, w1) && Grows(w1, w2)
    ensures Grows(w, w2)
  {
    forall m | m in w.models
      ensures AppendedTo(w.models[m], w2.models[m], w.nextId)
    {
      var c, c1, c2 := w.models[m], w1.models[m], w2.models[m];
      assert c1.rows[..|c.rows|] == c.rows;
      assert c2.rows[..|c1.rows|] == c1.rows;
      assert c2.rows[..|c.rows|] == c1.rows[..|c.rows|];
      forall i | |c.rows| <= i < |c2.rows|
        ensures c2.rows[i] >= w.nextId
      {
        if i < |c1.rows| {
          assert c2.rows[i] == c1.rows[i];
        }
      }
    }
  }

  /** Placing a constructed object only adds it, under the identity the counter held. */
  lemma PlaceGrows(b: Built)
    requires IdsBelow(b.world)
    ensures Grows(b.world, Place(b).world)
  {
    var r := Place(b);
    forall m | m in b.world.models
      ensures m in r.world.models && AppendedTo(b.world.models[m], r.world.models[m], b.world.nextId)
    {
      assert r.world.models[m] == b.world.models[m];
      assert b.world.models[m].rows[..|b.world.models[m].rows|] == b.world.models[m].rows;
    }
  }

  /** What createItem guarantees under a well-behaved registry: the world only grew, and
      the new object sits under an identity that was fresh. */
  lemma CreateItemGrows(reg: Registry, w: World, name: string)
    requires Good(reg) && IdsBelow(w)
    ensures Grows(w, CreateItem(reg, w, name).world)
    ensures CreateItem(reg, w, name).item.None? ==> name !in reg
    ensures CreateItem(reg, w, name).item.Some? ==>
      var r := CreateItem(reg, w, name);
      match r.item.value
      case EntryItem(e) => w.nextId <= e && e in r.world.entries
      case ModelItem(m) => w.nextId <= m && m in r.world.models && r.world.models[m].rows == []
  {
    if name in reg {
      var b := reg[name](w);
      assert WellBehaved(reg[name]);
      assert Grows(w, b.world) && (b.product.ModelProduct? ==> b.product.model.rows == []);
      PlaceGrows(b);
      GrowsTransitive(w, b.world, Place(b).world);
    } else {
      GrowsReflexive(w);
    }
  }

  // ------------------------------------------------------------------ registry laws

  /** After registering `n`, creating `n` runs the new factory, and every other name
      creates exactly what it created before. */
  lemma RegisterThenCreate(reg: Registry, n: string, f: Factory, w: World, other: string)
    requires n !in reg && other != n
    ensures CreateItem(Register(reg, n, f), w, n) == Place(f(w))
    ensures CreateItem(Register(reg, n, f), w, n).item.Some?
    ensures CreateItem(Register(reg, n, f), w, other) == CreateItem(reg, w, other)
  {
  }

  /** An unregistered name yields none and leaves the world as it was, however often it
      is asked for. */
  lemma UnknownNameCreatesNothing(reg: Registry, w: World, n: string)
    requires n !in reg
    ensures CreateItem(reg, w, n) == Made(w, None)
    ensures CreateItem(reg, CreateItem(reg, w, n).world, n) == Made(w, None)
  {
  }
}
