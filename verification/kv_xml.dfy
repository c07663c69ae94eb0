/** KVListSerializerXml over an abstract element tree.

    Writing turns a collection into a `KVListSerializerXml` root holding one `Model`
    element, which holds one `Entry` element per row, which holds one `Value` element per
    stored key; a value that is itself a collection nests another `Model` element.
    Reading walks such a tree back, creating every entry and collection through the
    factory registry, checking the version stamps, and skipping whatever it cannot
    decode. Loaded entries are appended after the rows a collection already has.

    Text I/O is not modelled: a document is the tree itself, and a file that cannot be
    opened or parsed is a missing tree.
 */
module KVXml {
  import opened KVTypes
  import opened Ordered
  import opened KVEntry
  import opened KVModel
  import opened KVRegistry
  import opened Variant
  import opened Versions

  /** A DOM node: an element with attributes and children, or a text node. */
  datatype Node =
    | Element(tag: string, attrs: map<string, string>, children: seq<Node>)
    | TextNode(text: string)

  const ContentTag: string := "KVListSerializerXml"
  const ModelTag: string := "Model"
  const EntryTag: string := "Entry"
  const ValueTag: string := "Value"
  const KeyAttr: string := "Key"
  const TypeAttr: string := "Type"
  const VersionAttr: string := "Version"
  const DateAttr: string := "Date"
  const ValueAttr: string := "Value"
  const IgnoreSuffix: string := "_noserialize"
  const IgnoreSuffix2: string := "_ns"

  /** The serializer's own format version. */
  const SerializerMajor: int := 1
  const SerializerMinor: int := 0

  // ------------------------------------------------------------------ tree access

  /** QDomElement::tagName; a text node has none. */
  function TagOf(n: Node): string {
    if n.Element? then n.tag else ""
  }

  /** QDomElement::attribute: the empty string when absent. */
  function Attr(n: Node, name: string): string {
    if n.Element? && name in n.attrs then n.attrs[name] else ""
  }

  function Size(n: Node): (s: nat)
    ensures s >= 1
    decreases n
  {
    match n
    case TextNode(_) => 1
    case Element(_, _, cs) => 1 + SizeAll(cs)
  }

  function SizeAll(ns: seq<Node>): nat
    decreases ns
  {
    if ns == [] then 0 else Size(ns[0]) + SizeAll(ns[1..])
  }

  function OptSize(n: Option<Node>): nat {
    if n.Some? then Size(n.value) else 0
  }

  /** firstChildElement: the first element among the nodes, if any. */
  function FirstElement(ns: seq<Node>): (r: Option<Node>)
    ensures r.Some? ==> r.value.Element? && r.value in ns && Size(r.value) <= SizeAll(ns)
    ensures r.None? <==> forall i :: 0 <= i < |ns| ==> !ns[i].Element?
    decreases |ns|
  {
    if ns == [] then None
    else if ns[0].Element? then Some(ns[0])
    else
      var r := FirstElement(ns[1..]);
      assert forall i :: 1 <= i < |ns| ==> ns[i] == ns[1..][i - 1];
      r
  }

  // ------------------------------------------------------------------ writing

  /** The role name a key is written under: the owning collection's role table, and the
      empty name for a key the table does not list. */
  function NameOf(names: map<Key, string>, k: Key): (s: string)
    ensures k in names ==> s == names[k]
    ensures k !in names ==> s == ""
  {
    if k in names then names[k] else ""
  }

  /** The write filter as coded: a name is written unless it ends in `_noserialize`, and
      a name ending in `_ns` is written in any case. */
  predicate WrittenName(name: string) {
    !EndsWith(name, IgnoreSuffix) || EndsWith(name, IgnoreSuffix2)
  }

  /** The read filter: names ending in either suffix are skipped. */
  predicate SkippedName(name: string) {
    EndsWith(name, IgnoreSuffix) || EndsWith(name, IgnoreSuffix2)
  }

  /** Every row of every collection is a live entry. */
  predicate LiveWorld(w: World) {
    forall m :: m in w.models ==> RowsLive(w, m)
  }

  /** The Value element of a plain value: its type name and its text. */
  function PlainNode(qt: Conversions, name: string, v: Value): Node {
    Element(ValueTag, map[KeyAttr := name, TypeAttr := qt.typeName(v), ValueAttr := qt.toText(v)], [])
  }

  /** serialize(document, key, value): a collection nests a Model element; any other
      pointer gives no element; a plain value gives its type name and text. Nesting is
      followed `fuel` levels deep; a deeper collection, or one that is not live, gives
      no element. */
  function SerializeValue(qt: Conversions, w: World, name: string, v: Value, fuel: nat): (r: Option<Node>)
    requires LiveWorld(w)
    ensures !IsPointer(v) ==> r == Some(PlainNode(qt, name, v))
    ensures v.EntryRef? || v.ObjectRef? ==> r.None?
    ensures r.Some? ==> TagOf(r.value) == ValueTag && Attr(r.value, KeyAttr) == name
    decreases fuel, 0, 0
  {
    match v
    case ModelRef(x) =>
      if fuel == 0 || x !in w.models then None
      else Some(Element(ValueTag, map[KeyAttr := name, TypeAttr := ModelTag], [SerializeModel(qt, w, x, fuel - 1)]))
    case EntryRef(_) => None
    case ObjectRef(_) => None
    case _ => Some(PlainNode(qt, name, v))
  }

  /** The Value elements of the listed keys, in order, under the write filter. */
  function SerializeKeys(qt: Conversions, w: World, names: map<Key, string>, ent: Entry, keys: seq<Key>, fuel: nat): seq<Node>
    requires LiveWorld(w)
    decreases fuel, 1, |keys|
  {
    if keys == [] then []
    else
      var name := NameOf(names, keys[0]);
      var here := if WrittenName(name) then SerializeValue(qt, w, name, GetValue(ent, keys[0]), fuel) else None;
      (if here.Some? then [here.value] else []) + SerializeKeys(qt, w, names, ent, keys[1..], fuel)
  }

  /** serialize(document, entry): the entry's class name and its stored values in
      ascending key order, named from the role table of its collection. */
  function SerializeEntry(qt: Conversions, w: World, names: map<Key, string>, ent: Entry, fuel: nat): Node
    requires LiveWorld(w)
    decreases fuel, 2, 0
  {
    Element(EntryTag, map[TypeAttr := ent.typeName], SerializeKeys(qt, w, names, ent, Keys(ent), fuel))
  }

  function SerializeRows(qt: Conversions, w: World, names: map<Key, string>, rows: seq<EntryId>, fuel: nat): (r: seq<Node>)
    requires LiveWorld(w)
    requires forall e :: e in rows ==> e in w.entries
    ensures |r| == |rows|
    ensures forall i :: 0 <= i < |rows| ==> r[i] == SerializeEntry(qt, w, names, w.entries[rows[i]], fuel)
    decreases fuel, 3, 0
  {
    seq(|rows|, i requires 0 <= i < |rows| => SerializeEntry(qt, w, names, w.entries[rows[i]], fuel))
  }

  /** serialize(document, model): the collection's class name and version, then one
      Entry element per row, in row order. */
  function SerializeModel(qt: Conversions, w: World, m: ModelId, fuel: nat): Node
    requires LiveWorld(w) && m in w.models
    decreases fuel, 4, 0
  {
    var c := w.models[m];
    Element(ModelTag, map[TypeAttr := c.typeName, VersionAttr := VersionText(c.versionMajor, c.versionMinor)],
            SerializeRows(qt, w, c.roleNames, c.rows, fuel))
  }

  /** serialize(model, filename): the document written, stamped with the serializer's
      version and the given date. */
  function SerializeDocument(qt: Conversions, w: World, m: ModelId, date: string, fuel: nat): Node
    requires LiveWorld(w) && m in w.models
  {
    Element(ContentTag, map[VersionAttr := VersionText(SerializerMajor, SerializerMinor), DateAttr := date],
            [SerializeModel(qt, w, m, fuel)])
  }

  // ------------------------------------------------------------------ reading

  /** What deserializeValue returns: a key (negative when the value is skipped) and the
      decoded value. */
  datatype Pair = Pair(world: World, key: Key, value: Value)

  datatype Collected = Collected(world: World, values: map<Key, Value>)

  datatype Loaded = Loaded(world: World, model: Option<ModelId>)

  datatype Filled = Filled(world: World, ok: bool)

  /** The version gate of a collection: the major and minor segment must both match. */
  predicate VersionMatches(version: seq<int>, major: int, minor: int) {
    Major(version) == major && Minor(version) == minor
  }

  /** getChildModel on the entry being loaded: the collection it holds under `k`, when that
      collection is live. */
  function LiveChild(w: World, ent: Entry, k: Key): (r: Option<ModelId>)
    ensures r.Some? ==> r.value in w.models && GetValue(ent, k) == ModelRef(r.value)
  {
    match GetChildModel(ent, k)
    case Some(x) => if x in w.models then Some(x) else None
    case None => None
  }

  /** Destroy a collection that was just created: it goes, and so do its rows. */
  function DropModel(w: World, x: ModelId): World
    requires x in w.models
  {
    var rows := w.models[x].rows;
    w.(models := w.models - {x}, entries := w.entries - set e | e in rows)
  }

  /** Destroy an entry that was just created. */
  function DropEntry(w: World, e: EntryId): World {
    w.(entries := w.entries - {e})
  }

  lemma DropFreshModel(w0: World, w: World, x: ModelId)
    requires IdsBelow(w0) && Grows(w0, w)
    requires x in w.models && x >= w0.nextId && w.models[x].rows == []
    ensures Grows(w0, DropModel(w, x))
  {
    var r := DropModel(w, x);
    assert (set e | e in w.models[x].rows) == {};
    assert r.entries == w.entries;
    forall m | m in w0.models
      ensures m in r.models && r.models[m] == w.models[m]
    {
      assert m < w0.nextId;
    }
  }

  lemma DropFreshEntry(w0: World, w: World, e: EntryId)
    requires IdsBelow(w0) && Grows(w0, w)
    requires e >= w0.nextId
    ensures Grows(w0, DropEntry(w, e))
  {
    forall x | x in w0.entries
      ensures x in DropEntry(w, e).entries
    {
      assert x < w0.nextId;
    }
  }

  /** Writing a fresh entry (one created after `w0`) keeps the world grown from `w0`. */
  lemma UpdateFreshEntry(w0: World, w: World, e: EntryId, ent: Entry)
    requires IdsBelow(w0) && Grows(w0, w)
    requires e in w.entries && e >= w0.nextId
    ensures Grows(w0, w.(entries := w.entries[e := ent]))
  {
    forall x | x in w0.entries
      ensures x != e
    {
      assert x < w0.nextId;
    }
  }

  /** Appending a fresh entry to any collection keeps the world grown from `w0`. */
  lemma AppendFreshGrows(w0: World, w: World, m: ModelId, e: EntryId)
    requires IdsBelow(w0) && Grows(w0, w)
    requires m in w.models && e in w.entries && e >= w0.nextId
    ensures Grows(w0, Append(w, m, Some(e)).world)
  {
    var r := Append(w, m, Some(e)).world;
    var rows := w.models[m].rows;
    assert r.models == w.models[m := w.models[m].(rows := rows + [e])] by {
      assert rows[..|rows|] + [e] + rows[|rows|..] == rows + [e];
    }
    forall x | x in w0.entries
      ensures x != e
    {
      assert x < w0.nextId;
    }
    forall x | x in w0.models
      ensures x in r.models && AppendedTo(w0.models[x], r.models[x], w0.nextId)
    {
      if x == m {
        var c0, c := w0.models[x], w.models[x];
        assert AppendedTo(c0, c, w0.nextId);
        assert (rows + [e])[..|c0.rows|] == rows[..|c0.rows|];
        forall i | |c0.rows| <= i < |rows| + 1
          ensures (rows + [e])[i] >= w0.nextId
        {
          if i < |rows| {
            assert (rows + [e])[i] == rows[i];
          }
        }
      }
    }
  }

  /** deserializeChildModel: the element must be a Model; an existing destination is
      reused when its class name matches, otherwise a collection of the named class is
      created through the registry. The collection is then filled; a created collection
      that cannot be filled is destroyed again. */
  function DecodeChildModel(reg: Registry, qt: Conversions, w: World, el: Option<Node>, dest: Option<ModelId>): (r: Loaded)
    requires Good(reg) && IdsBelow(w)
    requires dest.Some? ==> dest.value in w.models
    ensures Grows(w, r.world)
    ensures r.model.Some? ==> r.model.value in r.world.models
    ensures r.model.Some? ==> el.Some? && TagOf(el.value) == ModelTag
    ensures dest.Some? && r.model.Some? ==> r.model == dest
    ensures el.None? || TagOf(el.value) != ModelTag ==> r == Loaded(w, None)
    decreases OptSize(el), 3, 0
  {
    if el.None? || TagOf(el.value) != ModelTag then
      GrowsReflexive(w);
      Loaded(w, None)
    else
      match dest
      case Some(d) =>
        if Attr(el.value, TypeAttr) != w.models[d].typeName then
          GrowsReflexive(w);
          Loaded(w, None)
        else
          var f := DecodeModel(reg, qt, w, el.value, d);
          Loaded(f.world, if f.ok then Some(d) else None)
      case None =>
        var made := CreateItem(reg, w, Attr(el.value, TypeAttr));
        CreateItemGrows(reg, w, Attr(el.value, TypeAttr));
        match made.item
        case None => Loaded(made.world, None)
        case Some(EntryItem(e)) =>
          DropFreshEntry(w, made.world, e);
          Loaded(DropEntry(made.world, e), None)
        case Some(ModelItem(x)) =>
          var f := DecodeModel(reg, qt, made.world, el.value, x);
          GrowsTransitive(w, made.world, f.world);
          if f.ok then Loaded(f.world, Some(x))
          else
            DropFreshModel(w, f.world, x);
            Loaded(DropModel(f.world, x), None)
  }

  /** deserializeModel: the element must be a Model of the collection's class and version;
      then every decodable Entry element is appended, in document order, after the rows
      the collection already has. */
  function DecodeModel(reg: Registry, qt: Conversions, w: World, el: Node, m: ModelId): (r: Filled)
    requires Good(reg) && IdsBelow(w) && m in w.models
    ensures Grows(w, r.world)
    ensures r.ok <==>
      TagOf(el) == ModelTag && Attr(el, TypeAttr) == w.models[m].typeName &&
      VersionMatches(ParseVersion(Attr(el, VersionAttr)), w.models[m].versionMajor, w.models[m].versionMinor)
    ensures !r.ok ==> r.world == w
    decreases Size(el), 2, 0
  {
    var c := w.models[m];
    var version := ParseVersion(Attr(el, VersionAttr));
    if TagOf(el) != ModelTag || Attr(el, TypeAttr) != c.typeName ||
       !VersionMatches(version, c.versionMajor, c.versionMinor) then
      GrowsReflexive(w);
      Filled(w, false)
    else
      Filled(DecodeRows(reg, qt, w, el.children, m, version), true)
  }

  /** The loop of deserializeModel over the child nodes: elements only; each decoded
      entry is appended. */
  function DecodeRows(reg: Registry, qt: Conversions, w: World, nodes: seq<Node>, m: ModelId, version: seq<int>): (r: World)
    requires Good(reg) && IdsBelow(w) && m in w.models
    ensures Grows(w, r)
    decreases SizeAll(nodes), 1, 0
  {
    if nodes == [] then
      GrowsReflexive(w);
      w
    else if !nodes[0].Element? then
      DecodeRows(reg, qt, w, nodes[1..], m, version)
    else
      var d := DecodeEntry(reg, qt, w, nodes[0], m, version);
      match d.item
      case Some(EntryItem(e)) =>
        AppendFreshGrows(w, d.world, m, e);
        var w1 := Append(d.world, m, Some(e)).world;
        var rest := DecodeRows(reg, qt, w1, nodes[1..], m, version);
        GrowsTransitive(w, w1, rest);
        rest
      case _ =>
        var rest := DecodeRows(reg, qt, d.world, nodes[1..], m, version);
        GrowsTransitive(w, d.world, rest);
        rest
  }

  /** deserializeEntry: the element must be an Entry whose class the registry creates as
      an entry; its decodable values are collected into a map, a later value for the
      same key replacing an earlier one, and written by one setValues. */
  function DecodeEntry(reg: Registry, qt: Conversions, w: World, el: Node, m: ModelId, version: seq<int>): (r: Made)
    requires Good(reg) && IdsBelow(w) && m in w.models
    ensures Grows(w, r.world)
    ensures r.item.Some? ==>
      r.item.value.EntryItem? && r.item.value.entry >= w.nextId && r.item.value.entry in r.world.entries
    ensures TagOf(el) != EntryTag ==> r == Made(w, None)
    decreases Size(el), 0, 0
  {
    if TagOf(el) != EntryTag then
      GrowsReflexive(w);
      Made(w, None)
    else
      var made := CreateItem(reg, w, Attr(el, TypeAttr));
      CreateItemGrows(reg, w, Attr(el, TypeAttr));
      match made.item
      case None => Made(made.world, None)
      case Some(ModelItem(x)) =>
        DropFreshModel(w, made.world, x);
        Made(DropModel(made.world, x), None)
      case Some(EntryItem(e)) =>
        var col := DecodeValues(reg, qt, made.world, el.children, m, made.world.entries[e], version, map[]);
        GrowsTransitive(w, made.world, col.world);
        var written := SetValues(col.world.entries[e], col.values).entry;
        UpdateFreshEntry(w, col.world, e, written);
        Made(col.world.(entries := col.world.entries[e := written]), Some(EntryItem(e)))
  }

  /** The loop of deserializeEntry over the child nodes: elements only; every decoded
      pair with a non-negative key goes into the map. */
  function DecodeValues(reg: Registry, qt: Conversions, w: World, nodes: seq<Node>, m: ModelId, ent: Entry,
                        version: seq<int>, acc: map<Key, Value>): (r: Collected)
    requires Good(reg) && IdsBelow(w) && m in w.models
    ensures Grows(w, r.world)
    decreases SizeAll(nodes), 2, 0
  {
    if nodes == [] then
      GrowsReflexive(w);
      Collected(w, acc)
    else if !nodes[0].Element? then
      DecodeValues(reg, qt, w, nodes[1..], m, ent, version, acc)
    else
      var p := DecodeValue(reg, qt, w, nodes[0], m, ent, version);
      var rest := DecodeValues(reg, qt, p.world, nodes[1..], m, ent, version,
                               if p.key >= 0 then acc[p.key := p.value] else acc);
      GrowsTransitive(w, p.world, rest.world);
      rest
  }

  /** deserializeValue: skipped (a negative key) when the element is not a Value, when its
      name ends in either ignore suffix, when the name does not resolve at the model's
      version, when a nested collection cannot be loaded, when the type name is unknown,
      or when the text does not convert to it. */
  function DecodeValue(reg: Registry, qt: Conversions, w: World, el: Node, m: ModelId, ent: Entry,
                       version: seq<int>): (r: Pair)
    requires Good(reg) && IdsBelow(w) && m in w.models
    ensures Grows(w, r.world)
    ensures r.key >= 0 ==>
      TagOf(el) == ValueTag && !SkippedName(Attr(el, KeyAttr)) &&
      r.key == LookupKey(w.models[m], Attr(el, KeyAttr), version)
    ensures r.key >= 0 && Attr(el, TypeAttr) != ModelTag ==>
      r.world == w && qt.knownType(Attr(el, TypeAttr)) &&
      qt.convert(Attr(el, ValueAttr), Attr(el, TypeAttr)) == Some(r.value)
    ensures r.key >= 0 && Attr(el, TypeAttr) == ModelTag ==> r.value.ModelRef? && r.value.model in r.world.models
    ensures Attr(el, TypeAttr) != ModelTag ==> r.world == w
    decreases Size(el), 1, 0
  {
    var typeStr := Attr(el, TypeAttr);
    var keyStr := Attr(el, KeyAttr);
    var key := LookupKey(w.models[m], keyStr, version);
    if TagOf(el) != ValueTag || SkippedName(keyStr) || key < 0 then
      GrowsReflexive(w);
      Pair(w, -1, Invalid)
    else if typeStr == ModelTag then
      var loaded := DecodeChildModel(reg, qt, w, FirstElement(el.children), LiveChild(w, ent, key));
      match loaded.model
      case None => Pair(loaded.world, -1, Invalid)
      case Some(x) => Pair(loaded.world, key, ModelRef(x))
    else
      GrowsReflexive(w);
      if !qt.knownType(typeStr) then Pair(w, -1, Invalid)
      else
        match qt.convert(Attr(el, ValueAttr), typeStr)
        case None => Pair(w, -1, Invalid)
        case Some(v) => Pair(w, key, v)
  }

  // ------------------------------------------------------------------ whole documents

  /** The root checks shared by both loads: the first element must be the serializer's
      root tag and carry the serializer's version. */
  predicate RootAccepted(doc: seq<Node>) {
    var root := FirstElement(doc);
    root.Some? && TagOf(root.value) == ContentTag &&
    VersionMatches(ParseVersion(Attr(root.value, VersionAttr)), SerializerMajor, SerializerMinor)
  }

  /** The element the collection is read from: the root's first child element. */
  function Payload(doc: seq<Node>): Option<Node>
    requires RootAccepted(doc)
  {
    FirstElement(FirstElement(doc).value.children)
  }

  /** deserializeToNewModel: a missing document or a rejected root loads nothing;
      otherwise the payload is loaded as a new collection through the registry. */
  function DeserializeToNew(reg: Registry, qt: Conversions, w: World, doc: Option<seq<Node>>): (r: Loaded)
    requires Good(reg) && IdsBelow(w)
    ensures Grows(w, r.world)
    ensures doc.None? || !RootAccepted(doc.value) ==> r == Loaded(w, None)
    ensures r.model.Some? ==> r.model.value in r.world.models
  {
    if doc.None? || !RootAccepted(doc.value) then
      GrowsReflexive(w);
      Loaded(w, None)
    else DecodeChildModel(reg, qt, w, Payload(doc.value), None)
  }

  /** deserializeToExistingModel: a missing document or a rejected root fails with the
      collection untouched; otherwise the payload is loaded into the collection. */
  function DeserializeToExisting(reg: Registry, qt: Conversions, w: World, m: ModelId, doc: Option<seq<Node>>): (r: Filled)
    requires Good(reg) && IdsBelow(w) && m in w.models
    ensures Grows(w, r.world)
    ensures doc.None? || !RootAccepted(doc.value) ==> r == Filled(w, false)
    ensures !r.ok ==> r.world == w
  {
    if doc.None? || !RootAccepted(doc.value) then
      GrowsReflexive(w);
      Filled(w, false)
    else
      match Payload(doc.value)
      case None =>
        GrowsReflexive(w);
        Filled(w, false)
      case Some(el) => DecodeModel(reg, qt, w, el, m)
  }

  // ------------------------------------------------------------------ file dispatch

  /** Whether a path selects the XML serializer: only a non-empty path ending in `.xml`,
      in any letter case. */
  predicate IsXmlPath(path: string) {
    path != [] && EndsWithIgnoreCase(path, ".xml")
  }

  /** KVListModel::serialize(to): the document to write, or none when the path selects no
      serializer. */
  function Save(qt: Conversions, w: World, m: ModelId, path: string, date: string, fuel: nat): (r: Option<Node>)
    requires LiveWorld(w) && m in w.models
    ensures r.Some? <==> IsXmlPath(path)
  {
    if path == [] then None
    else if EndsWithIgnoreCase(path, ".xml") then Some(SerializeDocument(qt, w, m, date, fuel))
    else None
  }

  /** KVListModel::deSerialize(from): a path that selects no serializer fails untouched;
      otherwise the file's tree (none when it cannot be read) is loaded into the
      collection. */
  function Load(reg: Registry, qt: Conversions, w: World, m: ModelId, path: string,
                read: string -> Option<seq<Node>>): (r: Filled)
    requires Good(reg) && IdsBelow(w) && m in w.models
    ensures !IsXmlPath(path) ==> r == Filled(w, false)
    ensures Grows(w, r.world)
  {
    if path == [] then
      GrowsReflexive(w);
      Filled(w, false)
    else if EndsWithIgnoreCase(path, ".xml") then DeserializeToExisting(reg, qt, w, m, read(path))
    else
      GrowsReflexive(w);
      Filled(w, false)
  }

  /** The argument-less serialize(): the collection's stored file. */
  function SaveStored(qt: Conversions, w: World, m: ModelId, date: string, fuel: nat): (r: Option<Node>)
    requires LiveWorld(w) && m in w.models
    ensures r == Save(qt, w, m, w.models[m].serializationFile, date, fuel)
  {
    Save(qt, w, m, w.models[m].serializationFile, date, fuel)
  }

  /** The argument-less deSerialize(): the collection's stored file. */
  function LoadStored(reg: Registry, qt: Conversions, w: World, m: ModelId,
                      read: string -> Option<seq<Node>>): (r: Filled)
    requires Good(reg) && IdsBelow(w) && m in w.models
    ensures r == Load(reg, qt, w, m, w.models[m].serializationFile, read)
  {
    Load(reg, qt, w, m, w.models[m].serializationFile, read)
  }
}
