/** The QVariant conversions the serializer and the application rely on.

    Qt's own tables (type names, text forms, string-to-type conversion) are not part of
    this model: they are the fields of a `Conversions` record, total functions whose
    behaviour no lemma assumes unless it says so in its preconditions. Where a conversion
    of a value to its own type is exact in Qt (a bool read as a bool, a string read as a
    string), it is written out; other values go through the record.
 */
module Variant {
  import opened KVTypes

  datatype Conversions = Conversions(
    typeName: Value -> string,                  // QVariant::typeName
    toText: Value -> string,                    // QVariant::toString
    knownType: string -> bool,                  // QVariant::nameToType(name) != QVariant::Invalid
    convert: (string, string) -> Option<Value>, // QVariant(text).convert(type), none when it fails
    boolOf: Value -> bool,                      // QVariant::toBool for non-bool values
    dateOf: Value -> Option<int>,               // QVariant::toDateTime for non-date values; none = invalid
    uuidOf: Value -> string)                    // QVariant::toUuid().toString(QUuid::WithoutBraces) for
                                                // other values: a string holding uuid text converts too

  /** QVariant::toBool; an invalid value reads as false. */
  function ToBool(qt: Conversions, v: Value): (b: bool)
    ensures v.Bool? ==> b == v.b
    ensures v.Invalid? ==> !b
  {
    match v
    case Invalid => false
    case Bool(b) => b
    case _ => qt.boolOf(v)
  }

  /** QVariant::toString; an invalid value reads as the empty string. */
  function ToText(qt: Conversions, v: Value): (s: string)
    ensures v.Text? ==> s == v.s
    ensures v.Invalid? ==> s == ""
  {
    match v
    case Invalid => ""
    case Text(s) => s
    case _ => qt.toText(v)
  }

  /** QVariant::toDateTime, as seconds on a fixed clock; none is the invalid date, which
      is also what an invalid value reads as. */
  function ToDateTime(qt: Conversions, v: Value): (d: Option<int>)
    ensures v.DateTime? ==> d == Some(v.t)
    ensures v.Invalid? ==> d == None
  {
    match v
    case Invalid => None
    case DateTime(t) => Some(t)
    case _ => qt.dateOf(v)
  }

  /** The null uuid, as QUuid::toString without braces writes it. */
  const NullUuid: string := "00000000-0000-0000-0000-000000000000"

  /** QVariant::toUuid, written without braces; an invalid value reads as the null uuid,
      and every other value goes through the record. */
  function ToUuidText(qt: Conversions, v: Value): (s: string)
    ensures v.Uuid? ==> s == v.id
    ensures v.Invalid? ==> s == NullUuid
    ensures !v.Uuid? && !v.Invalid? ==> s == qt.uuidOf(v)
  {
    match v
    case Invalid => NullUuid
    case Uuid(id) => id
    case _ => qt.uuidOf(v)
  }

  /** The value holds an object pointer of some kind (canConvert<QObject*> or <void*>). */
  predicate IsPointer(v: Value) {
    v.ModelRef? || v.EntryRef? || v.ObjectRef?
  }

  /** The text form of a plain value reads back as that value through its own type name:
      the conversion law a lossless save and load needs. */
  predicate ReadsBack(qt: Conversions, v: Value) {
    !IsPointer(v) && qt.knownType(qt.typeName(v)) && qt.convert(qt.toText(v), qt.typeName(v)) == Some(v)
  }
}
