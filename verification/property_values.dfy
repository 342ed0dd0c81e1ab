/**
 * Serialized property values as the PHP code sees them after JSON decoding:
 * scalars, null, ordered PHP arrays (lists and string-keyed maps alike), and
 * opaque objects. Each property also carries its declared type, abstracted to
 * the classification the asset-usage extraction makes of it.
 */
module PropertyValues {

  import opened Wrappers

  datatype ArrayKey = IntKey(index: int) | StringKey(name: string)

  datatype ArrayEntry = ArrayEntry(key: ArrayKey, value: Value)

  /**
   * `Float` carries PHP's string rendering of the number (`(string) $float`),
   * so the numeric formatting itself stays outside the model.
   */
  datatype Value =
    | Str(s: string)
    | Int(i: int)
    | Float(rendered: string)
    | Bool(b: bool)
    | Null
    | Arr(entries: seq<ArrayEntry>)
    | Object(className: string)

  /** `$array[$key]` for a key that is present, `None` otherwise. */
  function Lookup(entries: seq<ArrayEntry>, key: ArrayKey): Option<Value>
    decreases |entries|
  {
    if |entries| == 0 then None
    else if entries[0].key == key then Some(entries[0].value)
    else Lookup(entries[1..], key)
  }

  /**
   * The declared type of a property, as classified by `is_subclass_of` and
   * `TypeHandling::parseType`:
   * - `StringType` is the literal type name `string`;
   * - `StringableClass` / `ResourceBasedClass` are class names implementing
   *   `\Stringable` / `ResourceBasedInterface` (the first check wins);
   * - `CollectionType` is a type the parser reads with an element type;
   * - `PlainType` is any other type the parser reads without an element type;
   * - `UnparsableType` is a type name the parser rejects.
   */
  datatype PropertyType =
    | StringType
    | StringableClass
    | ResourceBasedClass
    | CollectionType(elementType: PropertyType)
    | PlainType
    | UnparsableType

  datatype SerializedPropertyValue = SerializedPropertyValue(value: Value, propertyType: PropertyType)

  datatype SerializedProperty = SerializedProperty(name: string, serialized: SerializedPropertyValue)

  /** A node's serialized properties in iteration order; PHP keys them by name. */
  type SerializedPropertyValues = seq<SerializedProperty>

  function PropertyNames(properties: SerializedPropertyValues): set<string>
    decreases |properties|
  {
    if |properties| == 0 then {} else {properties[0].name} + PropertyNames(properties[1..])
  }

  /** A name is among the property names exactly when some property carries it. */
  lemma {:induction false} PropertyNamesAreTheNamesCarried(properties: SerializedPropertyValues, name: string)
    ensures name in PropertyNames(properties) <==> exists k :: 0 <= k < |properties| && properties[k].name == name
    decreases |properties|
  {
    if |properties| > 0 {
      PropertyNamesAreTheNamesCarried(properties[1..], name);
      if name in PropertyNames(properties[1..]) {
        var k :| 0 <= k < |properties[1..]| && properties[1..][k].name == name;
        assert properties[k + 1].name == name;
      }
      if exists k :: 0 <= k < |properties| && properties[k].name == name {
        var k :| 0 <= k < |properties| && properties[k].name == name;
        if k > 0 {
          assert properties[1..][k - 1].name == name;
        }
      }
    }
  }

  predicate UniqueNames(properties: SerializedPropertyValues) {
    forall j, k :: 0 <= j < k < |properties| ==> properties[j].name != properties[k].name
  }
}
