/** Values of unknown shape, as claims and attributes carry them. */
module JsonValues {

  datatype Json =
    | Null
    | Bool(b: bool)
    | Number(n: real)
    | Str(text: string)
    | List(items: seq<Json>)
    | Object(fields: map<string, Json>)

  /** The list under a field of an object, if that is what is there. */
  function ListField(value: Json, field: string): seq<Json> {
    if value.Object? && field in value.fields && value.fields[field].List? then value.fields[field].items else []
  }

  function ItemsOf(value: Json): seq<Json> {
    if value.List? then value.items else []
  }
}
