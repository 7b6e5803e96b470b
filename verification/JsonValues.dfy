/** Decoded JSON. Text is turned into it by a parser that this model takes as a parameter. */
module JsonValues {
  import opened Wrappers

  datatype Json =
    | Null
    | Boolean(flag: bool)
    | Number(digits: string)
    | Str(text: string)
    | Array(items: seq<Json>)
    | Object(fields: map<string, Json>)
  {
    /** Member lookup: none on anything but an object. */
    function Get(name: string): Option<Json> {
      if Object? && name in fields then Some(fields[name]) else None
    }
  }

  type JsonParser = string -> Option<Json>
}
