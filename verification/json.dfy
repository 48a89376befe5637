/** JSON values as the server handles them, and the JavaScript `JSON` library
    calls it makes, kept abstract.

    The server never inspects the shape of a task collection: it parses text,
    stores text and serialises values. So the value type only needs to be rich
    enough to tell values apart, and the three library calls are carried around
    as a `Codec` whose functions are left unconstrained. */
module Json {
  import opened Wrappers

  /** A JSON value. Object members are listed in the order they are
      serialised, since that order is visible in the text. */
  datatype Json =
    | Null
    | Bool(b: bool)
    | Num(n: real)
    | Str(s: string)
    | Arr(items: seq<Json>)
    | Obj(members: seq<(string, Json)>)

  /** The JavaScript library calls the server makes:
      `parse` is `JSON.parse` (None when it throws),
      `stringify` is `JSON.stringify(x)` (compact), and
      `pretty` is `JSON.stringify(x, null, 2)` (two-space indentation). */
  datatype Codec = Codec(
    parse: string -> Option<Json>,
    stringify: Json -> string,
    pretty: Json -> string)

  /** The empty object `{}`. */
  const EmptyObject: Json := Obj([])

  /** `text` is something the codec would read back as `v`. This is a property
      of one codec on one value, never assumed for all codecs. */
  ghost predicate ReadsBack(codec: Codec, text: string, v: Json) {
    codec.parse(text) == Some(v)
  }
}
