/** Values that cross the controller's boundaries: bytes of the TCP stream,
    decoded JSON documents, what a capability module exposes by name, and the
    JSON library the connection loop relies on. */
module Values {

  /** One octet of the TCP stream. */
  type byte = bv8

  datatype Option<+T> = None | Some(value: T)

  datatype Result<+T, +E> = Success(value: T) | Failure(error: E)

  /** A JSON document as json.loads returns it. An object is a dictionary, so
      each key appears once; numbers are integers. */
  datatype Json =
    | Null
    | Bool(b: bool)
    | Num(n: int)
    | Str(s: string)
    | Arr(items: seq<Json>)
    | Obj(fields: map<string, Json>)

  /** What getattr finds on a capability module under a given name: a bound
      method taking `arity` positional arguments besides self and returning
      `result`, or a plain data attribute holding `value`. */
  datatype Attribute = Operation(arity: nat, result: Json) | Field(value: Json)

  /** The json library as the connection loop uses it. `loads` is
      bytes.decode() followed by json.loads, None when either raises; `dumps`
      is json.dumps followed by str.encode('utf-8'). */
  datatype JsonLibrary = JsonLibrary(loads: seq<byte> -> Option<Json>, dumps: Json -> seq<byte>)

  /** json.dumps escapes every control character, so the text it produces
      never holds a NUL byte. */
  ghost predicate SentinelFree(json: JsonLibrary) {
    forall j :: 0 !in json.dumps(j)
  }
}
