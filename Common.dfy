/** Shared value types: optional values, results, and the JavaScript notions of
    truthiness and error rendering that every resolver relies on. */
module Common {

  datatype Option<+T> = None | Some(value: T)

  /** A resolver either returns a value or throws an Error carrying a message. */
  datatype Result<+T> = Ok(value: T) | Err(error: string)

  /** A string field that may be null/undefined is truthy in JavaScript exactly
      when it is present and non-empty. */
  predicate Truthy(s: Option<string>) {
    s.Some? && s.value != ""
  }

  /** Template-literal interpolation of a caught Error (`${error}`) renders it
      as "Error: <message>"; every `catch` that rethrows with a prefix does this. */
  function Rethrow(prefix: string, message: string): (r: string)
    ensures |r| == |prefix| + 7 + |message|
    ensures r[..|prefix|] == prefix && r[|r| - |message|..] == message
    ensures r[|prefix|..|prefix| + 7] == "Error: "
  {
    prefix + "Error: " + message
  }
}
