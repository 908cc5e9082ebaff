/** Types shared by every component of the model. */
module Prelude {

  /** One octet of a path, a pattern, a body or a printed address. */
  type byte = b: int | 0 <= b < 256

  type bytes = seq<byte>

  datatype Option<+T> = None | Some(value: T)

  const SLASH: byte := 47

  predicate EndsWith(s: bytes, t: bytes) {
    |t| <= |s| && s[|s| - |t|..] == t
  }

  /** The pieces between separators. */
  function Split(s: bytes, sep: byte): (r: seq<bytes>)
    ensures r != []
    ensures forall i | 0 <= i < |r| :: sep !in r[i]
    decreases |s|
  {
    if s == [] then [[]]
    else
      var rest := Split(s[1..], sep);
      if s[0] == sep then [[]] + rest
      else
        var first := [s[0]] + rest[0];
        [first] + rest[1..]
  }
}
