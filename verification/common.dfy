/** Shared vocabulary: bytes, optional values and the Python exceptions the
    modelled code can raise, turned into ordinary result values. */
module Common {

  /** One octet on the serial line (`ord(c)` of a byte read, or a `bytearray` element). */
  type uint8 = x: int | 0 <= x < 256

  /** Python's `None` or a value. */
  datatype Option<+T> = None | Some(value: T)

  /** The exceptions the modelled code raises; each one ends the caller's loop. */
  datatype PyError =
    | ValueError      // int() of a malformed string, or a malformed tagged packet
    | TypeError       // an operator applied to a float where Python needs an int
    | IndexError      // a list index past the end of a response frame
    | NoResponse      // `Exception('LWNX command failed to receive a response.')`
    | InvalidArgument // `Exception('Invalid update rate value.')`

  datatype Result<+T> = Ok(value: T) | Err(error: PyError)

  /** True when every element of `s` is a byte. */
  predicate AllBytes(s: seq<int>)
  {
    forall i :: 0 <= i < |s| ==> 0 <= s[i] < 256
  }
}
