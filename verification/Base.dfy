/**
  Machine-width types and the error values shared by every layer of the tracker.
  Go strings are byte strings; a `string` here holds one character per byte.
 */
module Base {

  type byte = x: int | 0 <= x < 0x100
  type uint32 = x: int | 0 <= x < 0x1_0000_0000
  type uint64 = x: int | 0 <= x < 0x1_0000_0000_0000_0000

  /** Registers per sketch: 2 to the precision 14. */
  const NUM_REGS: nat := 16384

  datatype Option<+T> = None | Some(value: T)

  datatype Error =
    | ErrUnknownGroup
    | ErrAlgoMismatch
    | ErrNilSketch
    | ErrParse
    | ErrBadPayload
    | ErrUnknownCommand
    | ErrSave
    | ErrPropose
    | ErrInvalidArgument

  datatype Outcome = Ok | Err(error: Error)

  /** Go's conversion of a byte slice to a string. */
  function BytesToString(b: seq<byte>): (s: string)
  {
    seq(|b|, i requires 0 <= i < |b| => b[i] as char)
  }
}
