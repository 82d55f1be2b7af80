/** Octets, references and errors shared by every part of the model. */
module Types {
  type byte = x: int | 0 <= x < 0x100
  type u16 = x: int | 0 <= x < 0x1_0000
  type u32 = x: int | 0 <= x < 0x1_0000_0000
  type bytes = seq<byte>

  datatype Option<+T> = None | Some(value: T)

  /** What errors.Is can find in an error value. A `%w` keeps the marks of what it wraps, a `%v` drops them. */
  datatype Mark =
    | TooShort | InvalidLI | LengthMismatch | InvalidTPDUCode | ReservedTPDU
    | MalformedParameter | UnexpectedParameterLength | UnsupportedDTVariant
    | InvalidEDUserDataLength | MissingRequiredField
    | InvalidConfig | Handshake | EmptyTSDU | TSDUTooLarge | Closed | Disconnected
    | ConnectionRefused | UnexpectedTPDU | IncompleteTSDU
    | Canceled | DeadlineExceeded | Eof | UnexpectedEof | Framing

  type Error = set<Mark>

  datatype Result<+T> = Ok(value: T) | Err(error: Error) {
    predicate IsFailure() { Err? }

    function PropagateFailure<U>(): Result<U>
      requires Err?
    {
      Err(error)
    }

    function Extract(): T
      requires Ok?
    {
      value
    }
  }

  function Min(a: int, b: int): int { if a < b then a else b }

  /** Big-endian 16-bit field, as encoding/binary writes it. */
  function Be16(x: u16): bytes { [x / 0x100, x % 0x100] }

  function FromBe16(hi: byte, lo: byte): u16 { 0x100 * hi + lo }

  lemma Be16Inverse(x: u16, hi: byte, lo: byte)
    ensures FromBe16(Be16(x)[0], Be16(x)[1]) == x
    ensures Be16(FromBe16(hi, lo)) == [hi, lo]
  {
  }
}
