/**
 * The interpreter's machine integers. `u8` and `u16` are bounded newtypes: an addition
 * or subtraction that leaves the range is an overflow, which panics in a debug build
 * of the interpreter, so Dafny asks for a proof at every such operation.
 */
module Words {
  newtype u8 = x: int | 0 <= x < 0x100
  newtype u16 = x: int | 0 <= x < 0x1_0000

  /** The cast `w as u8`: keeps the low eight bits of a 16-bit value. */
  function Truncate8(w: u16): u8
  {
    (w % 0x100) as u8
  }

  /** `(msb << 8) | lsb`: a 16-bit value with `hi` as its high byte. */
  function BigEndian(hi: u8, lo: u8): u16
  {
    (hi as int * 0x100 + lo as int) as u16
  }

  /** `((value >> 8) & 0xff) as u8` */
  function HighByte(w: u16): u8
  {
    (w / 0x100) as u8
  }

  /** `(value & 0xff) as u8` */
  function LowByte(w: u16): u8
  {
    (w % 0x100) as u8
  }

  /** Splitting a word into its bytes and joining them again gives the word back. */
  lemma JoinSplit(w: u16)
    ensures BigEndian(HighByte(w), LowByte(w)) == w
  {
  }

  /** Joining two bytes and splitting the word gives the two bytes back, high byte first. */
  lemma SplitJoin(hi: u8, lo: u8)
    ensures HighByte(BigEndian(hi, lo)) == hi && LowByte(BigEndian(hi, lo)) == lo
  {
  }
}
