/**
 * The instruction decoder: a 16-bit word becomes an opcode nibble and up to three operands,
 * laid out by one of three fixed formats chosen by the opcode.
 */
module Decoder {
  import opened Wrappers
  import opened Words

  /** A decoded instruction. Operands a format does not use are `None`. */
  datatype Instruction = Instruction(opcode: u8, op1: Option<u16>, op2: Option<u16>, op3: Option<u16>)

  /** The operand formats: `nnn`, `x kk`, `x y n`, and none at all. */
  datatype Layout = Address | RegisterByte | RegistersNibble | NoOperands

  /** Which format each opcode nibble uses; 0x9 and values above 0xF have none. */
  function LayoutOf(opcode: u8): Layout
  {
    if opcode in {0x0, 0x1, 0x2, 0xA, 0xB} then Address
    else if opcode in {0x3, 0x4, 0x6, 0x7, 0xC, 0xE, 0xF} then RegisterByte
    else if opcode in {0x5, 0x8, 0xD} then RegistersNibble
    else NoOperands
  }

  /** An instruction whose operands are exactly those of its format, each within its field width. */
  predicate WellFormed(instr: Instruction)
  {
    instr.opcode < 0x10 &&
    match LayoutOf(instr.opcode)
    case Address =>
      instr.op1.Some? && instr.op1.value < 0x1000 && instr.op2 == None && instr.op3 == None
    case RegisterByte =>
      instr.op1.Some? && instr.op1.value < 0x10 && instr.op2.Some? && instr.op2.value < 0x100 && instr.op3 == None
    case RegistersNibble =>
      instr.op1.Some? && instr.op1.value < 0x10 && instr.op2.Some? && instr.op2.value < 0x10 &&
      instr.op3.Some? && instr.op3.value < 0x10
    case NoOperands =>
      instr.op1 == None && instr.op2 == None && instr.op3 == None
  }

  /**
   * Splits `raw` into fields. A right shift by `k` bits is a division by `2^k` and a mask
   * of the low `k` bits is the remainder modulo `2^k`.
   */
  function Decode(raw: u16): (instr: Instruction)
    ensures instr.opcode as int == raw as int / 0x1000
    ensures WellFormed(instr)
  {
    var opcode := (raw / 0x1000 % 0x10) as u8;
    match LayoutOf(opcode)
    case Address => Instruction(opcode, Some(raw % 0x1000), None, None)
    case RegisterByte => Instruction(opcode, Some(raw / 0x100 % 0x10), Some(raw % 0x100), None)
    case RegistersNibble =>
      Instruction(opcode, Some(raw / 0x100 % 0x10), Some(raw / 0x10 % 0x10), Some(raw % 0x10))
    case NoOperands => Instruction(opcode, None, None, None)
  }

  /** Puts the opcode and the operands an instruction carries back into one word. */
  function Encode(instr: Instruction): u16
    requires WellFormed(instr)
  {
    var top := instr.opcode as int * 0x1000;
    match LayoutOf(instr.opcode)
    case Address => (top + instr.op1.value as int) as u16
    case RegisterByte => (top + instr.op1.value as int * 0x100 + instr.op2.value as int) as u16
    case RegistersNibble =>
      (top + instr.op1.value as int * 0x100 + instr.op2.value as int * 0x10 + instr.op3.value as int) as u16
    case NoOperands => top as u16
  }

  /**
   * Quotient and remainder by a nibble place value are unique: `r == q * m + rem` with
   * `0 <= rem < m` fixes both.
   */
  lemma DivMod(r: int, m: int, q: int, rem: int)
    requires m == 0x10 || m == 0x100 || m == 0x1000
    requires 0 <= rem < m && r == q * m + rem
    ensures r / m == q && r % m == rem
  {
    // With `m` a literal in each branch the arithmetic is linear, which keeps the proof cheap.
    if m == 0x10 {
      assert r == q * 0x10 + rem;
    } else if m == 0x100 {
      assert r == q * 0x100 + rem;
    } else {
      assert r == q * 0x1000 + rem;
    }
  }

  /** The nibbles of a word built from four nibbles are those nibbles. */
  lemma Fields(a: int, b: int, c: int, d: int)
    requires 0 <= a < 0x10 && 0 <= b < 0x10 && 0 <= c < 0x10 && 0 <= d < 0x10
    ensures var r := a * 0x1000 + b * 0x100 + c * 0x10 + d;
      r / 0x1000 == a && r / 0x100 % 0x10 == b && r / 0x10 % 0x10 == c && r % 0x10 == d &&
      r % 0x1000 == b * 0x100 + c * 0x10 + d && r % 0x100 == c * 0x10 + d
  {
    var r := a * 0x1000 + b * 0x100 + c * 0x10 + d;
    DivMod(r, 0x1000, a, b * 0x100 + c * 0x10 + d);
    DivMod(r, 0x100, a * 0x10 + b, c * 0x10 + d);
    DivMod(a * 0x10 + b, 0x10, a, b);
    DivMod(r, 0x10, a * 0x100 + b * 0x10 + c, d);
    DivMod(a * 0x100 + b * 0x10 + c, 0x10, a * 0x10 + b, c);
  }

  /** A 16-bit word is the sum of its four nibbles, each in its place. */
  lemma Nibbles(r: int)
    requires 0 <= r < 0x1_0000
    ensures r % 0x100 == r / 0x10 % 0x10 * 0x10 + r % 0x10
    ensures r % 0x1000 == r / 0x100 % 0x10 * 0x100 + r % 0x100
    ensures r == r / 0x1000 * 0x1000 + r % 0x1000
    ensures r / 0x1000 < 0x10
  {
    var a, rest := r / 0x1000, r % 0x1000;
    var b, rest2 := rest / 0x100, rest % 0x100;
    var c, d := rest2 / 0x10, rest2 % 0x10;
    assert r == a * 0x1000 + b * 0x100 + c * 0x10 + d;
    Fields(a, b, c, d);
  }

  /** Every word whose opcode has a format is its opcode and operands put back together. */
  lemma EncodeDecode(raw: u16)
    requires LayoutOf(Decode(raw).opcode) != NoOperands
    ensures Encode(Decode(raw)) == raw
  {
    Nibbles(raw as int);
  }

  /** Decoding the encoding of a well-formed instruction gives that instruction back. */
  lemma DecodeEncode(instr: Instruction)
    requires WellFormed(instr)
    ensures Decode(Encode(instr)) == instr
  {
    var a := instr.opcode as int;
    match LayoutOf(instr.opcode)
    case Address =>
      var nnn := instr.op1.value as int;
      Fields(a, nnn / 0x100, nnn / 0x10 % 0x10, nnn % 0x10);
    case RegisterByte =>
      var kk := instr.op2.value as int;
      Fields(a, instr.op1.value as int, kk / 0x10, kk % 0x10);
    case RegistersNibble =>
      Fields(a, instr.op1.value as int, instr.op2.value as int, instr.op3.value as int);
    case NoOperands =>
      Fields(a, 0, 0, 0);
  }

  /** An opcode without a format keeps only the top nibble: the low twelve bits are lost. */
  lemma NoOperandsDropLowBits(raw: u16)
    requires LayoutOf(Decode(raw).opcode) == NoOperands
    ensures Decode(raw) == Decode(raw / 0x1000 * 0x1000)
    ensures Decode(raw).op1 == None && Decode(raw).op2 == None && Decode(raw).op3 == None
  {
    Nibbles(raw as int);
    Fields(raw as int / 0x1000, 0, 0, 0);
  }
}
