/**
 * The machine as a value and the effect of one instruction on it. `Exec` follows the arms of
 * the interpreter's `execute` that are implemented; the imperative emulator is proved to
 * change its state exactly as `Exec` says.
 */
module Semantics {
  import opened Wrappers
  import opened Words
  import opened Decoder
  import opened Display

  const MEM_SIZE: nat := 4096
  const DISP_SIZE: nat := 256
  const REG_COUNT: nat := 16
  const PROGRAM_START: u16 := 0x200
  /** VF, the register that receives the collision flag. */
  const FLAG: u16 := 0xF
  /** The sprite buffer of the draw arm holds fifteen rows. */
  const SPRITE_CAPACITY: nat := 15

  /** The built-in hexadecimal glyphs, five bytes each, for the digits 0 to F in order. */
  const FONT: seq<u8> := [
    0xF0, 0x90, 0x90, 0x90, 0xF0, // 0
    0x20, 0x60, 0x20, 0x20, 0x70, // 1
    0xF0, 0x10, 0xF0, 0x80, 0xF0, // 2
    0xF0, 0x10, 0xF0, 0x10, 0xF0, // 3
    0x90, 0x90, 0xF0, 0x10, 0x10, // 4
    0xF0, 0x80, 0xF0, 0x10, 0xF0, // 5
    0xF0, 0x80, 0xF0, 0x90, 0xF0, // 6
    0xF0, 0x10, 0x20, 0x40, 0x40, // 7
    0xF0, 0x90, 0xF0, 0x90, 0xF0, // 8
    0xF0, 0x90, 0xF0, 0x10, 0xF0, // 9
    0xF0, 0x90, 0xF0, 0x90, 0x90, // A
    0xE0, 0x90, 0xE0, 0x90, 0xE0, // B
    0xF0, 0x80, 0x80, 0x80, 0xF0, // C
    0xE0, 0x90, 0x90, 0x90, 0xE0, // D
    0xF0, 0x80, 0xF0, 0x80, 0xF0, // E
    0xF0, 0x80, 0xF0, 0x80, 0x80  // F
  ]

  /** The power-on memory image: the font at address 0 and zero everywhere else. */
  function InitFont(): (mem: seq<u8>)
    ensures |mem| == MEM_SIZE && |FONT| == 80
    ensures mem[..|FONT|] == FONT
    ensures forall k :: |FONT| <= k < MEM_SIZE ==> mem[k] == 0
  {
    FONT + seq(MEM_SIZE - |FONT|, _ => 0)
  }

  /** The state the implemented opcodes read and write. The timers are not among it. */
  datatype Machine = Machine(
    mem: seq<u8>,
    disp: seq<bv8>,
    pc: u16,
    idx: u16,
    reg: seq<u8>,
    stack: seq<u16>)

  predicate Sized(m: Machine)
  {
    |m.mem| == MEM_SIZE && |m.disp| == DISP_SIZE && |m.reg| == REG_COUNT
  }

  /** Opcodes whose arm is `todo!()`: executing one panics. */
  predicate Unimplemented(opcode: u8)
  {
    opcode in {0x8, 0x9, 0xB, 0xC, 0xE, 0xF}
  }

  /** The byte of the display a sprite at register values `vx`, `vy` starts at (row stride `vy * 32`). */
  function DrawIndex(vx: u8, vy: u8): nat
  {
    (vx as int + vy as int * 32) / 8
  }

  /** The `n` sprite bytes at `idx`, as the draw arm copies them out of memory. */
  function SpriteRows(mem: seq<u8>, idx: u16, n: nat): (rows: seq<bv8>)
    requires n > 0 ==> idx as int + n <= |mem|
    ensures |rows| == n
    ensures forall j :: 0 <= j < n ==> rows[j] == mem[idx as int + j] as bv8
  {
    seq(n, j requires 0 <= j < n => mem[idx as int + j] as bv8)
  }

  /** The draw arm does not index out of bounds: `n` fits the sprite buffer, memory and display. */
  predicate DrawFits(m: Machine, x: u16, y: u16, n: u16)
    requires Sized(m) && x < 16 && y < 16
  {
    var rows := Truncate8(n) as nat;
    rows <= SPRITE_CAPACITY &&
    (rows > 0 ==> m.idx as int + rows <= MEM_SIZE && DrawIndex(m.reg[x], m.reg[y]) + rows <= DISP_SIZE)
  }

  /**
   * Running `instr` on `m` does not panic: its opcode is implemented, register operands index
   * the register file, a skip does not push `pc` past 0xFFFF, `7xkk` does not overflow its
   * register, and a draw stays inside its buffers.
   */
  predicate CanExec(m: Machine, instr: Instruction)
  {
    var op, op1, op2, op3 := instr.opcode, instr.op1, instr.op2, instr.op3;
    Sized(m) && !Unimplemented(op) &&
    (op in {0x3, 0x4, 0x6, 0x7} && op1.Some? && op2.Some? ==> op1.value < 16) &&
    (op == 0x5 && op1.Some? && op2.Some? ==> op1.value < 16 && op2.value < 16) &&
    (op == 0xD && op1.Some? && op2.Some? && op3.Some? ==> op1.value < 16 && op2.value < 16) &&
    (op == 0x3 && op1.Some? && op2.Some? && op1.value < 16 && m.reg[op1.value] == Truncate8(op2.value) ==>
       m.pc as int + 2 < 0x1_0000) &&
    (op == 0x4 && op1.Some? && op2.Some? && op1.value < 16 && m.reg[op1.value] != Truncate8(op2.value) ==>
       m.pc as int + 2 < 0x1_0000) &&
    (op == 0x5 && op1.Some? && op2.Some? && op1.value < 16 && op2.value < 16 && m.reg[op1.value] == m.reg[op2.value] ==>
       m.pc as int + 2 < 0x1_0000) &&
    (op == 0x7 && op1.Some? && op2.Some? && op1.value < 16 ==>
       m.reg[op1.value] as int + Truncate8(op2.value) as int < 0x100) &&
    (op == 0xD && op1.Some? && op2.Some? && op3.Some? && op1.value < 16 && op2.value < 16 ==>
       DrawFits(m, op1.value, op2.value, op3.value))
  }

  /**
   * The effect of one instruction. An arm whose operands are missing, an unknown `0nnn`, and an
   * opcode value above 0xF print a diagnostic in the interpreter and change nothing here.
   */
  function Exec(m: Machine, instr: Instruction): (r: Machine)
    requires CanExec(m, instr)
    ensures Sized(r) && r.mem == m.mem
    ensures r.idx != m.idx ==> instr.opcode == 0xA
    ensures r.stack != m.stack ==> instr.opcode == 0x2 || (instr.opcode == 0x0 && instr.op1 == Some(0x0EE))
    ensures r.disp != m.disp ==> instr.opcode == 0xD || (instr.opcode == 0x0 && instr.op1 == Some(0x0E0))
    ensures r.reg != m.reg ==> instr.opcode in {0x6, 0x7, 0xD}
  {
    var op, op1, op2, op3 := instr.opcode, instr.op1, instr.op2, instr.op3;
    if op == 0x0 then
      if op1 == Some(0x0E0) then m.(disp := seq(DISP_SIZE, _ => 0))
      else if op1 == Some(0x0EE) then
        if m.stack == [] then m else m.(pc := m.stack[0], stack := m.stack[1..])
      else m
    else if op == 0x1 then
      if op1.Some? then m.(pc := op1.value) else m
    else if op == 0x2 then
      if op1.Some? then m.(stack := [m.pc] + m.stack, pc := op1.value) else m
    else if op == 0x3 then
      if op1.Some? && op2.Some? && m.reg[op1.value] == Truncate8(op2.value) then m.(pc := m.pc + 2) else m
    else if op == 0x4 then
      if op1.Some? && op2.Some? && m.reg[op1.value] != Truncate8(op2.value) then m.(pc := m.pc + 2) else m
    else if op == 0x5 then
      if op1.Some? && op2.Some? && m.reg[op1.value] == m.reg[op2.value] then m.(pc := m.pc + 2) else m
    else if op == 0x6 then
      if op1.Some? && op2.Some? then m.(reg := m.reg[op1.value := Truncate8(op2.value)]) else m
    else if op == 0x7 then
      if op1.Some? && op2.Some? then m.(reg := m.reg[op1.value := m.reg[op1.value] + Truncate8(op2.value)]) else m
    else if op == 0xA then
      if op1.Some? then m.(idx := op1.value) else m
    else if op == 0xD then
      if op1.Some? && op2.Some? && op3.Some? then
        var index := DrawIndex(m.reg[op1.value], m.reg[op2.value]);
        var rows := SpriteRows(m.mem, m.idx, Truncate8(op3.value) as nat);
        m.(disp := Blit(m.disp, rows, index, |rows|),
            reg := m.reg[FLAG := if Collides(m.disp, rows, index, |rows|) then 1 else 0])
      else m
    else
      m
  }

  /** The word at `pc`, high byte first. */
  function Fetched(m: Machine): u16
    requires Sized(m) && m.pc as int + 1 < MEM_SIZE
  {
    BigEndian(m.mem[m.pc], m.mem[m.pc + 1])
  }

  predicate CanStep(m: Machine)
  {
    Sized(m) && m.pc as int + 1 < MEM_SIZE && CanExec(m.(pc := m.pc + 2), Decode(Fetched(m)))
  }

  /** One fetch, decode and execute: the word at `pc` is executed with `pc` already past it. */
  function Step(m: Machine): (r: Machine)
    requires CanStep(m)
    ensures Sized(r) && r.mem == m.mem
  {
    Exec(m.(pc := m.pc + 2), Decode(Fetched(m)))
  }
}
