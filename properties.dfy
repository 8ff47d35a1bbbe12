/**
 * What each implemented opcode does to the machine, stated against `Exec`, and the
 * fetch-decode-execute scenarios of a few short programs.
 */
module Properties {
  import opened Wrappers
  import opened Words
  import opened Decoder
  import opened Display
  import opened Semantics

  const CLEAR := Instruction(0x0, Some(0x0E0), None, None)
  const RETURN := Instruction(0x0, Some(0x0EE), None, None)

  /** 00E0 turns every display byte to zero and changes nothing else. */
  lemma ClearEffect(m: Machine)
    requires Sized(m)
    ensures CanExec(m, CLEAR)
    ensures var r := Exec(m, CLEAR);
      (forall k :: 0 <= k < DISP_SIZE ==> r.disp[k] == 0) && r == m.(disp := r.disp)
  {
  }

  /**
   * 00EE pops the return address into `pc`; on an empty stack it leaves `pc` and the stack
   * as they were (the interpreter only prints an error).
   */
  lemma ReturnEffect(m: Machine)
    requires Sized(m)
    ensures CanExec(m, RETURN)
    ensures m.stack == [] ==> Exec(m, RETURN) == m
    ensures m.stack != [] ==> Exec(m, RETURN) == m.(pc := m.stack[0], stack := m.stack[1..])
  {
  }

  /** Any other 0nnn, and an opcode value above 0xF, change nothing. */
  lemma IgnoredInstructions(m: Machine, instr: Instruction)
    requires Sized(m)
    requires (instr.opcode == 0x0 && instr.op1 != Some(0x0E0) && instr.op1 != Some(0x0EE)) || instr.opcode > 0xF
    ensures CanExec(m, instr) && Exec(m, instr) == m
  {
  }

  /** 1nnn sets `pc` to `nnn`; 2nnn first pushes the current `pc`, already past the call, and then does the same. */
  lemma JumpAndCallEffect(m: Machine, target: u16)
    requires Sized(m)
    ensures CanExec(m, Instruction(0x1, Some(target), None, None))
    ensures Exec(m, Instruction(0x1, Some(target), None, None)) == m.(pc := target)
    ensures CanExec(m, Instruction(0x2, Some(target), None, None))
    ensures Exec(m, Instruction(0x2, Some(target), None, None)) == m.(pc := target, stack := [m.pc] + m.stack)
  {
  }

  /**
   * A call followed, at any later state with the same stack, by a return resumes at the
   * address after the call and leaves the stack as it was before the call.
   */
  lemma CallThenReturn(m: Machine, target: u16, later: Machine)
    requires Sized(m) && Sized(later)
    requires later.stack == Exec(m, Instruction(0x2, Some(target), None, None)).stack
    ensures Exec(later, RETURN).pc == m.pc && Exec(later, RETURN).stack == m.stack
  {
    JumpAndCallEffect(m, target);
    ReturnEffect(later);
  }

  /** The condition under which 3xkk, 4xkk and 5xy_ skip the next instruction. */
  predicate SkipTaken(m: Machine, instr: Instruction)
    requires Sized(m) && instr.opcode in {0x3, 0x4, 0x5}
    requires instr.op1.Some? && instr.op2.Some? && instr.op1.value < 16
    requires instr.opcode == 0x5 ==> instr.op2.value < 16
  {
    var vx := m.reg[instr.op1.value];
    match instr.opcode
    case 0x3 => vx == Truncate8(instr.op2.value)
    case 0x4 => vx != Truncate8(instr.op2.value)
    case _ => vx == m.reg[instr.op2.value]
  }

  /** A skip adds exactly two to `pc` when its condition holds, and otherwise changes nothing. */
  lemma SkipEffect(m: Machine, instr: Instruction)
    requires CanExec(m, instr) && instr.opcode in {0x3, 0x4, 0x5} && instr.op1.Some? && instr.op2.Some?
    ensures SkipTaken(m, instr) ==> Exec(m, instr).pc as int == m.pc as int + 2
    ensures !SkipTaken(m, instr) ==> Exec(m, instr).pc == m.pc
    ensures Exec(m, instr) == m.(pc := Exec(m, instr).pc)
  {
  }

  /** 6xkk puts the low byte of `kk` into Vx; 7xkk adds it to Vx. Nothing else changes. */
  lemma LoadAndAddEffect(m: Machine, x: u16, kk: u16)
    requires Sized(m) && x < 16
    ensures CanExec(m, Instruction(0x6, Some(x), Some(kk), None))
    ensures var r := Exec(m, Instruction(0x6, Some(x), Some(kk), None));
      r.reg[x] as int == kk as int % 0x100 && r == m.(reg := m.reg[x := r.reg[x]])
    ensures m.reg[x] as int + kk as int % 0x100 < 0x100 ==>
      CanExec(m, Instruction(0x7, Some(x), Some(kk), None)) &&
      var r := Exec(m, Instruction(0x7, Some(x), Some(kk), None));
      r.reg[x] as int == m.reg[x] as int + kk as int % 0x100 && r == m.(reg := m.reg[x := r.reg[x]])
  {
  }

  /** Annn sets the index register to `nnn` and changes nothing else. */
  lemma SetIndexEffect(m: Machine, target: u16)
    requires Sized(m)
    ensures CanExec(m, Instruction(0xA, Some(target), None, None))
    ensures Exec(m, Instruction(0xA, Some(target), None, None)) == m.(idx := target)
  {
  }

  /** The machine Dxyn leaves: the blit of the sprite rows and the collision flag in VF. */
  lemma DrawResult(m: Machine, x: u16, y: u16, n: u16)
    requires CanExec(m, Instruction(0xD, Some(x), Some(y), Some(n))) && x < 16 && y < 16
    ensures var index := DrawIndex(m.reg[x], m.reg[y]);
      var rows := SpriteRows(m.mem, m.idx, Truncate8(n) as nat);
      Exec(m, Instruction(0xD, Some(x), Some(y), Some(n))) ==
        m.(disp := Blit(m.disp, rows, index, |rows|),
           reg := m.reg[FLAG := if Collides(m.disp, rows, index, |rows|) then 1 else 0])
  {
  }

  /**
   * Dxyn XORs the `n` bytes at `idx` into the display bytes from `(Vx + Vy * 32) / 8` on and
   * leaves every other display byte, every register but VF, memory, `pc`, `idx` and the stack alone.
   */
  lemma {:induction false} DrawDisplayEffect(m: Machine, x: u16, y: u16, n: u16)
    requires CanExec(m, Instruction(0xD, Some(x), Some(y), Some(n))) && x < 16 && y < 16
    ensures var r := Exec(m, Instruction(0xD, Some(x), Some(y), Some(n)));
      var index := DrawIndex(m.reg[x], m.reg[y]);
      var rows := SpriteRows(m.mem, m.idx, Truncate8(n) as nat);
      (forall k :: 0 <= k < DISP_SIZE ==>
         r.disp[k] == if index <= k < index + |rows| then rows[k - index] ^ m.disp[k] else m.disp[k]) &&
      (forall k :: 0 <= k < REG_COUNT && k != FLAG as int ==> r.reg[k] == m.reg[k]) &&
      r.mem == m.mem && r.pc == m.pc && r.idx == m.idx && r.stack == m.stack
  {
    var index := DrawIndex(m.reg[x], m.reg[y]);
    var rows := SpriteRows(m.mem, m.idx, Truncate8(n) as nat);
    var r := Exec(m, Instruction(0xD, Some(x), Some(y), Some(n)));
    DrawResult(m, x, y, n);
    var blit := Blit(m.disp, rows, index, |rows|);
    assert r.disp == blit;
    forall k | 0 <= k < DISP_SIZE
      ensures blit[k] == if index <= k < index + |rows| then rows[k - index] ^ m.disp[k] else m.disp[k]
    {
      BlitAt(m.disp, rows, index, |rows|, k);
    }
    assert r.reg == m.reg[FLAG := r.reg[FLAG]];
  }

  /**
   * Dxyn sets VF to 1 exactly when some sprite byte has a bit set over a pixel that was off
   * (a pixel turned on), and to 0 otherwise.
   */
  lemma {:induction false} DrawFlagEffect(m: Machine, x: u16, y: u16, n: u16)
    requires CanExec(m, Instruction(0xD, Some(x), Some(y), Some(n))) && x < 16 && y < 16
    ensures var r := Exec(m, Instruction(0xD, Some(x), Some(y), Some(n)));
      var index := DrawIndex(m.reg[x], m.reg[y]);
      var rows := SpriteRows(m.mem, m.idx, Truncate8(n) as nat);
      (r.reg[FLAG] == 0 || r.reg[FLAG] == 1) &&
      (r.reg[FLAG] == 1 <==> exists j :: 0 <= j < |rows| && TurnsPixelOn(rows[j], m.disp[index + j]))
  {
    var index := DrawIndex(m.reg[x], m.reg[y]);
    var rows := SpriteRows(m.mem, m.idx, Truncate8(n) as nat);
    DrawResult(m, x, y, n);
    if rows != [] {
      CollidesIff(m.disp, rows, index, |rows|);
      forall j | 0 <= j < |rows|
        ensures RowHits(m.disp, rows, index, j) <==> TurnsPixelOn(rows[j], m.disp[index + j])
      {
        RowSetsFlagMeansPixelOn(m.disp[index + j], rows[j]);
      }
    }
  }

  /** An instruction that lacks an operand its arm matches on changes nothing. */
  lemma MissingOperandsChangeNothing(m: Machine, instr: Instruction)
    requires CanExec(m, instr)
    requires instr.opcode in {0x0, 0x1, 0x2, 0xA} ==> instr.op1 == None
    requires instr.opcode in {0x3, 0x4, 0x5, 0x6, 0x7} ==> instr.op1 == None || instr.op2 == None
    requires instr.opcode == 0xD ==> instr.op1 == None || instr.op2 == None || instr.op3 == None
    ensures Exec(m, instr) == m
  {
  }

  /** Program `00 E0` at 0x200: one cycle clears the display and leaves `pc` at 0x202. */
  lemma ClearScenario(m: Machine)
    requires Sized(m) && m.pc == PROGRAM_START && m.mem[0x200] == 0x00 && m.mem[0x201] == 0xE0
    ensures CanStep(m)
    ensures (forall k :: 0 <= k < DISP_SIZE ==> Step(m).disp[k] == 0) && Step(m).pc == 0x202
  {
    assert Fetched(m) == 0x00E0;
  }

  /** Program `60 05 70 03`: two cycles leave 8 in V0 and `pc` at 0x204. */
  lemma LoadAddScenario(m: Machine)
    requires Sized(m) && m.pc == PROGRAM_START
    requires m.mem[0x200] == 0x60 && m.mem[0x201] == 0x05 && m.mem[0x202] == 0x70 && m.mem[0x203] == 0x03
    ensures CanStep(m) && CanStep(Step(m))
    ensures Step(Step(m)).reg[0] == 8 && Step(Step(m)).pc == 0x204
  {
    assert Fetched(m) == 0x6005;
    var m1 := Step(m);
    assert m1.pc == 0x202 && m1.reg[0] == 5 && m1.mem == m.mem;
    assert Fetched(m1) == 0x7003;
  }

  /** Program `A2 0A`: one cycle sets the index register to 0x20A. */
  lemma SetIndexScenario(m: Machine)
    requires Sized(m) && m.pc == PROGRAM_START && m.mem[0x200] == 0xA2 && m.mem[0x201] == 0x0A
    ensures CanStep(m) && Step(m).idx == 0x20A && Step(m).pc == 0x202
  {
    assert Fetched(m) == 0xA20A;
  }

  /** `23 00` at 0x200 calls 0x300, where `00 EE` returns: after two cycles `pc` is 0x202, after the call. */
  lemma CallReturnScenario(m: Machine)
    requires Sized(m) && m.pc == PROGRAM_START && m.mem[0x200] == 0x23 && m.mem[0x201] == 0x00
    requires m.mem[0x300] == 0x00 && m.mem[0x301] == 0xEE
    ensures CanStep(m) && CanStep(Step(m))
    ensures Step(m).pc == 0x300 && Step(Step(m)).pc == 0x202 && Step(Step(m)).stack == m.stack
  {
    assert Fetched(m) == 0x2300;
    var m1 := Step(m);
    assert m1.pc == 0x300 && m1.stack == [0x202] + m.stack;
    assert Fetched(m1) == 0x00EE;
  }
}
