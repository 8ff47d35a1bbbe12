/**
 * The emulator object the interpreter mutates in place: memory, display and registers are
 * fixed-size arrays, `pc` and `idx` are fields, and the stack and timers are objects of their
 * own. `Fetch` and `Execute` are proved to act on `State()` as `Semantics` says.
 */
module Interp {
  import opened Wrappers
  import opened Words
  import opened CallStack
  import opened Timers
  import opened Decoder
  import opened Display
  import opened Semantics
  import opened Properties

  class Emulator {
    const mem: array<u8>
    const disp: array<bv8>
    var pc: u16
    var idx: u16
    const stack: Stack
    const delay: Timer
    const sound: Timer
    const reg: array<u8>

    ghost predicate Valid()
      reads this
    {
      mem.Length == MEM_SIZE && disp.Length == DISP_SIZE && reg.Length == REG_COUNT &&
      mem != reg && delay != sound
    }

    /** The machine state the opcodes act on. */
    ghost function State(): (m: Machine)
      reads this, mem, disp, reg, stack
      requires Valid()
      ensures Sized(m)
    {
      Machine(mem[..], disp[..], pc, idx, reg[..], stack.frames)
    }

    /** Power-on state: the font at address 0, everything else zero, `pc` at 0x200, an empty stack. */
    constructor Init()
      ensures Valid()
      ensures fresh(mem) && fresh(disp) && fresh(reg) && fresh(stack) && fresh(delay) && fresh(sound)
      ensures mem[..] == InitFont()
      ensures forall k :: 0 <= k < DISP_SIZE ==> disp[k] == 0
      ensures forall k :: 0 <= k < REG_COUNT ==> reg[k] == 0
      ensures pc == PROGRAM_START && idx == 0 && stack.frames == []
      ensures delay.value == 0 && sound.value == 0
    {
      var font := InitFont();
      mem := new u8[MEM_SIZE](k requires 0 <= k < MEM_SIZE => font[k]);
      disp := new bv8[DISP_SIZE](_ => 0);
      pc := PROGRAM_START;
      idx := 0;
      stack := new Stack();
      delay := new Timer();
      sound := new Timer();
      reg := new u8[REG_COUNT](_ => 0);
      new;
      assert mem[..] == font;
    }

    /** The byte at `addr`. */
    function GetWord(addr: u16): (b: u8)
      reads this, mem
      requires Valid() && (addr as int) < MEM_SIZE
      ensures b == State().mem[addr]
    {
      mem[addr]
    }

    /** Stores `value` at `addr`; reading `addr` back gives `value` and no other byte changes. */
    method PutWord(addr: u16, value: u8)
      requires Valid() && (addr as int) < MEM_SIZE
      modifies mem
      ensures mem[..] == old(mem[..])[addr := value]
      ensures GetWord(addr) == value
    {
      mem[addr] := value;
    }

    /** The 16-bit value at `addr` and `addr + 1`, high byte first. */
    function GetDWord(addr: u16): (w: u16)
      reads this, mem
      requires Valid() && addr as int + 1 < MEM_SIZE
      ensures w as int == mem[addr] as int * 0x100 + mem[addr as int + 1] as int
      ensures HighByte(w) == mem[addr] && LowByte(w) == mem[addr as int + 1]
    {
      SplitJoin(mem[addr], mem[addr as int + 1]);
      BigEndian(mem[addr], mem[addr as int + 1])
    }

    /** Stores `value` high byte first; reading it back gives `value` and no other byte changes. */
    method PutDWord(addr: u16, value: u16)
      requires Valid() && addr as int + 1 < MEM_SIZE
      modifies mem
      ensures mem[..] == old(mem[..])[addr := HighByte(value)][addr as int + 1 := LowByte(value)]
      ensures GetDWord(addr) == value
    {
      var lsb := LowByte(value);
      var msb := HighByte(value);
      mem[addr] := msb;
      mem[addr as int + 1] := lsb;
      JoinSplit(value);
    }

    /** Copies a program image to 0x200 on; the image must fit in memory. */
    method LoadImage(bytes: seq<u8>)
      requires Valid() && PROGRAM_START as int + |bytes| <= MEM_SIZE
      modifies mem
      ensures mem[..] == old(mem[..PROGRAM_START]) + bytes + old(mem[PROGRAM_START as int + |bytes|..])
    {
      var start := PROGRAM_START as int;
      for i := 0 to |bytes|
        invariant mem[..start] == old(mem[..start])
        invariant mem[start..start + i] == bytes[..i]
        invariant mem[start + i..] == old(mem[start + i..])
      {
        mem[start + i] := bytes[i];
        assert mem[start..start + i + 1] == mem[start..start + i] + [bytes[i]];
      }
      assert mem[..] == mem[..start] + mem[start..start + |bytes|] + mem[start + |bytes|..];
    }

    /** Pixel `pixel` of the display: bit `pixel % 8` of byte `pixel / 8`, as 0 or 1. */
    function ReadPixel(pixel: u16): (bit: bv8)
      reads this, disp
      requires Valid() && (pixel as int) < DISP_SIZE * 8
      ensures bit == 0 || bit == 1
      ensures bit == 1 <==> disp[pixel / 8] & (1 << (pixel % 8) as bv8) != 0
      ensures bit == Pixel(disp[..], pixel as nat)
    {
      var offset := pixel % 8;
      var index := (pixel - offset) / 8;
      PixelBit(disp[index], offset as bv8)
    }

    /**
     * XORs `value << (pixel % 8)` into byte `pixel / 8`. Only that byte changes; with value 1
     * exactly pixel `pixel` flips.
     */
    method WritePixel(pixel: u16, value: bv8)
      requires Valid() && (pixel as int) < DISP_SIZE * 8
      modifies disp
      ensures disp[..] == old(disp[..])[pixel / 8 := Toggle(old(disp[pixel / 8]), (pixel % 8) as bv8, value)]
      ensures value == 1 ==> forall q: nat :: q < DISP_SIZE * 8 ==>
                Pixel(disp[..], q) == if q == pixel as nat then 1 - Pixel(old(disp[..]), q) else Pixel(old(disp[..]), q)
    {
      var offset := pixel % 8;
      var index := (pixel - offset) / 8;
      assert index == pixel / 8;
      disp[index] := Toggle(disp[index], offset as bv8, value);
      if value == 1 {
        forall q: nat | q < DISP_SIZE * 8
          ensures Pixel(disp[..], q) == if q == pixel as nat then 1 - Pixel(old(disp[..]), q) else Pixel(old(disp[..]), q)
        {
          FlipOnePixel(old(disp[..]), pixel as nat, q as nat);
        }
      }
    }

    /** Writing the same value to the same pixel twice, as the frame loop does to pixel 0, restores the display. */
    method WritePixelTwice(pixel: u16, value: bv8)
      requires Valid() && (pixel as int) < DISP_SIZE * 8
      modifies disp
      ensures disp[..] == old(disp[..])
    {
      ghost var d0 := disp[..];
      WritePixel(pixel, value);
      WritePixel(pixel, value);
      ToggleTwiceAt(d0, pixel as nat / 8, (pixel % 8) as bv8, value);
    }
  }

  /** Reads the instruction word at `pc` and moves `pc` past it. */
  method Fetch(emu: Emulator) returns (raw: u16)
    requires emu.Valid() && emu.pc as int + 1 < MEM_SIZE
    modifies emu`pc
    ensures raw == emu.GetDWord(old(emu.pc)) && raw == Fetched(old(emu.State()))
    ensures emu.pc as int == old(emu.pc) as int + 2
  {
    raw := emu.GetDWord(emu.pc);
    emu.pc := emu.pc + 2;
  }

  /** Applies one decoded instruction to the emulator, exactly as `Exec` does to its state. */
  method Execute(emu: Emulator, instr: Instruction)
    requires emu.Valid() && CanExec(emu.State(), instr)
    modifies emu, emu.disp, emu.reg, emu.stack
    ensures emu.Valid() && emu.State() == Exec(old(emu.State()), instr)
  {
    var op, op1, op2, op3 := instr.opcode, instr.op1, instr.op2, instr.op3;
    if op == 0x0 {
      if op1 == Some(0x0E0) {
        forall k | 0 <= k < emu.disp.Length {
          emu.disp[k] := 0;
        }
        assert emu.disp[..] == seq(DISP_SIZE, _ => 0);
      } else if op1 == Some(0x0EE) {
        var top := emu.stack.Pop();
        if top.Some? {
          emu.pc := top.value;
        }
      }
    } else if op == 0x1 {
      if op1.Some? {
        emu.pc := op1.value;
      }
    } else if op == 0x2 {
      if op1.Some? {
        emu.stack.Push(emu.pc);
        emu.pc := op1.value;
      }
    } else if op == 0x3 {
      if op1.Some? && op2.Some? && emu.reg[op1.value] == Truncate8(op2.value) {
        emu.pc := emu.pc + 2;
      }
    } else if op == 0x4 {
      if op1.Some? && op2.Some? && emu.reg[op1.value] != Truncate8(op2.value) {
        emu.pc := emu.pc + 2;
      }
    } else if op == 0x5 {
      if op1.Some? && op2.Some? && emu.reg[op1.value] == emu.reg[op2.value] {
        emu.pc := emu.pc + 2;
      }
    } else if op == 0x6 {
      if op1.Some? && op2.Some? {
        emu.reg[op1.value] := Truncate8(op2.value);
      }
    } else if op == 0x7 {
      if op1.Some? && op2.Some? {
        emu.reg[op1.value] := emu.reg[op1.value] + Truncate8(op2.value);
      }
    } else if op == 0xA {
      if op1.Some? {
        emu.idx := op1.value;
      }
    } else if op == 0xD {
      if op1.Some? && op2.Some? && op3.Some? {
        Draw(emu, op1.value, op2.value, op3.value);
        DrawResult(old(emu.State()), op1.value, op2.value, op3.value);
      }
    }
  }

  /**
   * The Dxyn arm: copies `n` sprite bytes from `idx`, XORs each into a whole display byte from
   * `(Vx + Vy * 32) / 8` on, and puts the collision flag in VF. The pixel offset `px % 8` that
   * the interpreter computes plays no part.
   */
  method Draw(emu: Emulator, x: u16, y: u16, n: u16)
    requires emu.Valid() && x < 16 && y < 16 && DrawFits(emu.State(), x, y, n)
    modifies emu.disp, emu.reg
    ensures var index := DrawIndex(old(emu.reg[x]), old(emu.reg[y]));
      var rows := SpriteRows(emu.mem[..], emu.idx, Truncate8(n) as nat);
      emu.disp[..] == Blit(old(emu.disp[..]), rows, index, |rows|) &&
      emu.reg[..] == old(emu.reg[..])[FLAG := if Collides(old(emu.disp[..]), rows, index, |rows|) then 1 else 0]
  {
    ghost var m := emu.State();
    var count := Truncate8(n) as int;
    var sprite := CopySprite(emu.mem, emu.idx, count);
    ghost var rows := SpriteRows(m.mem, m.idx, count);
    assert sprite[..count] == rows;

    var vx := emu.reg[x] as u16;
    var vy := emu.reg[y] as u16;
    var px := vx + vy * 32;
    var index := (px / 8) as int;
    assert index == DrawIndex(m.reg[x], m.reg[y]);
    assert emu.disp[..] == m.disp;
    var vf := XorRows(emu.disp, sprite, index, count);
    assert emu.disp[..] == Blit(m.disp, rows, index, count);
    emu.reg[FLAG] := vf;
    assert emu.reg[..] == m.reg[FLAG := vf];
  }

  /** The first loop of the draw arm: copies the `count` bytes at `idx` into a fresh 15-byte buffer. */
  method CopySprite(mem: array<u8>, idx: u16, count: nat) returns (sprite: array<bv8>)
    requires mem.Length == MEM_SIZE && count <= SPRITE_CAPACITY
    requires count > 0 ==> idx as int + count <= MEM_SIZE
    ensures fresh(sprite) && sprite.Length == SPRITE_CAPACITY
    ensures sprite[..count] == SpriteRows(mem[..], idx, count)
  {
    sprite := new bv8[SPRITE_CAPACITY];
    ghost var rows := SpriteRows(mem[..], idx, count);
    for i := 0 to count
      invariant forall j :: 0 <= j < i ==> sprite[j] == rows[j]
    {
      sprite[i] := mem[idx + i as u16] as bv8;
    }
    assert forall j :: 0 <= j < count ==> sprite[..count][j] == rows[j];
  }

  /**
   * The second loop of the draw arm: XORs each of the first `count` sprite bytes into a whole
   * display byte from `index` on, and reports whether any row passed the collision test.
   */
  method XorRows(disp: array<bv8>, sprite: array<bv8>, index: nat, count: nat) returns (vf: u8)
    requires disp != sprite && count <= sprite.Length
    requires count > 0 ==> index + count <= disp.Length
    modifies disp, sprite
    ensures disp[..] == Blit(old(disp[..]), old(sprite[..count]), index, count)
    ensures vf == if Collides(old(disp[..]), old(sprite[..count]), index, count) then 1 else 0
  {
    ghost var prev := disp[..];
    ghost var rows := sprite[..count];
    vf := 0;
    for i := 0 to count
      invariant forall j :: i <= j < count ==> sprite[j] == rows[j]
      invariant forall k :: index + i <= k < disp.Length ==> disp[k] == prev[k]
      invariant disp[..] == Blit(prev, rows, index, i)
      invariant vf == if Collides(prev, rows, index, i) then 1 else 0
    {
      var hit := XorRow(disp, sprite, index + i, i);
      if hit {
        vf := 1;
      }
    }
  }

  /** One pass of that loop: row `i` of the sprite becomes `sprite[i] ^ disp[at]` and is stored at `at`. */
  method XorRow(disp: array<bv8>, sprite: array<bv8>, at: nat, i: nat) returns (hit: bool)
    requires disp != sprite && i < sprite.Length && at < disp.Length
    modifies disp, sprite
    ensures sprite[..] == old(sprite[..])[i := old(sprite[i]) ^ old(disp[at])]
    ensures disp[..] == old(disp[..])[at := old(sprite[i]) ^ old(disp[at])]
    ensures hit == RowSetsFlag(old(disp[at]), old(sprite[i]) ^ old(disp[at]))
  {
    sprite[i] := sprite[i] ^ disp[at];
    hit := sprite[i] != (sprite[i] & disp[at]);
    disp[at] := sprite[i];
  }

  /** One cycle of the host loop: fetch, decode, execute. */
  method Cycle(emu: Emulator)
    requires emu.Valid() && CanStep(emu.State())
    modifies emu, emu.disp, emu.reg, emu.stack
    ensures emu.Valid() && emu.State() == Step(old(emu.State()))
  {
    ghost var m := emu.State();
    var raw := Fetch(emu);
    assert emu.State() == m.(pc := m.pc + 2);
    var instr := Decode(raw);
    assert CanExec(emu.State(), instr);
    Execute(emu, instr);
  }
}
