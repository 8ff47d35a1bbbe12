# CHIP-8 interpreter core in Dafny

This project models the execution core of a small CHIP-8 interpreter written in Rust
(`interp/src/main.rs`). CHIP-8 is an 8-bit virtual machine with a few parts:

- 4 KiB of memory, with the hexadecimal font at address 0 and programs loaded at 0x200;
- sixteen byte registers V0 to VF;
- a 16-bit program counter and a 16-bit index register;
- a return-address stack;
- a 64x32 monochrome display, packed eight pixels to a byte into 256 bytes;
- a delay timer and a sound timer, each ticked sixty times a second.

The model is split the way the interpreter is:

- `Words` holds the machine integers `u8` and `u16` as bounded newtypes. An addition that
  overflows is a panic in a debug build, so every such operation carries a proof obligation.
  It also holds the big-endian joining and splitting of 16-bit words.
- `CallStack` is the interpreter's `Stack` object, a class that mutates in place. The chain of
  boxed frames is kept as a sequence with the top first.
- `Timers` holds one tick of the timer thread and the count of repeated ticks.
- `Decoder` turns a 16-bit word into an `Instruction`, using one of three operand formats
  chosen by the opcode nibble. It also gives the inverse encoding.
- `Display` holds the byte-level pixel operations and the sprite draw as a function on the
  display contents. The draw is a prefix recursion over the rows, in the order the draw loop
  writes them, and comes with its collision test.
- `Semantics` holds the machine as a value (`Machine`) and `Exec`, the effect of one
  instruction on it. It covers exactly the opcode arms the interpreter implements.
- `Properties` states what each opcode does, and includes a few short programs run through
  fetch, decode and execute.
- `Interp` is the `Emulator` object. It has arrays for memory, display and registers, fields
  for `pc` and `idx`, and the stack and timers as objects. `Interp.Execute` is proved to
  change the emulator's state exactly as `Semantics.Exec` says. `Interp.Cycle` is proved to
  step it as `Semantics.Step` says.

Some behaviour of the interpreter is modelled as written, even where a textbook CHIP-8 does
otherwise:

- The draw arm `Dxyn` computes the start byte as `(Vx + Vy * 32) / 8`, so a display row is
  32 pixels apart rather than 64. It computes the bit offset `px % 8` but uses it only in a diagnostic print.
- Each sprite byte is XORed into a whole display byte.
- VF is set to 1 when a new display byte has a bit that the old byte lacked. For an XOR draw
  this means some pixel went from off to on, not that a pixel was erased. This is proved as
  `Properties.DrawFlagEffect`.
- `7xkk` adds with a plain `u8` `+`. In a debug build this overflows, and so panics, instead
  of wrapping around, so the model requires the sum to fit (see `Semantics.CanExec`).
- Opcodes 8, 9, B, C, E and F are `todo!()` and panic. The model requires that they are not
  executed.
- A `0nnn` other than 00E0 or 00EE, an opcode with missing operands, and a return on an
  empty stack each print a diagnostic and change nothing.

Standard CHIP-8, as described in Cowgod's Chip-8 Technical Reference, behaves differently:

- the display row is 64 pixels wide;
- a sprite is XORed pixel by pixel, wrapping around the screen edges;
- VF is set when a pixel is erased;
- `7xkk` wraps at eight bits.

Where the code differs from that reference, the model follows the code.

Each Rust panic is a precondition:

- an index out of bounds in memory, the display, the registers or the 15-byte sprite buffer;
- a `u16` overflow of `pc` or of `idx + i`;
- a `u8` overflow in `7xkk`;
- a `todo!()` arm.

Every error the interpreter only prints is a branch that changes nothing.

## Model

| member | source | states |
|---|---|---|
| Words.JoinSplit | interp/src/main.rs:112-119 | splitting a word into its high and low byte as `putDWord` does and joining them as `getDWord` does gives the word back |
| Words.SplitJoin | interp/src/main.rs:104-119 | joining two bytes and splitting the word gives back the same two bytes, high byte first |
| CallStack.Stack.constructor | interp/src/main.rs:36-38 | a new stack is empty |
| CallStack.Stack.Push | interp/src/main.rs:40-42 | the pushed value becomes the top and the old stack lies below it unchanged |
| CallStack.Stack.Pop | interp/src/main.rs:44-53 | an empty stack gives `None` and stays empty; otherwise the old top is returned and the stack loses exactly that frame |
| CallStack.Stack.Peak | interp/src/main.rs:55-60 | a value is returned exactly when the stack is non-empty, and it is the top; nothing is changed |
| CallStack.PushThenPop | interp/src/main.rs:40-53 | a pop right after a push returns the pushed value and restores the stack |
| Timers.Timer.constructor | interp/src/main.rs:90-91 | both timers start at zero |
| Timers.Decrement | interp/src/main.rs:173-185 | one tick lowers a timer by at most one, never below zero, and leaves it unchanged exactly when it is zero |
| Timers.Tick | interp/src/main.rs:173-185 | one tick decrements the delay and sound timers independently, each saturating at zero |
| Timers.TicksSaturate | interp/src/main.rs:168-185 | after `n` ticks a timer holds `max(v - n, 0)` |
| Timers.TickScenario | interp/src/main.rs:168-185 | a timer at 200 reads 140 after sixty ticks (one second) |
| Decoder.Decode | interp/src/main.rs:232-247 | the opcode is the top nibble of the word, and the operands are exactly those of the opcode's format, each within its field width |
| Decoder.EncodeDecode | interp/src/main.rs:201-229 | for every opcode with a format, the opcode and operands together hold every bit of the word: encoding the decoded instruction gives the word back |
| Decoder.DecodeEncode | interp/src/main.rs:201-247 | decoding the encoding of any well-formed instruction gives that instruction back |
| Decoder.NoOperandsDropLowBits | interp/src/main.rs:240-245 | for an opcode without a format (9), the low twelve bits are lost: the instruction has no operands and equals the decoding of the bare top nibble |
| Display.PixelBit | interp/src/main.rs:134-138 | reading a bit of a display byte gives 0 or 1, and gives 1 exactly when that bit is set |
| Display.ToggleTwice | interp/src/main.rs:140-144 | XORing the same shifted value into a byte twice restores the byte |
| Display.ToggleOnePixel | interp/src/main.rs:140-144 | toggling with value 1 flips the addressed bit and keeps the other seven |
| Display.FlipOnePixel | interp/src/main.rs:140-144 | writing value 1 to pixel `p` flips pixel `p` of the display and no other pixel |
| Display.CornerPixels | interp/src/main.rs:412-413 | a first display byte of `0b10000001` lights pixels 0 and 7 and none between |
| Display.RowSetsFlagMeansPixelOn | interp/src/main.rs:383-384 | the draw loop's flag test on the XORed byte holds exactly when the sprite byte has a bit set where the display was off |
| Display.Blit | interp/src/main.rs:381-386 | drawing `n` rows leaves a display of the same size |
| Display.BlitAt | interp/src/main.rs:381-386 | after drawing `n` rows at byte `index`, each byte from `index` to `index + n - 1` is the sprite row XOR the old byte, and every other byte is unchanged |
| Display.CollidesIff | interp/src/main.rs:380-386 | the accumulated flag is set exactly when some row passes the collision test |
| Semantics.InitFont | interp/src/main.rs:63-67 | power-on memory is 4096 bytes, with the 80-byte font at address 0 and zero everywhere else |
| Semantics.Exec | interp/src/main.rs:260-400 | one instruction never changes memory; only Annn changes the index register; only 00EE and 2nnn change the stack; only 00E0 and Dxyn change the display; only 6xkk, 7xkk and Dxyn change registers |
| Semantics.Step | interp/src/main.rs:250-258 | a fetch, decode and execute cycle never changes memory |
| Properties.ClearEffect | interp/src/main.rs:264-267 | 00E0 zeroes every display byte and changes nothing else |
| Properties.ReturnEffect | interp/src/main.rs:268-275 | 00EE pops the top of the stack into `pc`; on an empty stack nothing changes |
| Properties.IgnoredInstructions | interp/src/main.rs:276-398 | any other 0nnn, and an opcode value above 0xF, can always execute and change nothing |
| Properties.JumpAndCallEffect | interp/src/main.rs:279-295 | 1nnn sets `pc` to `nnn`; 2nnn pushes the current `pc` and then jumps; nothing else changes |
| Properties.CallThenReturn | interp/src/main.rs:268-295 | a return executed with the stack a call left resumes at the address after the call and restores the stack from before the call |
| Properties.SkipEffect | interp/src/main.rs:296-325 | 3xkk, 4xkk and 5xy_ add two to `pc` exactly when their condition (equal, not equal, registers equal) holds, and change nothing else |
| Properties.LoadAndAddEffect | interp/src/main.rs:326-342 | 6xkk stores the low byte of `kk` in Vx; 7xkk adds it to Vx when the sum fits a byte; no other register or state changes |
| Properties.SetIndexEffect | interp/src/main.rs:349-356 | Annn sets the index register to `nnn` and changes nothing else |
| Properties.DrawResult | interp/src/main.rs:363-388 | Dxyn replaces the display by the blit of the `n` sprite bytes at `(Vx + Vy * 32) / 8` and puts the collision flag in VF |
| Properties.DrawDisplayEffect | interp/src/main.rs:372-386 | after Dxyn, display byte `index + j` is sprite row `j` XOR the old byte, every other display byte is unchanged, and registers other than VF, memory, `pc`, `idx` and the stack are unchanged |
| Properties.DrawFlagEffect | interp/src/main.rs:380-387 | after Dxyn, VF is 0 or 1, and it is 1 exactly when some sprite byte has a bit set over a display bit that was off |
| Properties.MissingOperandsChangeNothing | interp/src/main.rs:260-400 | an instruction lacking an operand that its arm matches on changes nothing |
| Properties.ClearScenario | interp/src/main.rs:250-267 | the program `00 E0` at 0x200 clears the display and leaves `pc` at 0x202 |
| Properties.LoadAddScenario | interp/src/main.rs:326-342 | the program `60 05 70 03` leaves 8 in V0 and `pc` at 0x204 after two cycles |
| Properties.SetIndexScenario | interp/src/main.rs:349-356 | the program `A2 0A` sets the index register to 0x20A |
| Properties.CallReturnScenario | interp/src/main.rs:268-295 | `23 00` at 0x200 with `00 EE` at 0x300 runs to 0x300 and back to 0x202, restoring the stack |
| Interp.Emulator.Init | interp/src/main.rs:83-94 | power-on: memory holds the font image, the display and registers are zero, `pc` is 0x200, `idx` is 0, the stack is empty and both timers are zero |
| Interp.Emulator.GetWord | interp/src/main.rs:96-98 | returns the memory byte at `addr` |
| Interp.Emulator.PutWord | interp/src/main.rs:100-102 | only the byte at `addr` changes, and reading it back gives the value stored |
| Interp.Emulator.GetDWord | interp/src/main.rs:104-110 | the word at `addr` is `mem[addr] * 256 + mem[addr + 1]`, and its high and low bytes are those two bytes |
| Interp.Emulator.PutDWord | interp/src/main.rs:112-119 | only the bytes at `addr` and `addr + 1` change, high byte first, and `GetDWord` reads the value back |
| Interp.Emulator.LoadImage | interp/src/main.rs:121-132 | the image bytes are copied to 0x200 onward and memory outside them is unchanged |
| Interp.Emulator.ReadPixel | interp/src/main.rs:134-138 | the result is 0 or 1, and it is 1 exactly when bit `pixel % 8` of byte `pixel / 8` is set |
| Interp.Emulator.WritePixel | interp/src/main.rs:140-144 | only byte `pixel / 8` changes, XORed with `value << (pixel % 8)`; with value 1 exactly pixel `pixel` flips |
| Interp.Emulator.WritePixelTwice | interp/src/main.rs:417-422 | writing the same value to the same pixel twice, as the frame loop does to pixel 0, leaves the whole display as it was |
| Interp.Fetch | interp/src/main.rs:250-254 | returns the big-endian word at `pc` and advances `pc` by two |
| Interp.Execute | interp/src/main.rs:260-400 | the emulator's new state is `Exec` of its old state and the instruction |
| Interp.Draw | interp/src/main.rs:363-388 | the display becomes the blit of the sprite bytes at `(Vx + Vy * 32) / 8`, VF receives the collision flag, and no other register changes |
| Interp.CopySprite | interp/src/main.rs:367-370 | the first `n` bytes of a fresh 15-byte buffer are the `n` memory bytes at the index register |
| Interp.XorRows | interp/src/main.rs:380-386 | the display becomes the blit of the sprite rows, and the returned flag is 1 exactly when some row passed the collision test |
| Interp.XorRow | interp/src/main.rs:382-385 | the sprite row becomes itself XOR the display byte, that value is stored in the display byte, and the collision test is reported |
| Interp.Cycle | interp/src/main.rs:425-427 | one fetch, decode and execute changes the emulator's state as `Step` says |

## Left out

- Rendering (`Emulator::draw`, lines 146-165) is not modelled. It only reads the display to
  paint rectangles through the graphics library, so 00E0's call to it is treated as no
  change.
- `loadROM` reading a file and exiting when the file is missing is replaced by
  `LoadImage`, which takes the file's bytes as a parameter. An image that does not fit is a
  panic in Rust, so it is a precondition here.
- The timer thread's endless loop, its 16.67 ms period, `sleep`, and the `Arc<Mutex<..>>`
  sharing are not modelled. One pass of the loop is `Timers.Tick`, and repeated passes are
  `Timers.Ticks`.
- Timers.Tick: requires the two timers to be distinct objects. The interpreter creates them
  as two separate mutexes, so they never alias.
- The timers are not part of `Semantics.Machine`, since no implemented opcode reads or
  writes them.
- `main`, with its window, frame loop and probe prints, is not modelled. What its display
  probe reads is stated as `Display.CornerPixels`. Its two writes of 1 to pixel 0 are stated
  as `Interp.Emulator.WritePixelTwice`. The fetch, decode and execute calls in that loop are
  commented out in the source; `Interp.Cycle` models them as they would run.
- The opcodes whose arms are `todo!()` (8xy_, 9xy_, Bnnn, Cxkk, Ex__, Fx__) are excluded by
  `Semantics.CanExec`, because executing them panics.
- Diagnostic `println!` output is not modelled. That includes unknown operands, an empty
  stack on return, an unknown opcode, and the draw arm's coordinate prints. Each such branch
  changes no state.
- `Stack`'s linked chain of boxed frames is modelled by the sequence of its values.
  Ownership and allocation are not modelled.
- Timers.Decrement: the source decrements through a locked reference; only the value
  arithmetic is modelled.
