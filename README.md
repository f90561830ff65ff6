# CHIP-8 virtual CPU in Dafny

A model of the interpreter core of Chip8-Interpreter: the `Chip8` object
declared in `cpu.hh` and implemented in `cpu.cc`. Modelled here:

- its state: sixteen byte registers V0..VF, 4 KiB of memory, the 16-bit index
  register and program counter, the 16-slot call stack and its byte stack
  pointer, the delay and sound timers, the 16-key keypad, the 64 x 32
  display and the draw flag;
- `init` (font to 0x50, pc to the program area) and the copy step of
  `load_rom`;
- the fetch / decode / execute / timer `cycle`;
- the two-level decoding switch of `exec_instruction`;
- every one of the 34 instruction handlers, plus the handler for
  unrecognised words.

The project has three layers:

- **Values.** `Decoder` turns a 16-bit word into an `Op`. `Semantics` gives
  every handler, the dispatch `Exec` and the cycle `Step` as pure
  transitions of a `Machine` value. The supporting modules:
  - `Bits`: byte and word arithmetic with explicit wrap-around;
  - `Font`: constants and the font;
  - `State`: the machine value and the outcomes of a step;
  - `Sprite`: the Dxyn blit in closed form.
- **Objects.** `Cpu.Chip8` is a class with the source's arrays and scalar
  fields. It has one method per handler, the dispatch `Execute` and
  `Cycle`. Every method is proved to leave `State()` equal to the
  corresponding pure transition.
- **Properties.** `Properties` states what the instruction set promises, as
  lemmas over `Semantics`: flags, skips, the stack, BCD, the font, sprite
  collisions, register block copies, frames and whole-cycle behaviour.
  `HeaderVariant` models the handlers as written where they differ (the
  second copy inlined in `cpu.hh`, and cpu.cc's Fx0A) and proves how they
  differ.

The source leaves some accesses unchecked: reading or writing outside an
array, or wrapping the stack pointer. The model turns each of these into a
`Fault`. A faulting instruction leaves the machine unchanged. `Cycle` then
puts pc back, so a faulting cycle leaves the whole object as it was. The
random byte of Cxkk is a parameter (`rnd`), and the host writes the
keypad.

Where the two copies of a handler disagree, `cpu.cc` is the definition used
by `Exec` and `Cycle`, with two exceptions:

- Fx0A follows the header's first-pressed-key scan and stores the key's
  index.
- Fx65 loads V0..Vx inclusive, the inverse of Fx55.

Both are listed under "## Findings".

## Model

| member | source | states |
|---|---|---|
| Cpu.Chip8.constructor | Chip8-Interpreter/cpu.cc:10-13 | every register, array and flag starts at zero (`Semantics.PowerOn`), over fresh arrays |
| Cpu.Chip8.Init | Chip8-Interpreter/cpu.cc:15-24 | the 80 font bytes are copied to 0x50..0x9F, nothing else in memory changes, and pc becomes 0x200 (`Semantics.Init`) |
| Semantics.Init | Chip8-Interpreter/cpu.cc:15-24 | the result holds the font at 0x50 and pc = 0x200 |
| Cpu.Chip8.CopyToMemory | Chip8-Interpreter/cpu.cc:38 | the byte loop leaves memory equal to the old memory with `src` laid over it from `start` (`Semantics.Overwrite`) |
| Semantics.Overwrite | Chip8-Interpreter/cpu.cc:38 | the copy has the old length, holds `src` at [start, start + \|src\|) and the old bytes everywhere else |
| Cpu.Chip8.LoadRom | Chip8-Interpreter/cpu.cc:26-47 | the image lands at 0x200; an image that does not fit below 0x1000 is a fault that changes nothing (`Semantics.LoadRom`) |
| Semantics.LoadRom | Chip8-Interpreter/cpu.cc:38 | fails exactly when 0x200 + \|rom\| > 4096 |
| Properties.BootFetchesRom | Chip8-Interpreter/cpu.cc:15-47 | after power-on, `init` and loading an image: the font is in place, the image sits at 0x200, pc = 0x200, and the first fetch is the image's first word |
| Cpu.Chip8.ClearDrawFlag | Chip8-Interpreter/cpu.cc:213-227 | after the host has copied the frame, only the draw flag changes, to false |
| Font.Glyph | Chip8-Interpreter/cpu.hh:25-43 | a glyph is five bytes: the font's bytes 5d .. 5d + 4 |
| Font.GlyphAddress | Chip8-Interpreter/cpu.hh:22-43 | a glyph address lies in the font region [0x50, 0x9B] on a five-byte boundary |
| Font.FontShape | Chip8-Interpreter/cpu.hh:25-43 | the font is 80 bytes, five per hex digit; every row is non-zero and uses only the high nibble (4-pixel-wide glyphs) |
| Font.FontBelowProgram | Chip8-Interpreter/cpu.hh:22-23 | the font region ends below the program area 0x200, which is inside memory |
| Decoder.DecodeUnknown | Chip8-Interpreter/cpu.cc:49-190 | a word reaches the "not recognized" handler exactly when its group-0, group-8, group-E or group-F sub-switch has no case for it |
| Decoder.DecodeEncode | Chip8-Interpreter/cpu.cc:49-190 | decoding the canonical word of any instruction gives that instruction back, operands included |
| Decoder.EncodeDecode | Chip8-Interpreter/cpu.cc:49-190 | re-encoding a decoded word gives the word back exactly when the word has no bits the switch ignores; re-decoding always gives the same instruction |
| Decoder.NibblesOfDecode | Chip8-Interpreter/cpu.cc:49-190 | the operand fields extracted by the decoder are exactly the word's nibbles, iff the word is canonical |
| Semantics.Exec | Chip8-Interpreter/cpu.cc:49-190 | exactly the unrecognised words report `Unrecognized`; such a word and any fault leave the machine unchanged |
| Cpu.Chip8.Execute | Chip8-Interpreter/cpu.cc:49-190 | running the handler of `op` on the object gives the status and state of `Semantics.Exec` |
| Cpu.Chip8.Cycle | Chip8-Interpreter/cpu.cc:192-211 | fetching the big-endian word at pc, adding 2 to pc, executing and ticking both timers gives the status and state of `Semantics.Step`; a fault restores the state from before the cycle |
| Semantics.Step | Chip8-Interpreter/cpu.cc:192-211 | a failed cycle leaves the machine unchanged |
| Semantics.Fetch | Chip8-Interpreter/cpu.cc:195 | the fetched word's high byte is memory[pc] and its low byte memory[pc + 1] |
| Semantics.Ticked | Chip8-Interpreter/cpu.cc:204-208 | definition (the closed form `Cycle` is proved against): each timer drops by one when positive and stays at zero otherwise; the claim about a cycle is `Properties.StepTicksTimers` |
| Semantics.Tick | Chip8-Interpreter/cpu.cc:204-208 | definition: a positive timer drops by one; zero stays zero |
| Properties.StepTicksTimers | Chip8-Interpreter/cpu.cc:192-211 | after a successful cycle each timer is the tick of its value after the handler, so a timer Fx15 / Fx18 just loaded is counted down in the same cycle |
| Properties.UnrecognizedSkipped | Chip8-Interpreter/cpu.cc:186-188 | an unrecognised word costs one cycle: pc moves past it, the timers tick and nothing else changes |
| Properties.JumpLandsOnTarget | Chip8-Interpreter/cpu.cc:245-249 | a cycle on 1nnn ends with pc = nnn, overriding the advance by 2; only the timers change otherwise |
| Properties.LoadImmCycle | Chip8-Interpreter/cpu.cc:288-295 | a cycle on 6xkk sets V[x] = kk and pc += 2, and ticks the timers |
| Properties.AddRegCycle | Chip8-Interpreter/cpu.cc:338-351 | a cycle on 8xy4 performs the add-with-carry on the advanced machine and ticks the timers |
| Properties.LoadLoadAddProgram | Chip8-Interpreter/cpu.cc:192-211 | the program 600A 6105 8014 runs three cycles to V0 = 15, V1 = 5, VF = 0, pc + 6 |
| Properties.AddRegWrapExample | Chip8-Interpreter/cpu.cc:338-351 | 8014 with V0 = 250 and V1 = 10 leaves V0 = 4 and VF = 1 |
| Semantics.ClearScreen | Chip8-Interpreter/cpu.cc:234-237 | every display cell is off afterwards |
| Cpu.Chip8.ClearScreen | Chip8-Interpreter/cpu.cc:234-237 | the loop over the display gives `Semantics.ClearScreen` |
| Semantics.Return | Chip8-Interpreter/cpu.cc:239-243 | 00EE fails exactly when the stack is empty |
| Cpu.Chip8.Return | Chip8-Interpreter/cpu.cc:239-243 | decrement sp, then pc = stack[sp], as `Semantics.Return`; empty stack is a fault |
| Cpu.Chip8.Jump | Chip8-Interpreter/cpu.cc:245-249 | pc = nnn, nothing else changes |
| Semantics.Call | Chip8-Interpreter/cpu.cc:251-259 | 2nnn fails exactly when all 16 slots are in use |
| Cpu.Chip8.Call | Chip8-Interpreter/cpu.cc:251-259 | stack[sp] = pc, sp += 1, pc = nnn, as `Semantics.Call`; a full stack is a fault |
| Properties.CallThenReturn | Chip8-Interpreter/cpu.cc:239-259 | a call followed by a return restores pc and sp; the only trace is the return address in the slot the call used |
| Properties.CycleCallReturn | Chip8-Interpreter/cpu.cc:239-259 | a cycle on 2nnn whose target holds 00EE, followed by one more cycle, resumes at the word after the call with sp restored |
| Properties.StackFaults | Chip8-Interpreter/cpu.cc:239-259 | a call with sp = 16 is a stack overflow and a return with sp = 0 a stack underflow, both leaving the machine unchanged; sp never leaves [0, 16] |
| Cpu.Chip8.SkipIf | Chip8-Interpreter/cpu.cc:261-286 | pc advances by 2 exactly when the condition holds |
| Cpu.Chip8.SkipEqImm | Chip8-Interpreter/cpu.cc:261-268 | 3xkk: skip when V[x] = kk |
| Cpu.Chip8.SkipNeImm | Chip8-Interpreter/cpu.cc:270-277 | 4xkk: skip when V[x] ≠ kk |
| Cpu.Chip8.SkipEqReg | Chip8-Interpreter/cpu.cc:279-286 | 5xy0: skip when V[x] = V[y] |
| Cpu.Chip8.SkipNeReg | Chip8-Interpreter/cpu.cc:396-403 | 9xy0: skip when V[x] ≠ V[y] |
| Properties.SkipsAddTwo | Chip8-Interpreter/cpu.cc:261-481 | over a whole cycle, 3xkk, 4xkk, 5xy0, 9xy0, Ex9E and ExA1 (V[x] naming a key) add 4 to pc when their condition holds and 2 when it does not; only the timers change otherwise |
| Properties.StepKeyFault | Chip8-Interpreter/cpu.cc:466-481 | a cycle on Ex9E / ExA1 with V[x] > 15 is a key-range fault that leaves the machine unchanged |
| Cpu.Chip8.LoadImm | Chip8-Interpreter/cpu.cc:288-295 | V[x] = kk, nothing else changes |
| Cpu.Chip8.AddImm | Chip8-Interpreter/cpu.cc:297-303 | V[x] += kk on a byte (`Semantics.AddImm`) |
| Properties.AddImmKeepsFlag | Chip8-Interpreter/cpu.cc:297-303 | V[x] becomes (V[x] + kk) mod 256; VF and every other register are untouched |
| Cpu.Chip8.Move | Chip8-Interpreter/cpu.cc:305-312 | V[x] = V[y], nothing else changes |
| Cpu.Chip8.Or | Chip8-Interpreter/cpu.cc:314-320 | V[x] = V[x] \| V[y], nothing else changes |
| Cpu.Chip8.And | Chip8-Interpreter/cpu.cc:322-328 | V[x] = V[x] & V[y], nothing else changes |
| Cpu.Chip8.Xor | Chip8-Interpreter/cpu.cc:330-336 | V[x] = V[x] ^ V[y], nothing else changes |
| Cpu.Chip8.AddReg | Chip8-Interpreter/cpu.cc:338-351 | VF from the 16-bit sum, then V[x] = the sum's low byte (`Semantics.AddReg`) |
| Properties.AddRegCarry | Chip8-Interpreter/cpu.cc:338-351 | with x ≠ F: V[x] = (V[x] + V[y]) mod 256, VF = 1 iff the sum exceeds 255, V[x] + 256·VF is the exact sum, and no other register changes |
| Cpu.Chip8.SubReg | Chip8-Interpreter/cpu.cc:353-364 | VF = (V[x] > V[y]), then V[x] -= V[y] on a byte (`Semantics.SubReg`) |
| Properties.SubRegBorrow | Chip8-Interpreter/cpu.cc:353-364 | with x, y ≠ F: V[x] = (V[x] − V[y]) mod 256 and VF = 1 iff V[x] > V[y] strictly |
| Properties.SubRegIntoFlag | Chip8-Interpreter/cpu.cc:353-364 | 8Fy5: the difference is taken from the freshly written VF and then overwrites it |
| Properties.SubRegReadsNewFlag | Chip8-Interpreter/cpu.cc:353-364 | 8xF5: the subtrahend is the freshly written borrow flag, not the original VF |
| Cpu.Chip8.ShiftRight | Chip8-Interpreter/cpu.cc:366-373 | VF = V[x] & 1, then V[x] >>= 1 (`Semantics.ShiftRight`) |
| Properties.ShiftRightBit | Chip8-Interpreter/cpu.cc:366-373 | with x ≠ F: VF is bit 0 of V[x], V[x] is halved, and 2·V[x]' + VF = V[x] |
| Cpu.Chip8.SubReverse | Chip8-Interpreter/cpu.cc:375-386 | VF = (V[y] > V[x]), then V[x] = V[y] − V[x] on a byte (`Semantics.SubReverse`) |
| Properties.SubReverseBorrow | Chip8-Interpreter/cpu.cc:375-386 | with x, y ≠ F: V[x] = (V[y] − V[x]) mod 256 and VF = 1 iff V[y] > V[x] strictly |
| Cpu.Chip8.ShiftLeft | Chip8-Interpreter/cpu.cc:388-394 | VF = bit 7 of V[x], then V[x] <<= 1 on a byte (`Semantics.ShiftLeft`) |
| Properties.ShiftLeftBit | Chip8-Interpreter/cpu.cc:388-394 | with x ≠ F: VF is bit 7 of V[x], V[x] = 2·V[x] mod 256, and V[x]' + 256·VF = 2·V[x] |
| Cpu.Chip8.LoadIndex | Chip8-Interpreter/cpu.cc:405-409 | index = nnn, nothing else changes |
| Cpu.Chip8.JumpOffset | Chip8-Interpreter/cpu.cc:411-415 | pc = nnn + V0 (`Semantics.JumpOffset`) |
| Cpu.Chip8.Random | Chip8-Interpreter/cpu.cc:417-428 | V[x] = rnd & kk (`Semantics.Random`) |
| Bits.AndIdempotent | Chip8-Interpreter/cpu.cc:417-428 | masking twice with kk is masking once |
| Bits.And8IsBitwise | Chip8-Interpreter/cpu.cc:322-328 | the AND of 8xy2 and Cxkk, computed bit by bit on naturals, equals the byte operator `&` |
| Properties.RandomWithinMask | Chip8-Interpreter/cpu.cc:417-428 | whatever the random byte, V[x] has no bit outside kk and is at most kk; no other register changes |
| Semantics.SpriteRows | Chip8-Interpreter/cpu.cc:442-444 | the n sprite rows are memory[index .. index + n − 1] |
| Semantics.Draw | Chip8-Interpreter/cpu.cc:430-464 | a successful draw sets drawFlag and changes neither memory nor pc; a fault changes nothing |
| Cpu.Chip8.Draw | Chip8-Interpreter/cpu.cc:430-464 | the row and column loops, with VF cleared first and set on a lit-to-unlit pixel, give `Semantics.Draw` |
| Cpu.Chip8.DrawSprite | Chip8-Interpreter/cpu.cc:442-461 | the row loop leaves the display equal to `Sprite.Blit` and VF = 1 exactly when the sprite collides |
| Cpu.Chip8.DrawRow | Chip8-Interpreter/cpu.cc:446-460 | one row's column loop advances the partial blit and the collision flag by exactly that row |
| Sprite.Blit | Chip8-Interpreter/cpu.cc:442-461 | a cell changes exactly when a lit sprite pixel lands on it |
| Sprite.CellInjective | Chip8-Interpreter/cpu.cc:449 | distinct pixels of one sprite land on distinct cells, so no cell is toggled twice in one draw |
| Sprite.CollidesIffPixelCleared | Chip8-Interpreter/cpu.cc:451-458 | the sprite collides exactly when some cell lit before the draw is unlit after it |
| Sprite.BlitTwice | Chip8-Interpreter/cpu.cc:442-461 | blitting the same sprite twice restores the display |
| Sprite.RedrawCollides | Chip8-Interpreter/cpu.cc:442-461 | on a blank display, the second of two identical blits collides exactly when the sprite has a lit pixel |
| Sprite.PartialBlitStep | Chip8-Interpreter/cpu.cc:446-460 | drawing one more pixel toggles its cell iff the pixel is lit and in the display, and earlier pixels never touched that cell |
| Sprite.PartialBlitDone | Chip8-Interpreter/cpu.cc:442-461 | once every row is drawn the partial blit is the whole blit |
| Sprite.InBounds | Chip8-Interpreter/cpu.cc:449 | when no lit pixel overruns, every lit pixel's cell is inside the display |
| Sprite.CollisionFlag | Chip8-Interpreter/cpu.cc:440-456 | definition (the closed form `DrawRow` is proved against): 1 exactly when a lit pixel drawn so far landed on a lit cell, 0 otherwise; what it means for the display is `Sprite.CollidesIffPixelCleared` |
| Properties.DrawFlagsCollision | Chip8-Interpreter/cpu.cc:430-464 | Dxyn faults exactly when a row lies past 0xFFF or a lit pixel lands past the display; otherwise VF = 1 iff a lit pixel was switched off, drawFlag is set, cells no lit pixel lands on keep their value, and no register but VF changes |
| Properties.DrawTwiceRestores | Chip8-Interpreter/cpu.cc:430-464 | drawing the same sprite twice at the same place restores the display |
| Properties.RedrawAfterClear | Chip8-Interpreter/cpu.cc:430-464 | on a cleared screen the second of two identical draws sets VF = 1 exactly when the sprite has a lit pixel |
| Semantics.SkipKey | Chip8-Interpreter/cpu.cc:466-481 | Ex9E / ExA1 fail exactly when V[x] names no key (> 15) |
| Cpu.Chip8.SkipKeyPressed | Chip8-Interpreter/cpu.cc:466-473 | skip when keypad[V[x]] ≠ 0; V[x] > 15 is a fault |
| Cpu.Chip8.SkipKeyNotPressed | Chip8-Interpreter/cpu.cc:475-481 | skip when keypad[V[x]] = 0; V[x] > 15 is a fault |
| Cpu.Chip8.LoadDelay | Chip8-Interpreter/cpu.cc:483-488 | V[x] = delay timer, nothing else changes |
| Semantics.FirstPressed | Chip8-Interpreter/cpu.hh:294-308 | the result is the lowest index whose slot is non-zero, and there is none exactly when every slot is zero |
| Cpu.FirstPressedIs | Chip8-Interpreter/cpu.hh:298-305 | a scan that met only released keys before slot k and finds slot k pressed has found the first pressed key |
| Cpu.Chip8.WaitKey | Chip8-Interpreter/cpu.hh:294-308 | the keypad scan with early exit gives `Semantics.WaitKey`: the first pressed key's index to V[x], or pc −= 2 with none pressed |
| Properties.WaitKeyTakesFirst | Chip8-Interpreter/cpu.hh:294-308 | with a key down, Fx0A stores the lowest-numbered pressed key in V[x] and changes nothing else |
| Properties.WaitKeyRefetches | Chip8-Interpreter/cpu.hh:294-308 | with no key down, a cycle on Fx0A leaves pc on the Fx0A word, so the next cycle waits again; only the timers change |
| Cpu.Chip8.SetDelay | Chip8-Interpreter/cpu.cc:531-537 | delay timer = V[x], nothing else changes |
| Cpu.Chip8.SetSound | Chip8-Interpreter/cpu.cc:539-543 | sound timer = V[x], nothing else changes |
| Cpu.Chip8.AddIndex | Chip8-Interpreter/cpu.cc:545-549 | index += V[x] on the 16-bit register (`Semantics.AddIndex`) |
| Cpu.Chip8.FontChar | Chip8-Interpreter/cpu.cc:551-557 | index = 0x50 + 5·V[x] (`Semantics.FontChar`) |
| Properties.FontCharSelectsGlyph | Chip8-Interpreter/cpu.cc:551-557 | with the font loaded and V[x] a digit, index is the digit's glyph address in [0x50, 0x9B] and the five bytes there are its glyph |
| Semantics.StoreBcd | Chip8-Interpreter/cpu.cc:559-571 | Fx33 fails exactly when index + 2 is past 0xFFF |
| Cpu.Chip8.StoreBcd | Chip8-Interpreter/cpu.cc:559-571 | ones at index + 2, tens at index + 1, hundreds at index (`Semantics.StoreBcd`) |
| Properties.StoreBcdDigits | Chip8-Interpreter/cpu.cc:559-571 | three decimal digits, hundreds first, each below 10, recombining to V[x]; no other cell or field changes |
| Semantics.StoreRegs | Chip8-Interpreter/cpu.cc:573-581 | Fx55 fails exactly when index + x is past 0xFFF |
| Cpu.Chip8.StoreRegs | Chip8-Interpreter/cpu.cc:573-581 | the loop over i = 0 .. x writes memory[index + i] = V[i] (`Semantics.StoreRegs`) |
| Semantics.LoadRegs | Chip8-Interpreter/cpu.cc:583-591 | Fx65 (inclusive bound) fails exactly when index + x is past 0xFFF |
| Cpu.Chip8.LoadRegs | Chip8-Interpreter/cpu.cc:583-591 | the loop over i = 0 .. x sets V[i] = memory[index + i] (`Semantics.LoadRegs`) |
| Properties.StoreThenLoadRegs | Chip8-Interpreter/cpu.cc:573-591 | Fx55 then Fx65 with the same x and index: registers unchanged, memory[index + k] = V[k] for k ≤ x, and no other byte changes |
| Properties.LoadThenStoreRegs | Chip8-Interpreter/cpu.cc:573-591 | Fx65 then Fx55 with the same x and index leaves memory as it was and registers above x untouched |
| Properties.ExecFrame | Chip8-Interpreter/cpu.cc:234-591 | every instruction leaves the keypad and every field outside its write set (an independent table, `Writes`) unchanged |
| HeaderVariant.CallPreIncrement | Chip8-Interpreter/cpu.hh:61-66 | header 2nnn: fails exactly when sp + 1 would pass the last slot; slot 0 is never written |
| Cpu.Chip8.HeaderCall | Chip8-Interpreter/cpu.hh:61-66 | ++sp, stack[sp] = pc, pc = nnn, as `HeaderVariant.CallPreIncrement` |
| HeaderVariant.ReturnPostDecrement | Chip8-Interpreter/cpu.hh:50-54 | header 00EE: fails exactly when sp = 0 (the decrement would wrap) or sp is past the stack; the stack is untouched |
| Cpu.Chip8.HeaderReturn | Chip8-Interpreter/cpu.hh:50-54 | pc = stack[sp], then --sp, as `HeaderVariant.ReturnPostDecrement` |
| HeaderVariant.HeaderCallThenReturn | Chip8-Interpreter/cpu.hh:50-66 | in the header order too, call then return restores pc and sp |
| HeaderVariant.StackOrdersAgreeOnPc | Chip8-Interpreter/cpu.hh:50-66 | both stack orders restore pc and sp; the return address sits in slot sp (cpu.cc) or sp + 1 (header) |
| HeaderVariant.WaitKeyAsWritten | Chip8-Interpreter/cpu.hh:294-308 | header Fx0A as written: when slot k is the first pressed one, V[x] = keypad[k] and nothing else changes; with no key down, pc −= 2 and nothing else changes |
| Cpu.Chip8.HeaderWaitKey | Chip8-Interpreter/cpu.hh:294-308 | the scan loop gives `HeaderVariant.WaitKeyAsWritten` |
| HeaderVariant.WaitKeyAsWrittenAgrees | Chip8-Interpreter/cpu.hh:294-308 | the as-written and the model's Fx0A agree exactly when no key is down or the first pressed slot holds its own index |
| HeaderVariant.WaitKeyAsWrittenStoresKeyState | Chip8-Interpreter/cpu.hh:302 | with only key 3 down (slot value 1), the as-written Fx0A stores 1 where the model stores 3 |
| HeaderVariant.LastPressedValue | Chip8-Interpreter/cpu.cc:494-525 | the value is the original V[x] or the content of some pressed slot; with no key down it is V[x]; with the last slot down it is that slot's content |
| HeaderVariant.LastPressedValueIsHighest | Chip8-Interpreter/cpu.cc:494-525 | the assignments run in slot order, so the value is the content of the highest-numbered pressed slot |
| HeaderVariant.WaitKeyAllSlots | Chip8-Interpreter/cpu.cc:490-529 | cpu.cc Fx0A as written: pc −= 2 whatever the keypad holds, V[x] = `LastPressedValue(keypad, V[x])` (the highest pressed slot's content, by `LastPressedValueIsHighest`), every other register and field unchanged |
| HeaderVariant.WaitKeyAllSlotsNeverLeaves | Chip8-Interpreter/cpu.cc:528 | with a key down, the as-written Fx0A still returns pc to the instruction; the model's Fx0A moves on |
| HeaderVariant.StoreRegsExclusive | Chip8-Interpreter/cpu.hh:352-360 | header Fx55 writes V0..V(x−1); fails exactly when x > 0 and index + x > 4096 (with x = 0 the loop touches nothing) |
| Cpu.Chip8.HeaderStoreRegs | Chip8-Interpreter/cpu.hh:352-360 | the loop over i < x gives `HeaderVariant.StoreRegsExclusive` |
| HeaderVariant.LoadRegsExclusive | Chip8-Interpreter/cpu.cc:583-591 | Fx65 as written (cpu.cc and cpu.hh:362-370) loads V0..V(x−1); fails exactly when x > 0 and index + x > 4096 (with x = 0 the loop touches nothing) |
| HeaderVariant.ExclusiveCopiesOfNothing | Chip8-Interpreter/cpu.hh:352-370 | with x = 0 the exclusive Fx55 and Fx65 change nothing and do not fault, wherever index points |
| Cpu.Chip8.HeaderLoadRegs | Chip8-Interpreter/cpu.cc:583-591 | the loop over i < x gives `HeaderVariant.LoadRegsExclusive` |
| HeaderVariant.HeaderStoreThenLoad | Chip8-Interpreter/cpu.hh:352-370 | header Fx55 then Fx65 (x = 0, or the block inside memory) keeps every register, and memory changes only in [index, index + x) |
| HeaderVariant.LoadRegsSkipsLast | Chip8-Interpreter/cpu.cc:583-591 | the as-written Fx65 never loads V[x]; the inclusive one loads memory[index + x]; they agree exactly when that byte equals V[x] |
| HeaderVariant.InitAsWritten | Chip8-Interpreter/cpu.hh:23 | `init` with the uint8_t start address: pc = 0, and the result differs from `Semantics.Init` in pc alone (0x200 truncated to a byte) |
| HeaderVariant.InitAsWrittenMissesRom | Chip8-Interpreter/cpu.cc:23 | after the as-written boot pc = 0, the first fetch is word 0x0000 and the first cycle reports it unrecognised |

## Left out

- main.cpp is not part of this model: the SDL window, frame pacing, key
  mapping and the main loop. The host's part of `draw`, copying display
  cells to pixels, is left out too. Only its clearing of the draw flag
  remains (`ClearDrawFlag`).
- `load_rom`: opening and reading the file and the console dump of the
  loaded bytes are I/O. Only the copy into memory is modelled. The source
  copies without a size check; here an image past 0xFFF is a
  `MemoryOutOfBounds` fault.
- Cxkk draws from `std::mt19937` seeded by `std::random_device`. The random
  byte is the parameter `rnd`, so no distribution is modelled.
- OP_null prints a message to the console. Here it is the status
  `Unrecognized`, which changes nothing.
- The source never checks its array accesses (stack, memory past 0xFFF,
  keypad index, display cell, pc + 1 at fetch). The model makes each one a
  fault, and a fault leaves the state unchanged. `Cycle` also undoes its
  `pc += 2` when the instruction faults. What the C++ actually does there is
  undefined behaviour and is not modelled.
- Cpu.Chip8.Draw: the source writes pixels until it runs out of bounds. The
  model checks the whole sprite first and faults before writing anything.
  So the partial writes before an out-of-bounds pixel are not modelled.
- A display cell is a `bool` here. In the source it is a `uint32_t` that
  holds 0 or 0xFFFFFFFF, and the only values written are those two.
- Sprite pixels are placed by the source's linear formula
  `(y + row) * 64 + (x + col)`. A column past the right edge lands on the
  next row, as in the source; it does not wrap to column 0.
- Bnnn can set pc up to 0xFFF + 0xFF. The source then fetches past memory
  at the next cycle. Here that next cycle is a `FetchOutOfBounds` fault.
- Fx1E wraps index modulo 65536, as the uint16_t field does. It is not
  wrapped modulo 4096.
- The keypad is written only by the host. No instruction changes it
  (`Properties.ExecFrame`).
- The header's copy of Dxyn (cpu.hh:236-268) does not compile as written:
  `(y + row) *  + (x + col)`. It also reads an uninitialised `col` and
  computes `V[Vy] & DISPLAY_HEIGHT`. It is not modelled; cpu.cc's Dxyn is.
- The header's other handlers (cpu.hh:45-370) equal cpu.cc's apart from
  those in `HeaderVariant`, so they are not modelled twice.
- The `opcode` field is not part of the state. The cycle passes the fetched
  word to `Decoder.Decode` directly.
- Properties.RedrawAfterClear: after a clear, drawing a sprite twice sets
  VF = 1 on the second draw whenever the sprite has a lit pixel. A
  description saying it reads 0 does not match cpu.cc; the code is
  followed.

## Findings

| source | as written | input that shows it | evidently intended | confidence | as-written member | corrected member |
|---|---|---|---|---|---|---|
| Chip8-Interpreter/cpu.cc:587 | Fx65 loops `i < Vx`, loading V0..V(x−1), while Fx55 (cpu.cc:577) stores V0..Vx | F065 loads nothing; F155 then F165 leaves V1 unreloaded | Fx65 loads V0..Vx inclusive, the inverse of Fx55 | not executed | HeaderVariant.LoadRegsSkipsLast | Properties.StoreThenLoadRegs |
| Chip8-Interpreter/cpu.hh:23 | `const uint8_t PROGRAM_START_ADDRESS = 0x200` keeps only the low byte, so `init` sets pc = 0. This cpu.hh is not the exact header cpu.cc builds against (cpu.cc:10 initialises `drawFlag` and cpu.cc:38 calls `memory.begin()`, neither declared here); the finding assumes the build header declares the constant the same way | any program: the first cycle fetches 0x0000 from address 0 instead of the program's first word | pc = 0x200 after `init` | not executed | HeaderVariant.InitAsWrittenMissesRom | Properties.BootFetchesRom |
| Chip8-Interpreter/cpu.hh:302 | Fx0A stores the pressed slot's content (`V[Vx] = i`, the host writes 1) instead of the key's index | only key 3 down: V[x] = 1 | V[x] = index of the pressed key (3) | not executed | HeaderVariant.WaitKeyAsWrittenStoresKeyState | Properties.WaitKeyTakesFirst |
| Chip8-Interpreter/cpu.cc:528 | Fx0A executes `pc -= 2` even when a key was found, so the instruction repeats forever | any key down: pc returns to the Fx0A word every cycle | pc stays advanced once a key is pressed | not executed | HeaderVariant.WaitKeyAllSlotsNeverLeaves | Properties.WaitKeyTakesFirst |
