/** The `Chip8` object of cpu.cc / cpu.hh: fixed-size arrays and scalar
    registers updated in place, one method per instruction handler, and the
    fetch / execute / timer cycle. Every method is proved to perform exactly
    the pure transition of module Semantics (or HeaderVariant) on State(). */
module Cpu {
  import opened Bits
  import opened Font
  import opened State
  import Semantics
  import HeaderVariant
  import Decoder
  import Sprite

  class Chip8 {
    var V: array<u8>
    var memory: array<u8>
    var index: u16
    var pc: u16
    var stack: array<u16>
    var sp: u8
    var delayTimer: u8
    var soundTimer: u8
    var keypad: array<u8>
    var display: array<bool>
    var drawFlag: bool

    /** The array sizes of the struct, distinct arrays, and sp within the stack. */
    ghost predicate Valid()
      reads this
    {
      V.Length == REGISTER_COUNT && memory.Length == MEMORY_SIZE &&
      stack.Length == STACK_DEPTH && keypad.Length == KEY_COUNT &&
      display.Length == DISPLAY_SIZE && sp as nat <= STACK_DEPTH &&
      V != memory && V != keypad && memory != keypad
    }

    /** The object's state as a value. */
    ghost function State(): (m: Machine)
      requires Valid()
      reads this, V, memory, stack, keypad, display
      ensures WellFormed(m)
    {
      Machine(V[..], memory[..], index, pc, stack[..], sp, delayTimer, soundTimer,
              keypad[..], display[..], drawFlag)
    }

    /** The constructor: every field value-initialised to zero. */
    constructor ()
      ensures Valid() && State() == Semantics.PowerOn()
      ensures fresh(V) && fresh(memory) && fresh(stack) && fresh(keypad) && fresh(display)
    {
      V := new u8[REGISTER_COUNT](_ => 0);
      memory := new u8[MEMORY_SIZE](_ => 0);
      index := 0;
      pc := 0;
      stack := new u16[STACK_DEPTH](_ => 0);
      sp := 0;
      delayTimer := 0;
      soundTimer := 0;
      keypad := new u8[KEY_COUNT](_ => 0);
      display := new bool[DISPLAY_SIZE](_ => false);
      drawFlag := false;
      new;
      assert V[..] == seq(REGISTER_COUNT, _ => 0);
      assert memory[..] == seq(MEMORY_SIZE, _ => 0);
      assert stack[..] == seq(STACK_DEPTH, _ => 0);
      assert keypad[..] == seq(KEY_COUNT, _ => 0);
      assert display[..] == seq(DISPLAY_SIZE, _ => false);
    }

    /** `init`: copy the font to 0x50 and set pc to the program area. */
    method Init()
      requires Valid()
      modifies this, memory
      ensures Valid() && State() == Semantics.Init(old(State()))
    {
      CopyToMemory(FONTSET_START_ADDRESS, FONTSET);
      pc := PROGRAM_START_ADDRESS as u16;
    }

    /** The copy at the heart of `load_rom`: the image goes to 0x200 on. */
    method LoadRom(rom: seq<u8>) returns (status: Status)
      requires Valid()
      modifies memory
      ensures Valid() && Outcome(status, State()) == Semantics.LoadRom(old(State()), rom)
    {
      status := Done;
      if PROGRAM_START_ADDRESS + |rom| > MEMORY_SIZE {
        return Failed(MemoryOutOfBounds);
      }
      CopyToMemory(PROGRAM_START_ADDRESS, rom);
    }

    /** memory[start + i] := src[i], one byte at a time. */
    method CopyToMemory(start: nat, src: seq<u8>)
      requires Valid() && start + |src| <= MEMORY_SIZE
      modifies memory
      ensures Valid() && memory[..] == Semantics.Overwrite(old(memory[..]), start, src)
    {
      var i := 0;
      while i < |src|
        invariant 0 <= i <= |src|
        invariant forall k :: 0 <= k < MEMORY_SIZE ==>
          memory[k] == (if start <= k < start + i then src[k - start] else old(memory[k]))
      {
        memory[start + i] := src[i];
        i := i + 1;
      }
      assert memory[..] == Semantics.Overwrite(old(memory[..]), start, src);
    }

    /** `draw`: the host has copied the frame; only the flag is this model's concern. */
    method ClearDrawFlag()
      requires Valid()
      modifies this
      ensures Valid() && State() == old(State()).(drawFlag := false)
    {
      drawFlag := false;
    }

    // ------------------------------------------------------------ handlers

    /** 00E0 */
    method ClearScreen()
      requires Valid()
      modifies display
      ensures Valid() && State() == Semantics.ClearScreen(old(State())).next
    {
      var i := 0;
      while i < display.Length
        invariant 0 <= i <= display.Length
        invariant forall c :: 0 <= c < i ==> !display[c]
      {
        display[i] := false;
        i := i + 1;
      }
      assert display[..] == seq(DISPLAY_SIZE, _ => false);
    }

    /** 00EE */
    method Return() returns (status: Status)
      requires Valid()
      modifies this
      ensures Valid() && Outcome(status, State()) == Semantics.Return(old(State()))
    {
      status := Done;
      if sp == 0 {
        return Failed(StackUnderflow);
      }
      sp := sp - 1;
      pc := stack[sp];
    }

    /** 1nnn */
    method Jump(nnn: Addr)
      requires Valid()
      modifies this
      ensures Valid() && State() == Semantics.Jump(old(State()), nnn).next
    {
      pc := nnn;
    }

    /** 2nnn */
    method Call(nnn: Addr) returns (status: Status)
      requires Valid()
      modifies this, stack
      ensures Valid() && Outcome(status, State()) == Semantics.Call(old(State()), nnn)
    {
      status := Done;
      if sp as nat >= STACK_DEPTH {
        return Failed(StackOverflow);
      }
      stack[sp] := pc;
      sp := sp + 1;
      pc := nnn;
    }

    /** `pc += 2` on the 16-bit register when the condition holds: the shared
        tail of 3xkk, 4xkk, 5xy0, 9xy0, Ex9E and ExA1. */
    method SkipIf(cond: bool)
      requires Valid()
      modifies this
      ensures Valid() && State() == Semantics.SkipIf(old(State()), cond).next
    {
      if cond {
        pc := Wrap16(pc as int + 2);
      }
    }

    /** 3xkk */
    method SkipEqImm(x: Nibble, kk: u8)
      requires Valid()
      modifies this
      ensures Valid() && State() == Semantics.Exec(old(State()), Decoder.SkipEqImm(x, kk), 0).next
    {
      SkipIf(V[x] == kk);
    }

    /** 4xkk */
    method SkipNeImm(x: Nibble, kk: u8)
      requires Valid()
      modifies this
      ensures Valid() && State() == Semantics.Exec(old(State()), Decoder.SkipNeImm(x, kk), 0).next
    {
      SkipIf(V[x] != kk);
    }

    /** 5xy0 */
    method SkipEqReg(x: Nibble, y: Nibble)
      requires Valid()
      modifies this
      ensures Valid() && State() == Semantics.Exec(old(State()), Decoder.SkipEqReg(x, y), 0).next
    {
      SkipIf(V[x] == V[y]);
    }

    /** 6xkk */
    method LoadImm(x: Nibble, kk: u8)
      requires Valid()
      modifies V
      ensures Valid() && State() == Semantics.Exec(old(State()), Decoder.LoadImm(x, kk), 0).next
    {
      V[x] := kk;
    }

    /** 7xkk */
    method AddImm(x: Nibble, kk: u8)
      requires Valid()
      modifies V
      ensures Valid() && State() == Semantics.AddImm(old(State()), x, kk).next
    {
      V[x] := Wrap8(V[x] as int + kk);
    }

    /** 8xy0 */
    method Move(x: Nibble, y: Nibble)
      requires Valid()
      modifies V
      ensures Valid() && State() == Semantics.Exec(old(State()), Decoder.Move(x, y), 0).next
    {
      V[x] := V[y];
    }

    /** 8xy1 */
    method Or(x: Nibble, y: Nibble)
      requires Valid()
      modifies V
      ensures Valid() && State() == Semantics.Exec(old(State()), Decoder.Or(x, y), 0).next
    {
      V[x] := Or8(V[x], V[y]);
    }

    /** 8xy2 */
    method And(x: Nibble, y: Nibble)
      requires Valid()
      modifies V
      ensures Valid() && State() == Semantics.Exec(old(State()), Decoder.And(x, y), 0).next
    {
      V[x] := And8(V[x], V[y]);
    }

    /** 8xy3 */
    method Xor(x: Nibble, y: Nibble)
      requires Valid()
      modifies V
      ensures Valid() && State() == Semantics.Exec(old(State()), Decoder.Xor(x, y), 0).next
    {
      V[x] := Xor8(V[x], V[y]);
    }

    /** 8xy4: the sum is held in a 16-bit temporary before the flag and the
        truncated result are written. */
    method AddReg(x: Nibble, y: Nibble)
      requires Valid()
      modifies V
      ensures Valid() && State() == Semantics.AddReg(old(State()), x, y).next
    {
      var sum: u16 := V[x] as int + V[y] as int;
      V[FLAG] := if sum > 0xFF then 1 else 0;
      V[x] := Wrap8(sum);
    }

    /** 8xy5 */
    method SubReg(x: Nibble, y: Nibble)
      requires Valid()
      modifies V
      ensures Valid() && State() == Semantics.SubReg(old(State()), x, y).next
    {
      V[FLAG] := if V[x] > V[y] then 1 else 0;
      V[x] := Wrap8(V[x] as int - V[y] as int);
    }

    /** 8xy6: `V[x] & 1` is the low bit, `V[x] % 2`. */
    method ShiftRight(x: Nibble)
      requires Valid()
      modifies V
      ensures Valid() && State() == Semantics.ShiftRight(old(State()), x).next
    {
      V[FLAG] := V[x] % 2;
      V[x] := V[x] / 2;
    }

    /** 8xy7 */
    method SubReverse(x: Nibble, y: Nibble)
      requires Valid()
      modifies V
      ensures Valid() && State() == Semantics.SubReverse(old(State()), x, y).next
    {
      V[FLAG] := if V[y] > V[x] then 1 else 0;
      V[x] := Wrap8(V[y] as int - V[x] as int);
    }

    /** 8xyE: `(V[x] & 0x80) >> 7` is the top bit, `V[x] / 0x80`. */
    method ShiftLeft(x: Nibble)
      requires Valid()
      modifies V
      ensures Valid() && State() == Semantics.ShiftLeft(old(State()), x).next
    {
      V[FLAG] := V[x] / 0x80;
      V[x] := Wrap8(V[x] as int * 2);
    }

    /** 9xy0 */
    method SkipNeReg(x: Nibble, y: Nibble)
      requires Valid()
      modifies this
      ensures Valid() && State() == Semantics.Exec(old(State()), Decoder.SkipNeReg(x, y), 0).next
    {
      SkipIf(V[x] != V[y]);
    }

    /** Annn */
    method LoadIndex(nnn: Addr)
      requires Valid()
      modifies this
      ensures Valid() && State() == Semantics.Exec(old(State()), Decoder.LoadIndex(nnn), 0).next
    {
      index := nnn;
    }

    /** Bnnn */
    method JumpOffset(nnn: Addr)
      requires Valid()
      modifies this
      ensures Valid() && State() == Semantics.JumpOffset(old(State()), nnn).next
    {
      pc := nnn + V[0];
    }

    /** Cxkk, with the generator's byte passed in as `rnd`. */
    method Random(x: Nibble, kk: u8, rnd: u8)
      requires Valid()
      modifies V
      ensures Valid() && State() == Semantics.Random(old(State()), x, kk, rnd).next
    {
      V[x] := And8(rnd, kk);
    }

    /** Dxyn: XOR `n` rows from memory[index] onto the display at
        (V[x] % 64, V[y] % 32), row by row and left to right, setting VF when
        a lit pixel is switched off. The faults are detected before anything
        is written. */
    method Draw(x: Nibble, y: Nibble, n: Nibble) returns (status: Status)
      requires Valid()
      modifies this, V, display
      ensures Valid() && Outcome(status, State()) == Semantics.Draw(old(State()), x, y, n)
    {
      status := Done;
      var px: nat, py: nat := V[x] % DISPLAY_WIDTH, V[y] % DISPLAY_HEIGHT;
      if n > 0 && index as nat + n > MEMORY_SIZE {
        return Failed(MemoryOutOfBounds);
      }
      var rows := if n == 0 then [] else memory[index .. index as nat + n];
      if Sprite.Overruns(rows, px, py) {
        return Failed(SpriteOutOfBounds);
      }
      ghost var m := State();
      assert rows == Semantics.SpriteRows(m, n);
      DrawSprite(rows, px, py);
      drawFlag := true;
    }

    /** The two loops of Dxyn: VF := 0, then every row of the sprite. */
    method DrawSprite(rows: seq<u8>, px: nat, py: nat)
      requires Valid() && px < DISPLAY_WIDTH && !Sprite.Overruns(rows, px, py)
      modifies V, display
      ensures Valid()
      ensures V[..] == old(V[..])[FLAG := if Sprite.Collides(old(display[..]), rows, px, py) then 1 else 0]
      ensures display[..] == Sprite.Blit(old(display[..]), rows, px, py)
    {
      ghost var regs, screen := V[..], display[..];
      V[FLAG] := 0;
      var row := 0;
      while row < |rows|
        modifies V, display
        invariant 0 <= row <= |rows|
        invariant V[..] == regs[FLAG := Sprite.CollisionFlag(screen, rows, px, py, row)]
        invariant display[..] == Sprite.PartialBlit(screen, rows, px, py, row, 0)
      {
        DrawRow(rows[row], row, px, py, regs, screen, rows);
        row := row + 1;
      }
      Sprite.PartialBlitDone(screen, rows, px, py);
    }

    /** The inner loop of Dxyn: the eight pixels of sprite row `row`. */
    method DrawRow(sprite: u8, row: nat, px: nat, py: nat,
                   ghost regs: seq<u8>, ghost screen: seq<bool>, ghost rows: seq<u8>)
      requires Valid() && |regs| == REGISTER_COUNT && |screen| == DISPLAY_SIZE
      requires row < |rows| && rows[row] == sprite && px < DISPLAY_WIDTH && !Sprite.Overruns(rows, px, py)
      requires V[..] == regs[FLAG := Sprite.CollisionFlag(screen, rows, px, py, row)]
      requires display[..] == Sprite.PartialBlit(screen, rows, px, py, row, 0)
      modifies V, display
      ensures V[..] == regs[FLAG := Sprite.CollisionFlag(screen, rows, px, py, row + 1)]
      ensures display[..] == Sprite.PartialBlit(screen, rows, px, py, row + 1, 0)
    {
      var col := 0;
      while col < 8
        invariant 0 <= col <= 8
        invariant V[..] == regs[FLAG := if Sprite.CollidesBefore(screen, rows, px, py, row, col) then 1 else 0]
        invariant display[..] == Sprite.PartialBlit(screen, rows, px, py, row, col)
      {
        Sprite.PartialBlitStep(screen, rows, px, py, row, col);
        Sprite.CollidesStep(screen, rows, px, py, row, col);
        if BitAt(sprite, col) {
          Sprite.InBounds(rows, px, py, row, col);
          var cell := (py + row) * DISPLAY_WIDTH + (px + col);
          if display[cell] {
            V[FLAG] := 1;
          }
          display[cell] := !display[cell];
        }
        col := col + 1;
      }
      Sprite.PartialBlitNextRow(screen, rows, px, py, row);
      Sprite.CollidesNextRow(screen, rows, px, py, row);
    }

    /** Ex9E */
    method SkipKeyPressed(x: Nibble) returns (status: Status)
      requires Valid()
      modifies this
      ensures Valid() && Outcome(status, State()) == Semantics.SkipKey(old(State()), x, true)
    {
      status := Done;
      if V[x] as nat >= KEY_COUNT {
        return Failed(KeyOutOfRange);
      }
      SkipIf(keypad[V[x]] != 0);
    }

    /** ExA1 */
    method SkipKeyNotPressed(x: Nibble) returns (status: Status)
      requires Valid()
      modifies this
      ensures Valid() && Outcome(status, State()) == Semantics.SkipKey(old(State()), x, false)
    {
      status := Done;
      if V[x] as nat >= KEY_COUNT {
        return Failed(KeyOutOfRange);
      }
      SkipIf(keypad[V[x]] == 0);
    }

    /** Fx07 */
    method LoadDelay(x: Nibble)
      requires Valid()
      modifies V
      ensures Valid() && State() == Semantics.Exec(old(State()), Decoder.LoadDelay(x), 0).next
    {
      V[x] := delayTimer;
    }

    /** Fx0A: scan the keypad in index order; the first pressed key's number
        goes to V[x]. With no key pressed, step pc back onto this instruction. */
    method WaitKey(x: Nibble)
      requires Valid()
      modifies this, V
      ensures Valid() && State() == Semantics.WaitKey(old(State()), x).next
    {
      var k := 0;
      while k < KEY_COUNT
        modifies V
        invariant 0 <= k <= KEY_COUNT
        invariant forall j :: 0 <= j < k ==> keypad[j] == 0
      {
        if keypad[k] != 0 {
          FirstPressedIs(keypad[..], k);
          V[x] := k;
          return;
        }
        k := k + 1;
      }
      pc := Wrap16(pc as int - 2);
    }

    /** Fx15 */
    method SetDelay(x: Nibble)
      requires Valid()
      modifies this
      ensures Valid() && State() == Semantics.Exec(old(State()), Decoder.SetDelay(x), 0).next
    {
      delayTimer := V[x];
    }

    /** Fx18 */
    method SetSound(x: Nibble)
      requires Valid()
      modifies this
      ensures Valid() && State() == Semantics.Exec(old(State()), Decoder.SetSound(x), 0).next
    {
      soundTimer := V[x];
    }

    /** Fx1E */
    method AddIndex(x: Nibble)
      requires Valid()
      modifies this
      ensures Valid() && State() == Semantics.AddIndex(old(State()), x).next
    {
      index := Wrap16(index as int + V[x] as int);
    }

    /** Fx29 */
    method FontChar(x: Nibble)
      requires Valid()
      modifies this
      ensures Valid() && State() == Semantics.FontChar(old(State()), x).next
    {
      index := FONTSET_START_ADDRESS + GLYPH_HEIGHT * V[x];
    }

    /** Fx33: ones first, dividing the value by ten after each digit. */
    method StoreBcd(x: Nibble) returns (status: Status)
      requires Valid()
      modifies memory
      ensures Valid() && Outcome(status, State()) == Semantics.StoreBcd(old(State()), x)
    {
      status := Done;
      if index as nat + 2 >= MEMORY_SIZE {
        return Failed(MemoryOutOfBounds);
      }
      var value := V[x];
      memory[index as nat + 2] := value % 10;
      value := value / 10;
      memory[index as nat + 1] := value % 10;
      value := value / 10;
      memory[index] := value % 10;
    }

    /** Fx55: memory[index + i] := V[i] for i = 0 .. x. */
    method StoreRegs(x: Nibble) returns (status: Status)
      requires Valid()
      modifies memory
      ensures Valid() && Outcome(status, State()) == Semantics.StoreRegs(old(State()), x)
    {
      status := Done;
      if index as nat + x >= MEMORY_SIZE {
        return Failed(MemoryOutOfBounds);
      }
      var i := 0;
      while i <= x
        invariant 0 <= i <= x + 1
        invariant forall k :: 0 <= k < MEMORY_SIZE ==>
          memory[k] == (if index as nat <= k < index as nat + i then V[k - index as nat] else old(memory[k]))
      {
        memory[index as nat + i] := V[i];
        i := i + 1;
      }
      assert memory[..] == Semantics.StoreRegs(old(State()), x).next.memory;
    }

    /** Fx65: V[i] := memory[index + i] for i = 0 .. x. */
    method LoadRegs(x: Nibble) returns (status: Status)
      requires Valid()
      modifies V
      ensures Valid() && Outcome(status, State()) == Semantics.LoadRegs(old(State()), x)
    {
      status := Done;
      if index as nat + x >= MEMORY_SIZE {
        return Failed(MemoryOutOfBounds);
      }
      var i := 0;
      while i <= x
        invariant 0 <= i <= x + 1
        invariant forall k :: 0 <= k < REGISTER_COUNT ==>
          V[k] == (if k < i then memory[index as nat + k] else old(V[k]))
      {
        V[i] := memory[index as nat + i];
        i := i + 1;
      }
      assert V[..] == Semantics.LoadRegs(old(State()), x).next.v;
    }

    // ------------------------------------------------------------ dispatch and cycle

    /** `exec_instruction` after decoding: run the handler of `op`. */
    method Execute(op: Decoder.Op, rnd: u8) returns (status: Status)
      requires Valid()
      modifies this, V, memory, stack, display
      ensures Valid() && Outcome(status, State()) == Semantics.Exec(old(State()), op, rnd)
    {
      if op.Unknown? {
        status := Unrecognized;
      } else if Decoder.Nibbles(op).0 < 0x8 {
        status := ExecuteLow(op, rnd);
      } else if Decoder.Nibbles(op).0 == 0x8 {
        ExecuteAlu(op, rnd);
        status := Done;
      } else {
        status := ExecuteHigh(op, rnd);
      }
    }

    /** Groups 0 to 7 of the switch. */
    method ExecuteLow(op: Decoder.Op, rnd: u8) returns (status: Status)
      requires Valid() && !op.Unknown? && Decoder.Nibbles(op).0 < 0x8
      modifies this, V, stack, display
      ensures Valid() && Outcome(status, State()) == Semantics.Exec(old(State()), op, rnd)
    {
      status := Done;
      match op
      case ClearScreen => ClearScreen();
      case Return => status := Return();
      case Jump(nnn) => Jump(nnn);
      case Call(nnn) => status := Call(nnn);
      case SkipEqImm(x, kk) => SkipEqImm(x, kk);
      case SkipNeImm(x, kk) => SkipNeImm(x, kk);
      case SkipEqReg(x, y) => SkipEqReg(x, y);
      case LoadImm(x, kk) => LoadImm(x, kk);
      case AddImm(x, kk) => AddImm(x, kk);
    }

    /** Group 8 of the switch: the register-to-register operations. */
    method ExecuteAlu(op: Decoder.Op, rnd: u8)
      requires Valid() && !op.Unknown? && Decoder.Nibbles(op).0 == 0x8
      modifies V
      ensures Valid() && Outcome(Done, State()) == Semantics.Exec(old(State()), op, rnd)
    {
      match op
      case Move(x, y) => Move(x, y);
      case Or(x, y) => Or(x, y);
      case And(x, y) => And(x, y);
      case Xor(x, y) => Xor(x, y);
      case AddReg(x, y) => AddReg(x, y);
      case SubReg(x, y) => SubReg(x, y);
      case ShiftRight(x, _) => ShiftRight(x);
      case SubReverse(x, y) => SubReverse(x, y);
      case ShiftLeft(x, _) => ShiftLeft(x);
    }

    /** Groups 9 to E of the switch. */
    method ExecuteHigh(op: Decoder.Op, rnd: u8) returns (status: Status)
      requires Valid() && !op.Unknown? && Decoder.Nibbles(op).0 > 0x8
      modifies this, V, memory, display
      ensures Valid() && Outcome(status, State()) == Semantics.Exec(old(State()), op, rnd)
    {
      status := Done;
      if Decoder.Nibbles(op).0 == 0xF {
        status := ExecuteMisc(op, rnd);
        return;
      }
      match op
      case SkipNeReg(x, y) => SkipNeReg(x, y);
      case LoadIndex(nnn) => LoadIndex(nnn);
      case JumpOffset(nnn) => JumpOffset(nnn);
      case Random(x, kk) => Random(x, kk, rnd);
      case Draw(x, y, n) => status := Draw(x, y, n);
      case SkipKeyPressed(x) => status := SkipKeyPressed(x);
      case SkipKeyNotPressed(x) => status := SkipKeyNotPressed(x);
    }

    /** Group F of the switch: timers, keys and the index register. */
    method ExecuteMisc(op: Decoder.Op, rnd: u8) returns (status: Status)
      requires Valid() && !op.Unknown? && Decoder.Nibbles(op).0 == 0xF
      modifies this, V, memory
      ensures Valid() && Outcome(status, State()) == Semantics.Exec(old(State()), op, rnd)
    {
      status := Done;
      if op.StoreBcd? || op.StoreRegs? || op.LoadRegs? {
        status := ExecuteTransfer(op, rnd);
        return;
      }
      match op
      case LoadDelay(x) => LoadDelay(x);
      case WaitKey(x) => WaitKey(x);
      case SetDelay(x) => SetDelay(x);
      case SetSound(x) => SetSound(x);
      case AddIndex(x) => AddIndex(x);
      case FontChar(x) => FontChar(x);
    }

    /** Fx33, Fx55 and Fx65: the transfers between registers and memory. */
    method ExecuteTransfer(op: Decoder.Op, rnd: u8) returns (status: Status)
      requires Valid() && (op.StoreBcd? || op.StoreRegs? || op.LoadRegs?)
      modifies V, memory
      ensures Valid() && Outcome(status, State()) == Semantics.Exec(old(State()), op, rnd)
    {
      match op
      case StoreBcd(x) => status := StoreBcd(x);
      case StoreRegs(x) => status := StoreRegs(x);
      case LoadRegs(x) => status := LoadRegs(x);
    }

    /** `cycle`: fetch the big-endian word at pc, advance pc by 2, run the
        instruction, then count each positive timer down by one. A faulting
        instruction is rolled back to the state before the cycle. */
    method Cycle(rnd: u8) returns (status: Status)
      requires Valid()
      modifies this, V, memory, stack, display
      ensures Valid() && Outcome(status, State()) == Semantics.Step(old(State()), rnd)
    {
      if pc as nat + 1 >= MEMORY_SIZE {
        return Failed(FetchOutOfBounds);
      }
      var opcode: u16 := memory[pc] as int * 0x100 + memory[pc as nat + 1] as int;
      assert opcode == Semantics.Fetch(old(State()));
      pc := pc + 2;
      status := Execute(Decoder.Decode(opcode), rnd);
      if status.Failed? {
        pc := pc - 2;
        return;
      }
      if delayTimer > 0 {
        delayTimer := delayTimer - 1;
      }
      if soundTimer > 0 {
        soundTimer := soundTimer - 1;
      }
    }

    // ------------------------------------------------------------ header variants

    /** 2nnn as cpu.hh writes it. */
    method HeaderCall(nnn: Addr) returns (status: Status)
      requires Valid()
      modifies this, stack
      ensures Valid() && Outcome(status, State()) == HeaderVariant.CallPreIncrement(old(State()), nnn)
    {
      status := Done;
      if sp as nat + 1 >= STACK_DEPTH {
        return Failed(StackOverflow);
      }
      sp := sp + 1;
      stack[sp] := pc;
      pc := nnn;
    }

    /** 00EE as cpu.hh writes it. */
    method HeaderReturn() returns (status: Status)
      requires Valid()
      modifies this
      ensures Valid() && Outcome(status, State()) == HeaderVariant.ReturnPostDecrement(old(State()))
    {
      status := Done;
      if sp == 0 || sp as nat >= STACK_DEPTH {
        return Failed(StackUnderflow);
      }
      pc := stack[sp];
      sp := sp - 1;
    }

    /** Fx0A as cpu.hh writes it: the first pressed slot's content goes to V[x]. */
    method HeaderWaitKey(x: Nibble)
      requires Valid()
      modifies this, V
      ensures Valid() && State() == HeaderVariant.WaitKeyAsWritten(old(State()), x).next
    {
      var k := 0;
      while k < KEY_COUNT
        modifies V
        invariant 0 <= k <= KEY_COUNT
        invariant forall j :: 0 <= j < k ==> keypad[j] == 0
      {
        if keypad[k] != 0 {
          FirstPressedIs(keypad[..], k);
          V[x] := keypad[k];
          return;
        }
        k := k + 1;
      }
      pc := Wrap16(pc as int - 2);
    }

    /** Fx55 as cpu.hh writes it: indices 0 .. x - 1. */
    method HeaderStoreRegs(x: Nibble) returns (status: Status)
      requires Valid()
      modifies memory
      ensures Valid() && Outcome(status, State()) == HeaderVariant.StoreRegsExclusive(old(State()), x)
    {
      status := Done;
      if x > 0 && index as nat + x > MEMORY_SIZE {
        return Failed(MemoryOutOfBounds);
      }
      var i := 0;
      while i < x
        invariant 0 <= i <= x
        invariant forall k :: 0 <= k < MEMORY_SIZE ==>
          memory[k] == (if index as nat <= k < index as nat + i then V[k - index as nat] else old(memory[k]))
      {
        memory[index as nat + i] := V[i];
        i := i + 1;
      }
      assert memory[..] == HeaderVariant.StoreRegsExclusive(old(State()), x).next.memory;
    }

    /** Fx65 as cpu.hh and cpu.cc write it: indices 0 .. x - 1. */
    method HeaderLoadRegs(x: Nibble) returns (status: Status)
      requires Valid()
      modifies V
      ensures Valid() && Outcome(status, State()) == HeaderVariant.LoadRegsExclusive(old(State()), x)
    {
      status := Done;
      if x > 0 && index as nat + x > MEMORY_SIZE {
        return Failed(MemoryOutOfBounds);
      }
      var i := 0;
      while i < x
        invariant 0 <= i <= x
        invariant forall k :: 0 <= k < REGISTER_COUNT ==>
          V[k] == (if k < i then memory[index as nat + k] else old(V[k]))
      {
        V[i] := memory[index as nat + i];
        i := i + 1;
      }
      assert V[..] == HeaderVariant.LoadRegsExclusive(old(State()), x).next.v;
    }
  }

  /** Found by a scan that met only released keys before slot k. */
  lemma FirstPressedIs(keys: seq<u8>, k: nat)
    requires k < |keys| && keys[k] != 0
    requires forall j :: 0 <= j < k ==> keys[j] == 0
    ensures Semantics.FirstPressed(keys) == Some(k)
  {
  }
}
