/** The meaning of every instruction as a pure transition of the machine state:
    one function per handler of cpu.cc, the dispatch `Exec` and the cycle
    `Step`. The methods of class Cpu.Chip8 are proved to perform exactly these
    transitions. */
module Semantics {
  import opened Bits
  import opened Font
  import opened State
  import Decoder
  import Sprite

  /** 00E0: every pixel off. */
  function ClearScreen(m: Machine): (r: Outcome)
    requires WellFormed(m)
    ensures r.status == Done && WellFormed(r.next)
    ensures forall c :: 0 <= c < DISPLAY_SIZE ==> !r.next.display[c]
  {
    Ok(m.(display := seq(DISPLAY_SIZE, _ => false)))
  }

  /** 00EE: pop the return address (decrement sp, then read stack[sp]). */
  function Return(m: Machine): (r: Outcome)
    requires WellFormed(m)
    ensures WellFormed(r.next)
    ensures r.status.Failed? <==> m.sp == 0
  {
    if m.sp == 0 then Fail(m, StackUnderflow)
    else Ok(m.(sp := m.sp - 1, pc := m.stack[m.sp - 1]))
  }

  /** 1nnn */
  function Jump(m: Machine, nnn: Addr): (r: Outcome)
    requires WellFormed(m)
    ensures r.status == Done && WellFormed(r.next)
  {
    Ok(m.(pc := nnn))
  }

  /** 2nnn: push pc (write stack[sp], then increment sp) and jump. */
  function Call(m: Machine, nnn: Addr): (r: Outcome)
    requires WellFormed(m)
    ensures WellFormed(r.next)
    ensures r.status.Failed? <==> m.sp as nat == STACK_DEPTH
  {
    if m.sp as nat >= STACK_DEPTH then Fail(m, StackOverflow)
    else Ok(m.(stack := m.stack[m.sp := m.pc], sp := m.sp + 1, pc := nnn))
  }

  /** The conditional skips: `if (cond) pc += 2`. */
  function SkipIf(m: Machine, cond: bool): (r: Outcome)
    requires WellFormed(m)
    ensures r.status == Done && WellFormed(r.next)
  {
    Ok(if cond then Advance(m) else m)
  }

  /** 7xkk: `V[x] += kk` on a byte; VF is not touched. */
  function AddImm(m: Machine, x: Nibble, kk: u8): (r: Outcome)
    requires WellFormed(m)
    ensures r.status == Done && WellFormed(r.next)
  {
    Ok(SetReg(m, x, Wrap8(m.v[x] as int + kk)))
  }

  /** 8xy4: the carry is taken from the 16-bit sum before it is truncated into V[x]. */
  function AddReg(m: Machine, x: Nibble, y: Nibble): (r: Outcome)
    requires WellFormed(m)
    ensures r.status == Done && WellFormed(r.next)
  {
    var sum := m.v[x] as int + m.v[y];
    var flagged := SetReg(m, FLAG, if sum > 0xFF then 1 else 0);
    Ok(SetReg(flagged, x, Wrap8(sum)))
  }

  /** 8xy5: VF := V[x] > V[y], then `V[x] -= V[y]`. The subtraction reads the
      registers after VF is written. */
  function SubReg(m: Machine, x: Nibble, y: Nibble): (r: Outcome)
    requires WellFormed(m)
    ensures r.status == Done && WellFormed(r.next)
  {
    var flagged := SetReg(m, FLAG, if m.v[x] > m.v[y] then 1 else 0);
    Ok(SetReg(flagged, x, Wrap8(flagged.v[x] as int - flagged.v[y])))
  }

  /** 8xy6: VF := V[x] & 1, then `V[x] >>= 1`. */
  function ShiftRight(m: Machine, x: Nibble): (r: Outcome)
    requires WellFormed(m)
    ensures r.status == Done && WellFormed(r.next)
  {
    var flagged := SetReg(m, FLAG, m.v[x] % 2);
    Ok(SetReg(flagged, x, flagged.v[x] / 2))
  }

  /** 8xy7: VF := V[y] > V[x], then `V[x] = V[y] - V[x]`. */
  function SubReverse(m: Machine, x: Nibble, y: Nibble): (r: Outcome)
    requires WellFormed(m)
    ensures r.status == Done && WellFormed(r.next)
  {
    var flagged := SetReg(m, FLAG, if m.v[y] > m.v[x] then 1 else 0);
    Ok(SetReg(flagged, x, Wrap8(flagged.v[y] as int - flagged.v[x])))
  }

  /** 8xyE: VF := (V[x] & 0x80) >> 7, then `V[x] <<= 1` on a byte. */
  function ShiftLeft(m: Machine, x: Nibble): (r: Outcome)
    requires WellFormed(m)
    ensures r.status == Done && WellFormed(r.next)
  {
    var flagged := SetReg(m, FLAG, m.v[x] / 0x80);
    Ok(SetReg(flagged, x, Wrap8(flagged.v[x] as int * 2)))
  }

  /** Bnnn: the sum of a 12-bit address and a byte always fits in pc. */
  function JumpOffset(m: Machine, nnn: Addr): (r: Outcome)
    requires WellFormed(m)
    ensures r.status == Done && WellFormed(r.next)
  {
    Ok(m.(pc := nnn + m.v[0]))
  }

  /** Cxkk with the random byte `rnd` supplied by the caller. */
  function Random(m: Machine, x: Nibble, kk: u8, rnd: u8): (r: Outcome)
    requires WellFormed(m)
    ensures r.status == Done && WellFormed(r.next)
  {
    Ok(SetReg(m, x, And8(rnd, kk)))
  }

  /** The `n` sprite rows read by Dxyn, from memory[index] on. */
  function SpriteRows(m: Machine, n: Nibble): (rows: seq<u8>)
    requires WellFormed(m)
    requires n == 0 || m.index as nat + n <= MEMORY_SIZE
    ensures |rows| == n
    ensures forall r :: 0 <= r < n ==> rows[r] == m.memory[m.index as nat + r]
  {
    if n == 0 then [] else m.memory[m.index .. m.index as nat + n]
  }

  /** Dxyn: the base position wraps (V[x] % 64, V[y] % 32); VF := 0, then 1 if
      a lit pixel is switched off; the frame is marked ready. Reading a row
      past 0xFFF or lighting a pixel past the display buffer is a fault. */
  function Draw(m: Machine, x: Nibble, y: Nibble, n: Nibble): (r: Outcome)
    requires WellFormed(m)
    ensures WellFormed(r.next)
    ensures r.status.Failed? ==> r.next == m
    ensures r.status.Done? ==> r.next.drawFlag && r.next.memory == m.memory && r.next.pc == m.pc
  {
    var px: nat, py: nat := m.v[x] % DISPLAY_WIDTH, m.v[y] % DISPLAY_HEIGHT;
    if n > 0 && m.index as nat + n > MEMORY_SIZE then Fail(m, MemoryOutOfBounds)
    else
      var rows := SpriteRows(m, n);
      if Sprite.Overruns(rows, px, py) then Fail(m, SpriteOutOfBounds)
      else
        var collided := Sprite.Collides(m.display, rows, px, py);
        Ok(SetReg(m, FLAG, if collided then 1 else 0).(
          display := Sprite.Blit(m.display, rows, px, py),
          drawFlag := true))
  }

  /** Ex9E / ExA1: skip when the key named by V[x] is (not) pressed. */
  function SkipKey(m: Machine, x: Nibble, pressed: bool): (r: Outcome)
    requires WellFormed(m)
    ensures WellFormed(r.next)
    ensures r.status.Failed? <==> m.v[x] as nat >= KEY_COUNT
  {
    if m.v[x] as nat >= KEY_COUNT then Fail(m, KeyOutOfRange)
    else SkipIf(m, (m.keypad[m.v[x]] != 0) == pressed)
  }

  /** The lowest-numbered pressed key, if any. */
  function FirstPressed(keys: seq<u8>): (k: Option<nat>)
    ensures k.Some? ==> k.value < |keys| && keys[k.value] != 0 &&
                        forall j :: 0 <= j < k.value ==> keys[j] == 0
    ensures k.None? <==> forall j :: 0 <= j < |keys| ==> keys[j] == 0
  {
    if |keys| == 0 then None
    else if keys[0] != 0 then Some(0)
    else match FirstPressed(keys[1..])
      case None => None
      case Some(j) => Some(j + 1)
  }

  /** Fx0A: the first pressed key in index order goes to V[x]; with no key
      pressed, `pc -= 2` makes the next cycle fetch this instruction again. */
  function WaitKey(m: Machine, x: Nibble): (r: Outcome)
    requires WellFormed(m)
    ensures r.status == Done && WellFormed(r.next)
  {
    match FirstPressed(m.keypad)
    case Some(k) => Ok(SetReg(m, x, k))
    case None => Ok(m.(pc := Wrap16(m.pc as int - 2)))
  }

  /** Fx1E: `index += V[x]` on the 16-bit index register. */
  function AddIndex(m: Machine, x: Nibble): (r: Outcome)
    requires WellFormed(m)
    ensures r.status == Done && WellFormed(r.next)
  {
    Ok(m.(index := Wrap16(m.index as int + m.v[x])))
  }

  /** Fx29: index := the address of the glyph row of digit V[x] in the font. */
  function FontChar(m: Machine, x: Nibble): (r: Outcome)
    requires WellFormed(m)
    ensures r.status == Done && WellFormed(r.next)
  {
    Ok(m.(index := FONTSET_START_ADDRESS + GLYPH_HEIGHT * m.v[x]))
  }

  /** Fx33: the ones digit of V[x] at index + 2, the tens at index + 1, the
      hundreds at index. */
  function StoreBcd(m: Machine, x: Nibble): (r: Outcome)
    requires WellFormed(m)
    ensures WellFormed(r.next)
    ensures r.status.Failed? <==> m.index as nat + 2 >= MEMORY_SIZE
  {
    if m.index as nat + 2 >= MEMORY_SIZE then Fail(m, MemoryOutOfBounds)
    else
      var value := m.v[x];
      var i := m.index as nat;
      Ok(m.(memory := m.memory[i + 2 := value % 10][i + 1 := value / 10 % 10][i := value / 10 / 10 % 10]))
  }

  /** Fx55: memory[index + i] := V[i] for i = 0 .. x. */
  function StoreRegs(m: Machine, x: Nibble): (r: Outcome)
    requires WellFormed(m)
    ensures WellFormed(r.next)
    ensures r.status.Failed? <==> m.index as nat + x >= MEMORY_SIZE
  {
    if m.index as nat + x >= MEMORY_SIZE then Fail(m, MemoryOutOfBounds)
    else
      var i := m.index as nat;
      Ok(m.(memory := seq(MEMORY_SIZE, k requires 0 <= k < MEMORY_SIZE =>
        if i <= k <= i + x then m.v[k - i] else m.memory[k])))
  }

  /** Fx65: V[i] := memory[index + i] for i = 0 .. x, the inverse of Fx55. */
  function LoadRegs(m: Machine, x: Nibble): (r: Outcome)
    requires WellFormed(m)
    ensures WellFormed(r.next)
    ensures r.status.Failed? <==> m.index as nat + x >= MEMORY_SIZE
  {
    if m.index as nat + x >= MEMORY_SIZE then Fail(m, MemoryOutOfBounds)
    else
      var i := m.index as nat;
      Ok(m.(v := seq(REGISTER_COUNT, k requires 0 <= k < REGISTER_COUNT =>
        if k <= x then m.memory[i + k] else m.v[k])))
  }

  /** The instruction table: the handler each decoded instruction runs. An
      unrecognized instruction changes nothing. */
  function Exec(m: Machine, op: Decoder.Op, rnd: u8): (r: Outcome)
    requires WellFormed(m)
    ensures WellFormed(r.next)
    ensures r.status.Failed? || r.status == Unrecognized ==> r.next == m
    ensures r.status == Unrecognized <==> op.Unknown?
  {
    match op
    case ClearScreen => ClearScreen(m)
    case Return => Return(m)
    case Jump(nnn) => Jump(m, nnn)
    case Call(nnn) => Call(m, nnn)
    case SkipEqImm(x, kk) => SkipIf(m, m.v[x] == kk)
    case SkipNeImm(x, kk) => SkipIf(m, m.v[x] != kk)
    case SkipEqReg(x, y) => SkipIf(m, m.v[x] == m.v[y])
    case LoadImm(x, kk) => Ok(SetReg(m, x, kk))
    case AddImm(x, kk) => AddImm(m, x, kk)
    case Move(x, y) => Ok(SetReg(m, x, m.v[y]))
    case Or(x, y) => Ok(SetReg(m, x, Or8(m.v[x], m.v[y])))
    case And(x, y) => Ok(SetReg(m, x, And8(m.v[x], m.v[y])))
    case Xor(x, y) => Ok(SetReg(m, x, Xor8(m.v[x], m.v[y])))
    case AddReg(x, y) => AddReg(m, x, y)
    case SubReg(x, y) => SubReg(m, x, y)
    case ShiftRight(x, _) => ShiftRight(m, x)
    case SubReverse(x, y) => SubReverse(m, x, y)
    case ShiftLeft(x, _) => ShiftLeft(m, x)
    case SkipNeReg(x, y) => SkipIf(m, m.v[x] != m.v[y])
    case LoadIndex(nnn) => Ok(m.(index := nnn))
    case JumpOffset(nnn) => JumpOffset(m, nnn)
    case Random(x, kk) => Random(m, x, kk, rnd)
    case Draw(x, y, n) => Draw(m, x, y, n)
    case SkipKeyPressed(x) => SkipKey(m, x, true)
    case SkipKeyNotPressed(x) => SkipKey(m, x, false)
    case LoadDelay(x) => Ok(SetReg(m, x, m.delayTimer))
    case WaitKey(x) => WaitKey(m, x)
    case SetDelay(x) => Ok(m.(delayTimer := m.v[x]))
    case SetSound(x) => Ok(m.(soundTimer := m.v[x]))
    case AddIndex(x) => AddIndex(m, x)
    case FontChar(x) => FontChar(m, x)
    case StoreBcd(x) => StoreBcd(m, x)
    case StoreRegs(x) => StoreRegs(m, x)
    case LoadRegs(x) => LoadRegs(m, x)
    case Unknown(_) => Outcome(Unrecognized, m)
  }

  /** A timer counts down to zero and stays there. */
  function Tick(t: u8): (r: u8)
    ensures t > 0 ==> r == t - 1
    ensures t == 0 ==> r == 0
  {
    if t > 0 then t - 1 else t
  }

  /** Both timers counted down once, as the end of every cycle does. */
  function Ticked(m: Machine): (r: Machine)
    requires WellFormed(m)
    ensures WellFormed(r)
    ensures r.delayTimer as int == if m.delayTimer > 0 then m.delayTimer - 1 else 0
    ensures r.soundTimer as int == if m.soundTimer > 0 then m.soundTimer - 1 else 0
  {
    m.(delayTimer := Tick(m.delayTimer), soundTimer := Tick(m.soundTimer))
  }

  /** The word at pc, high byte first. */
  function Fetch(m: Machine): (w: u16)
    requires WellFormed(m) && m.pc as nat + 1 < MEMORY_SIZE
    ensures w / 0x100 == m.memory[m.pc] && w % 0x100 == m.memory[m.pc as nat + 1]
  {
    m.memory[m.pc] as int * 0x100 + m.memory[m.pc as nat + 1]
  }

  /** One cycle: fetch the word at pc, advance pc by 2, run the decoded
      instruction, then count both timers down. A fault anywhere leaves the
      machine exactly as it was before the cycle. */
  function Step(m: Machine, rnd: u8): (r: Outcome)
    requires WellFormed(m)
    ensures WellFormed(r.next)
    ensures r.status.Failed? ==> r.next == m
  {
    if m.pc as nat + 1 >= MEMORY_SIZE then Fail(m, FetchOutOfBounds)
    else
      var fetched := m.(pc := m.pc + 2);
      var o := Exec(fetched, Decoder.Decode(Fetch(m)), rnd);
      if o.status.Failed? then Fail(m, o.status.fault)
      else Outcome(o.status, Ticked(o.next))
  }

  /** The state the constructor leaves: every register, array and flag zero. */
  function PowerOn(): (m: Machine)
    ensures WellFormed(m)
  {
    Machine(seq(REGISTER_COUNT, _ => 0), seq(MEMORY_SIZE, _ => 0), 0, 0, seq(STACK_DEPTH, _ => 0), 0, 0, 0,
            seq(KEY_COUNT, _ => 0), seq(DISPLAY_SIZE, _ => false), false)
  }

  /** The font occupies [0x50, 0xA0). */
  predicate FontLoaded(m: Machine)
    requires WellFormed(m)
  {
    m.memory[FONTSET_START_ADDRESS .. FONTSET_START_ADDRESS + |FONTSET|] == FONTSET
  }

  /** `src` copied over `mem` from address `start` on. */
  function Overwrite(mem: seq<u8>, start: nat, src: seq<u8>): (r: seq<u8>)
    requires start + |src| <= |mem|
    ensures |r| == |mem|
    ensures r[start .. start + |src|] == src
    ensures forall k :: 0 <= k < |mem| && !(start <= k < start + |src|) ==> r[k] == mem[k]
  {
    mem[..start] + src + mem[start + |src|..]
  }

  /** `init`: copy the font to 0x50 and point pc at the program area. */
  function Init(m: Machine): (r: Machine)
    requires WellFormed(m)
    ensures WellFormed(r) && FontLoaded(r) && r.pc as nat == PROGRAM_START_ADDRESS
  {
    m.(memory := Overwrite(m.memory, FONTSET_START_ADDRESS, FONTSET), pc := PROGRAM_START_ADDRESS)
  }

  /** Copy a program image to memory from 0x200 on; an image that does not fit
      below 0x1000 is a fault. */
  function LoadRom(m: Machine, rom: seq<u8>): (r: Outcome)
    requires WellFormed(m)
    ensures WellFormed(r.next)
    ensures r.status.Failed? <==> PROGRAM_START_ADDRESS + |rom| > MEMORY_SIZE
  {
    if PROGRAM_START_ADDRESS + |rom| > MEMORY_SIZE then Fail(m, MemoryOutOfBounds)
    else Ok(m.(memory := Overwrite(m.memory, PROGRAM_START_ADDRESS, rom)))
  }
}
