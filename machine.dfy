/** The complete machine state as a value, and the outcomes of executing an
    instruction. The class in module Cpu holds the same state in arrays; its
    State() function maps it to this value. */
module State {
  import opened Bits
  import opened Font

  datatype Option<T> = None | Some(value: T)

  /** V, memory, index, pc, stack, sp, delay_timer, sound_timer, keypad,
      display and drawFlag of the source's `Chip8` struct. A keypad slot holds
      the byte the host writes (non-zero means pressed); a display cell is
      true when the pixel is lit (0xFFFFFFFF in the source). */
  datatype Machine = Machine(
    v: seq<u8>,
    memory: seq<u8>,
    index: u16,
    pc: u16,
    stack: seq<u16>,
    sp: u8,
    delayTimer: u8,
    soundTimer: u8,
    keypad: seq<u8>,
    display: seq<bool>,
    drawFlag: bool)

  /** The fixed array sizes, and the stack pointer within the stack: the calls
      and returns of this model never move it outside [0, 16]. */
  predicate WellFormed(m: Machine)
  {
    |m.v| == REGISTER_COUNT &&
    |m.memory| == MEMORY_SIZE &&
    |m.stack| == STACK_DEPTH &&
    m.sp as nat <= STACK_DEPTH &&
    |m.keypad| == KEY_COUNT &&
    |m.display| == DISPLAY_SIZE
  }

  /** Accesses the source performs without a bounds check. Where the source
      would read or write outside an array, this model stops with a fault. */
  datatype Fault =
    | StackOverflow       // 2nnn with all 16 stack slots in use
    | StackUnderflow      // 00EE with an empty stack
    | MemoryOutOfBounds   // Dxyn, Fx33, Fx55, Fx65 touching an address past 0xFFF
    | KeyOutOfRange       // Ex9E, ExA1 with V[x] > 0xF
    | SpriteOutOfBounds   // Dxyn lighting a pixel past the end of the display buffer
    | FetchOutOfBounds    // fetching the word at pc when pc + 1 > 0xFFF

  datatype Status = Done | Unrecognized | Failed(fault: Fault)

  /** The status of an instruction and the machine after it; a failed
      instruction leaves the machine as it was. */
  datatype Outcome = Outcome(status: Status, next: Machine)

  function Ok(m: Machine): Outcome
  {
    Outcome(Done, m)
  }

  function Fail(m: Machine, f: Fault): Outcome
  {
    Outcome(Failed(f), m)
  }

  /** `V[x] = value` */
  function SetReg(m: Machine, x: Nibble, value: u8): (r: Machine)
    requires WellFormed(m)
    ensures WellFormed(r)
  {
    m.(v := m.v[x := value])
  }

  /** `pc += 2` on the 16-bit program counter. */
  function Advance(m: Machine): (r: Machine)
    requires WellFormed(m)
    ensures WellFormed(r)
  {
    m.(pc := Wrap16(m.pc as int + 2))
  }
}
