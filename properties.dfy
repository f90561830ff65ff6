/** What the instruction set promises, stated over the pure transitions of
    module Semantics: whole-cycle behaviour, flag arithmetic, the stack
    discipline, BCD, the font, sprite drawing and the register block copies. */
module Properties {
  import opened Bits
  import opened Font
  import opened State
  import opened Semantics
  import Decoder
  import Sprite

  // ---------------------------------------------------------------- the cycle

  /** The word `op` is fetched by a cycle at m. */
  predicate Fetches(m: Machine, op: Decoder.Op)
    requires WellFormed(m)
  {
    m.pc as nat + 1 < MEMORY_SIZE && Decoder.Decode(Fetch(m)) == op
  }

  /** A 1nnn word at pc: after the cycle pc is exactly nnn, the advance by 2
      having been overwritten, and only the timers have moved otherwise. */
  lemma {:induction false} JumpLandsOnTarget(m: Machine, nnn: Addr, rnd: u8)
    requires WellFormed(m) && m.pc as nat + 1 < MEMORY_SIZE
    requires m.memory[m.pc] == 0x10 + nnn / 0x100 && m.memory[m.pc as nat + 1] == nnn % 0x100
    ensures Step(m, rnd) == Ok(Ticked(m.(pc := nnn)))
  {
    Decoder.NnnNibbles(nnn);
    assert Fetch(m) == Decoder.Encode(Decoder.Jump(nnn));
    Decoder.DecodeEncode(Decoder.Jump(nnn));
  }

  /** After the handler, each timer drops by one only if it was positive; the
      timer a Fx15 / Fx18 has just loaded is the one that is counted down. */
  lemma {:induction false} StepTicksTimers(m: Machine, rnd: u8)
    requires WellFormed(m) && m.pc as nat + 1 < MEMORY_SIZE
    requires !Step(m, rnd).status.Failed?
    ensures var op := Decoder.Decode(Fetch(m));
            var r := Step(m, rnd).next;
            r.delayTimer == Tick(if op.SetDelay? then m.v[op.x] else m.delayTimer) &&
            r.soundTimer == Tick(if op.SetSound? then m.v[op.x] else m.soundTimer)
  {
    var op := Decoder.Decode(Fetch(m));
    var o := Exec(m.(pc := m.pc + 2), op, rnd);
    ExecFrame(m.(pc := m.pc + 2), op, rnd);
  }

  /** A word the switch does not recognise costs one cycle: pc moves past it,
      the timers tick and nothing else changes. */
  lemma {:induction false} UnrecognizedSkipped(m: Machine, rnd: u8)
    requires WellFormed(m) && m.pc as nat + 1 < MEMORY_SIZE
    requires Decoder.Unmatched(Fetch(m))
    ensures Step(m, rnd) == Outcome(Unrecognized, Ticked(m.(pc := m.pc + 2)))
  {
    Decoder.DecodeUnknown(Fetch(m));
  }

  /** The conditional skips 3xkk, 4xkk, 5xy0, 9xy0 and the key skips: the
      condition the instruction tests, written independently of the handlers. */
  predicate SkipCondition(m: Machine, op: Decoder.Op)
    requires WellFormed(m) && IsSkip(op)
    requires op.SkipKeyPressed? || op.SkipKeyNotPressed? ==> m.v[op.x] as nat < KEY_COUNT
  {
    match op
    case SkipEqImm(x, kk) => m.v[x] == kk
    case SkipNeImm(x, kk) => m.v[x] != kk
    case SkipEqReg(x, y) => m.v[x] == m.v[y]
    case SkipNeReg(x, y) => m.v[x] != m.v[y]
    case SkipKeyPressed(x) => m.keypad[m.v[x]] != 0
    case SkipKeyNotPressed(x) => m.keypad[m.v[x]] == 0
  }

  predicate IsSkip(op: Decoder.Op)
  {
    op.SkipEqImm? || op.SkipNeImm? || op.SkipEqReg? || op.SkipNeReg? ||
    op.SkipKeyPressed? || op.SkipKeyNotPressed?
  }

  /** A skip instruction adds 4 to pc over its cycle when its condition holds
      and 2 when it does not, and changes nothing else but the timers. A key
      skip needs V[x] to name a key; otherwise it faults (`StepKeyFault`). */
  lemma {:induction false} SkipsAddTwo(m: Machine, op: Decoder.Op, rnd: u8)
    requires WellFormed(m) && Fetches(m, op) && IsSkip(op)
    requires op.SkipKeyPressed? || op.SkipKeyNotPressed? ==> m.v[op.x] as nat < KEY_COUNT
    ensures Step(m, rnd) == Ok(Ticked(m.(pc := m.pc + if SkipCondition(m, op) then 4 else 2)))
  {
  }
  /** Ex9E / ExA1 with V[x] > 15 name no key: the cycle faults and the
      machine is left as it was. */
  lemma {:induction false} StepKeyFault(m: Machine, op: Decoder.Op, rnd: u8)
    requires WellFormed(m) && Fetches(m, op) && (op.SkipKeyPressed? || op.SkipKeyNotPressed?)
    requires m.v[op.x] as nat >= KEY_COUNT
    ensures Step(m, rnd) == Fail(m, KeyOutOfRange)
  {
  }


  /** Fx0A with no key down: the cycle ends with pc back on the Fx0A word,
      so the next cycle waits again; only the timers move. */
  lemma {:induction false} WaitKeyRefetches(m: Machine, x: Nibble, rnd: u8)
    requires WellFormed(m) && Fetches(m, Decoder.WaitKey(x))
    requires forall k :: 0 <= k < KEY_COUNT ==> m.keypad[k] == 0
    ensures Step(m, rnd) == Ok(Ticked(m))
  {
    var r := Step(m, rnd).next;
    assert r.pc == m.pc;
    assert r == Ticked(m);
  }

  /** Fx0A with a key down: V[x] receives the lowest-numbered pressed key and
      nothing else changes, pc included. */
  lemma {:induction false} WaitKeyTakesFirst(m: Machine, x: Nibble, k: nat, rnd: u8)
    requires WellFormed(m) && k < KEY_COUNT && m.keypad[k] != 0
    requires forall j :: 0 <= j < k ==> m.keypad[j] == 0
    ensures Exec(m, Decoder.WaitKey(x), rnd) == Ok(m.(v := m.v[x := k]))
  {
    var f := FirstPressed(m.keypad);
    assert f.Some?;
    assert f.value == k;
  }

  // ---------------------------------------------------------------- the stack

  /** 2nnn then 00EE: pc and sp are restored; the only trace left is the
      return address in the stack slot the call used. */
  lemma {:induction false} CallThenReturn(m: Machine, nnn: Addr)
    requires WellFormed(m) && m.sp as nat < STACK_DEPTH
    ensures Call(m, nnn).status == Done
    ensures Return(Call(m, nnn).next) == Ok(m.(stack := m.stack[m.sp := m.pc]))
  {
  }

  /** A 2nnn cycle whose target holds 00EE, followed by that cycle: execution
      resumes at the word after the call with the stack pointer restored. */
  lemma {:induction false} CycleCallReturn(m: Machine, nnn: Addr, rnd1: u8, rnd2: u8)
    requires WellFormed(m) && Fetches(m, Decoder.Call(nnn)) && m.sp as nat < STACK_DEPTH
    requires nnn + 1 < MEMORY_SIZE && m.memory[nnn] == 0x00 && m.memory[nnn + 1] == 0xEE
    ensures Step(m, rnd1).status == Done
    ensures var s := Step(Step(m, rnd1).next, rnd2);
            s.status == Done && s.next.pc == m.pc + 2 && s.next.sp == m.sp
  {
    var s1 := Step(m, rnd1).next;
    assert s1.pc == nnn && s1.memory == m.memory && s1.sp == m.sp + 1;
    assert Fetch(s1) == 0x00EE;
    assert Decoder.Decode(0x00EE) == Decoder.Return;
  }

  /** A call with all 16 slots in use and a return with none are faults, and
      a fault leaves the machine as it was. */
  lemma {:induction false} StackFaults(m: Machine, nnn: Addr)
    requires WellFormed(m)
    ensures m.sp as nat == STACK_DEPTH ==> Call(m, nnn) == Fail(m, StackOverflow)
    ensures m.sp == 0 ==> Return(m) == Fail(m, StackUnderflow)
    ensures Call(m, nnn).next.sp as nat <= STACK_DEPTH && Return(m).next.sp as nat <= STACK_DEPTH
  {
  }

  // ---------------------------------------------------------------- arithmetic

  /** The registers other than `x` and VF are untouched, as is all the other state. */
  predicate OnlyRegs(m: Machine, r: Machine, x: Nibble)
    requires WellFormed(m) && WellFormed(r)
  {
    r == m.(v := r.v) && forall k :: 0 <= k < REGISTER_COUNT && k != x && k != FLAG ==> r.v[k] == m.v[k]
  }

  /** 7xkk: V[x] gains kk modulo 256; no carry flag, VF is untouched. */
  lemma {:induction false} AddImmKeepsFlag(m: Machine, x: Nibble, kk: u8)
    requires WellFormed(m) && x != FLAG
    ensures var r := AddImm(m, x, kk).next;
            r.v[x] == (m.v[x] as int + kk) % 0x100 && r.v[FLAG] == m.v[FLAG] && OnlyRegs(m, r, x)
  {
  }

  /** 8xy4 with x ≠ F: V[x] is the sum modulo 256 and VF is 1 exactly when
      the unwrapped sum exceeds 255. */
  lemma {:induction false} AddRegCarry(m: Machine, x: Nibble, y: Nibble)
    requires WellFormed(m) && x != FLAG
    ensures var r := AddReg(m, x, y).next;
            r.v[x] == (m.v[x] as int + m.v[y]) % 0x100 &&
            (r.v[FLAG] == 1 <==> m.v[x] as int + m.v[y] > 0xFF) && r.v[FLAG] <= 1 &&
            r.v[x] as int + 0x100 * r.v[FLAG] as int == m.v[x] as int + m.v[y] &&
            OnlyRegs(m, r, x)
  {
  }

  /** 8xy5 with x, y ≠ F: VF is 1 exactly when V[x] > V[y] (strictly) and
      V[x] becomes the difference modulo 256. */
  lemma {:induction false} SubRegBorrow(m: Machine, x: Nibble, y: Nibble)
    requires WellFormed(m) && x != FLAG && y != FLAG
    ensures var r := SubReg(m, x, y).next;
            r.v[x] == (m.v[x] as int - m.v[y]) % 0x100 &&
            (r.v[FLAG] == 1 <==> m.v[x] > m.v[y]) && r.v[FLAG] <= 1 &&
            OnlyRegs(m, r, x)
  {
  }

  /** 8xy7 with x, y ≠ F: VF is 1 exactly when V[y] > V[x] (strictly) and
      V[x] becomes V[y] - V[x] modulo 256. */
  lemma {:induction false} SubReverseBorrow(m: Machine, x: Nibble, y: Nibble)
    requires WellFormed(m) && x != FLAG && y != FLAG
    ensures var r := SubReverse(m, x, y).next;
            r.v[x] == (m.v[y] as int - m.v[x]) % 0x100 &&
            (r.v[FLAG] == 1 <==> m.v[y] > m.v[x]) && r.v[FLAG] <= 1 &&
            OnlyRegs(m, r, x)
  {
  }

  /** 8xF5 with y ≠ F: the flag is written first, so the difference is taken
      from the new VF, and the result then overwrites the flag. */
  lemma {:induction false} SubRegIntoFlag(m: Machine, y: Nibble)
    requires WellFormed(m) && y != FLAG
    ensures SubReg(m, FLAG, y).next.v[FLAG] ==
            Wrap8((if m.v[FLAG] > m.v[y] then 1 else 0) - m.v[y] as int)
  {
  }

  /** 8xy5 with y = F: the subtrahend is the freshly written borrow flag, not
      the VF the instruction started with. */
  lemma {:induction false} SubRegReadsNewFlag(m: Machine, x: Nibble)
    requires WellFormed(m) && x != FLAG
    ensures var flag := if m.v[x] > m.v[FLAG] then 1 else 0;
            SubReg(m, x, FLAG).next.v[x] == Wrap8(m.v[x] as int - flag)
  {
  }

  /** 8xy6 with x ≠ F: VF receives bit 0 of V[x] and V[x] is halved. */
  lemma {:induction false} ShiftRightBit(m: Machine, x: Nibble)
    requires WellFormed(m) && x != FLAG
    ensures var r := ShiftRight(m, x).next;
            r.v[FLAG] == m.v[x] % 2 && r.v[x] == m.v[x] / 2 &&
            2 * r.v[x] + r.v[FLAG] == m.v[x] && OnlyRegs(m, r, x)
  {
  }

  /** 8xyE with x ≠ F: VF receives bit 7 of V[x] and V[x] is doubled modulo 256. */
  lemma {:induction false} ShiftLeftBit(m: Machine, x: Nibble)
    requires WellFormed(m) && x != FLAG
    ensures var r := ShiftLeft(m, x).next;
            r.v[FLAG] == (if m.v[x] >= 0x80 then 1 else 0) && r.v[x] == (2 * m.v[x] as int) % 0x100 &&
            r.v[x] as int + 0x100 * r.v[FLAG] as int == 2 * m.v[x] as int && OnlyRegs(m, r, x)
  {
  }

  /** Cxkk: whatever the random byte, the result has no bit outside kk. */
  lemma {:induction false} RandomWithinMask(m: Machine, x: Nibble, kk: u8, rnd: u8)
    requires WellFormed(m)
    ensures var r := Random(m, x, kk, rnd).next;
            And8(r.v[x], kk) == r.v[x] && r.v[x] <= kk && OnlyRegs(m, r, x) && r.v[FLAG] == (if x == FLAG then r.v[x] else m.v[FLAG])
  {
    AndIdempotent(rnd, kk);
  }

  // ---------------------------------------------------------------- BCD and font

  /** Fx33: three decimal digits, hundreds first, that recombine to V[x]; no
      other memory cell changes. */
  lemma {:induction false} StoreBcdDigits(m: Machine, x: Nibble)
    requires WellFormed(m) && m.index as nat + 2 < MEMORY_SIZE
    ensures var r := StoreBcd(m, x); var i := m.index as nat; var mem := r.next.memory;
            r.status == Done && r.next == m.(memory := mem) &&
            mem[i] == m.v[x] / 100 && mem[i + 1] == m.v[x] / 10 % 10 && mem[i + 2] == m.v[x] % 10 &&
            mem[i] < 10 && mem[i + 1] < 10 && mem[i + 2] < 10 &&
            100 * mem[i] + 10 * mem[i + 1] + mem[i + 2] == m.v[x] &&
            forall k :: 0 <= k < MEMORY_SIZE && !(i <= k <= i + 2) ==> mem[k] == m.memory[k]
  {
    var value := m.v[x];
    assert value / 10 / 10 == value / 100;
    assert value / 100 < 3;
  }

  /** Fx29 with V[x] a digit: index points at that digit's glyph, inside the
      font region, and the five bytes there are the glyph. */
  lemma {:induction false} FontCharSelectsGlyph(m: Machine, x: Nibble)
    requires WellFormed(m) && FontLoaded(m) && m.v[x] < 0x10
    ensures var r := FontChar(m, x).next;
            r.index as nat == GlyphAddress(m.v[x]) && 0x50 <= r.index <= 0x9B &&
            r.memory[r.index .. r.index as nat + GLYPH_HEIGHT] == Glyph(m.v[x])
  {
    var d: Nibble := m.v[x];
    var a := GlyphAddress(d);
    assert forall t :: 0 <= t < |FONTSET| ==> m.memory[FONTSET_START_ADDRESS + t] == FONTSET[t];
    assert m.memory[a .. a + GLYPH_HEIGHT] == Glyph(d);
  }

  // ---------------------------------------------------------------- sprites

  /** Dxyn faults exactly when a sprite row lies past 0xFFF or a lit pixel
      lands past the display buffer. Otherwise VF is 1 exactly when a lit
      pixel was switched off, drawFlag is set, and a cell no lit sprite pixel
      lands on keeps its value. */
  lemma {:induction false} DrawFlagsCollision(m: Machine, x: Nibble, y: Nibble, n: Nibble)
    requires WellFormed(m)
    ensures var r := Draw(m, x, y, n);
            var px, py := m.v[x] % DISPLAY_WIDTH, m.v[y] % DISPLAY_HEIGHT;
            (r.status.Failed? <==>
               (n > 0 && m.index as nat + n > MEMORY_SIZE) || Sprite.Overruns(SpriteRows(m, n), px, py)) &&
            (r.status == Done ==>
               r.next.drawFlag && r.next.v[FLAG] <= 1 &&
               (r.next.v[FLAG] == 1 <==>
                  exists c :: 0 <= c < DISPLAY_SIZE && m.display[c] && !r.next.display[c]) &&
               (forall c :: 0 <= c < DISPLAY_SIZE && !Sprite.Hits(SpriteRows(m, n), px, py, c) ==>
                  r.next.display[c] == m.display[c]) &&
               OnlyRegs(m.(display := r.next.display, drawFlag := true), r.next, FLAG))
  {
    var px, py := m.v[x] % DISPLAY_WIDTH, m.v[y] % DISPLAY_HEIGHT;
    if !(n > 0 && m.index as nat + n > MEMORY_SIZE) {
      Sprite.CollidesIffPixelCleared(m.display, SpriteRows(m, n), px, py);
    }
  }

  /** Drawing the same sprite twice at the same place restores the display
      (the position registers must not be VF, which the first draw rewrites). */
  lemma {:induction false} DrawTwiceRestores(m: Machine, x: Nibble, y: Nibble, n: Nibble)
    requires WellFormed(m) && x != FLAG && y != FLAG
    requires Draw(m, x, y, n).status == Done
    ensures var once := Draw(m, x, y, n).next;
            Draw(once, x, y, n).status == Done && Draw(once, x, y, n).next.display == m.display
  {
    var once := Draw(m, x, y, n).next;
    var px, py := m.v[x] % DISPLAY_WIDTH, m.v[y] % DISPLAY_HEIGHT;
    assert once.v[x] == m.v[x] && once.v[y] == m.v[y];
    assert SpriteRows(once, n) == SpriteRows(m, n);
    Sprite.BlitTwice(m.display, SpriteRows(m, n), px, py);
  }

  /** On a cleared screen the second of two identical draws reports a
      collision exactly when the sprite has a lit pixel. */
  lemma {:induction false} RedrawAfterClear(m: Machine, x: Nibble, y: Nibble, n: Nibble)
    requires WellFormed(m) && x != FLAG && y != FLAG
    requires forall c :: 0 <= c < DISPLAY_SIZE ==> !m.display[c]
    requires Draw(m, x, y, n).status == Done
    ensures var twice := Draw(Draw(m, x, y, n).next, x, y, n).next;
            var rows := SpriteRows(m, n);
            twice.v[FLAG] == 1 <==> exists r: nat, c: nat :: r < |rows| && c < 8 && Sprite.Lit(rows, r, c)
  {
    var once := Draw(m, x, y, n).next;
    var px, py := m.v[x] % DISPLAY_WIDTH, m.v[y] % DISPLAY_HEIGHT;
    assert once.v[x] == m.v[x] && once.v[y] == m.v[y];
    assert SpriteRows(once, n) == SpriteRows(m, n);
    Sprite.RedrawCollides(m.display, SpriteRows(m, n), px, py);
  }

  // ---------------------------------------------------------------- register block copies

  /** Fx55 then Fx65 with the same x and index: every register keeps its
      value, and memory changes only in [index, index + x]. */
  lemma {:induction false} StoreThenLoadRegs(m: Machine, x: Nibble)
    requires WellFormed(m) && m.index as nat + x < MEMORY_SIZE
    ensures var s := StoreRegs(m, x).next; var l := LoadRegs(s, x);
            l.status == Done && l.next == s && s.v == m.v && s == m.(memory := s.memory) &&
            (forall k :: 0 <= k <= x ==> s.memory[m.index as nat + k] == m.v[k]) &&
            forall k :: 0 <= k < MEMORY_SIZE && !(m.index as nat <= k <= m.index as nat + x) ==>
              s.memory[k] == m.memory[k]
  {
    var s := StoreRegs(m, x).next;
    var l := LoadRegs(s, x).next;
    assert l.v == s.v;
  }

  /** Fx65 then Fx55 with the same x and index leaves memory as it was. */
  lemma {:induction false} LoadThenStoreRegs(m: Machine, x: Nibble)
    requires WellFormed(m) && m.index as nat + x < MEMORY_SIZE
    ensures var l := LoadRegs(m, x).next; var s := StoreRegs(l, x);
            s.status == Done && s.next.memory == m.memory &&
            forall k :: 0 <= k < REGISTER_COUNT && k > x ==> l.v[k] == m.v[k]
  {
    var l := LoadRegs(m, x).next;
    var s := StoreRegs(l, x).next;
    assert s.memory == m.memory;
  }

  // ---------------------------------------------------------------- frames

  /** The parts of the machine state an instruction may write. */
  datatype Field = Registers | Memory | Index | Pc | Stack | Sp | DelayTimer | SoundTimer | Display | DrawFlag

  /** Which fields each instruction writes: a reference table independent of
      the handlers. The keypad belongs to the host and no instruction writes it. */
  function Writes(op: Decoder.Op): set<Field>
  {
    match op
    case ClearScreen => {Display}
    case Return => {Sp, Pc}
    case Jump(_) => {Pc}
    case Call(_) => {Stack, Sp, Pc}
    case SkipEqImm(_, _) => {Pc}
    case SkipNeImm(_, _) => {Pc}
    case SkipEqReg(_, _) => {Pc}
    case SkipNeReg(_, _) => {Pc}
    case SkipKeyPressed(_) => {Pc}
    case SkipKeyNotPressed(_) => {Pc}
    case LoadIndex(_) => {Index}
    case JumpOffset(_) => {Pc}
    case Draw(_, _, _) => {Registers, Display, DrawFlag}
    case WaitKey(_) => {Registers, Pc}
    case SetDelay(_) => {DelayTimer}
    case SetSound(_) => {SoundTimer}
    case AddIndex(_) => {Index}
    case FontChar(_) => {Index}
    case StoreBcd(_) => {Memory}
    case StoreRegs(_) => {Memory}
    case Unknown(_) => {}
    case _ => {Registers}
  }

  /** Every field outside `w` is the same in `a` and `b`, and so is the keypad. */
  predicate Unchanged(a: Machine, b: Machine, w: set<Field>)
  {
    a.keypad == b.keypad &&
    (Registers !in w ==> a.v == b.v) &&
    (Memory !in w ==> a.memory == b.memory) &&
    (Index !in w ==> a.index == b.index) &&
    (Pc !in w ==> a.pc == b.pc) &&
    (Stack !in w ==> a.stack == b.stack) &&
    (Sp !in w ==> a.sp == b.sp) &&
    (DelayTimer !in w ==> a.delayTimer == b.delayTimer) &&
    (SoundTimer !in w ==> a.soundTimer == b.soundTimer) &&
    (Display !in w ==> a.display == b.display) &&
    (DrawFlag !in w ==> a.drawFlag == b.drawFlag)
  }

  /** Every instruction leaves the keypad and every field outside its write
      set as they were. */
  lemma {:induction false} ExecFrame(m: Machine, op: Decoder.Op, rnd: u8)
    requires WellFormed(m)
    ensures Unchanged(m, Exec(m, op, rnd).next, Writes(op))
  {
    if op.Draw? {
      DrawFrame(m, op, rnd);
    } else if op.StoreBcd? || op.StoreRegs? {
      FrameMemory(m, op, rnd);
    } else if op.LoadRegs? || Decoder.Nibbles(op).0 == 0x8 {
      FrameRegisters(m, op, rnd);
    } else if Decoder.Nibbles(op).0 < 0x8 {
      FrameLow(m, op, rnd);
    } else {
      FrameHigh(m, op, rnd);
    }
  }

  lemma {:induction false} DrawFrame(m: Machine, op: Decoder.Op, rnd: u8)
    requires WellFormed(m) && op.Draw?
    ensures Unchanged(m, Exec(m, op, rnd).next, Writes(op))
  {
    assert Writes(op) == {Registers, Display, DrawFlag};
  }

  lemma {:induction false} FrameMemory(m: Machine, op: Decoder.Op, rnd: u8)
    requires WellFormed(m) && (op.StoreBcd? || op.StoreRegs?)
    ensures Unchanged(m, Exec(m, op, rnd).next, Writes(op))
  {
  }

  lemma {:induction false} FrameRegisters(m: Machine, op: Decoder.Op, rnd: u8)
    requires WellFormed(m) && (op.LoadRegs? || Decoder.Nibbles(op).0 == 0x8)
    ensures Unchanged(m, Exec(m, op, rnd).next, Writes(op))
  {
  }

  lemma {:induction false} FrameLow(m: Machine, op: Decoder.Op, rnd: u8)
    requires WellFormed(m) && Decoder.Nibbles(op).0 < 0x8
    ensures Unchanged(m, Exec(m, op, rnd).next, Writes(op))
  {
  }

  lemma {:induction false} FrameHigh(m: Machine, op: Decoder.Op, rnd: u8)
    requires WellFormed(m) && Decoder.Nibbles(op).0 > 0x8
    requires !op.Draw? && !op.StoreBcd? && !op.StoreRegs? && !op.LoadRegs?
    ensures Unchanged(m, Exec(m, op, rnd).next, Writes(op))
  {
  }

  // ---------------------------------------------------------------- scenarios

  /** A 6xkk word at pc: one cycle loads kk into V[x] and moves on. */
  lemma {:induction false} LoadImmCycle(m: Machine, x: Nibble, kk: u8, rnd: u8)
    requires WellFormed(m) && m.pc as nat + 1 < MEMORY_SIZE
    requires m.memory[m.pc] == 0x60 + x && m.memory[m.pc as nat + 1] == kk
    ensures Step(m, rnd) == Ok(Ticked(m.(pc := m.pc + 2, v := m.v[x := kk])))
  {
    Decoder.KkNibbles(kk);
    assert Fetch(m) == Decoder.Encode(Decoder.LoadImm(x, kk));
    Decoder.DecodeEncode(Decoder.LoadImm(x, kk));
  }

  /** An 8xy4 word at pc: one cycle adds V[y] into V[x] with the carry in VF
      and moves on. */
  lemma {:induction false} AddRegCycle(m: Machine, x: Nibble, y: Nibble, rnd: u8)
    requires WellFormed(m) && m.pc as nat + 1 < MEMORY_SIZE
    requires m.memory[m.pc] == 0x80 + x && m.memory[m.pc as nat + 1] == y * 0x10 + 4
    ensures Step(m, rnd) == Ok(Ticked(AddReg(m.(pc := m.pc + 2), x, y).next))
  {
    assert Fetch(m) == Decoder.Encode(Decoder.AddReg(x, y));
    Decoder.DecodeEncode(Decoder.AddReg(x, y));
  }

  /** 6xkk, 6xkk, 8xy4 at pc (V0 := 10, V1 := 5, V0 += V1): three cycles
      leave V0 = 15 and no carry in VF. */
  lemma {:induction false} LoadLoadAddProgram(m: Machine, r1: u8, r2: u8, r3: u8)
    requires WellFormed(m) && m.pc as nat + 6 < MEMORY_SIZE
    requires m.memory[m.pc] == 0x60 && m.memory[m.pc as nat + 1] == 0x0A
    requires m.memory[m.pc as nat + 2] == 0x61 && m.memory[m.pc as nat + 3] == 0x05
    requires m.memory[m.pc as nat + 4] == 0x80 && m.memory[m.pc as nat + 5] == 0x14
    ensures var s1 := Step(m, r1).next; var s2 := Step(s1, r2).next; var s3 := Step(s2, r3);
            s3.status == Done && s3.next.v[0] == 15 && s3.next.v[1] == 5 && s3.next.v[FLAG] == 0 &&
            s3.next.pc == m.pc + 6
  {
    LoadImmCycle(m, 0, 10, r1);
    var s1 := Ticked(m.(pc := m.pc + 2, v := m.v[0 := 10]));
    LoadImmCycle(s1, 1, 5, r2);
    var s2 := Ticked(s1.(pc := s1.pc + 2, v := s1.v[1 := 5]));
    AddRegCycle(s2, 0, 1, r3);
  }

  /** V0 = 250, V1 = 10, then 8014: V0 wraps to 4 and VF = 1. */
  lemma {:induction false} AddRegWrapExample(m: Machine, rnd: u8)
    requires WellFormed(m) && m.v[0] == 250 && m.v[1] == 10
    ensures var r := Exec(m, Decoder.Decode(0x8014), rnd);
            r.status == Done && r.next.v[0] == 4 && r.next.v[FLAG] == 1
  {
    assert Decoder.Decode(0x8014) == Decoder.AddReg(0, 1);
  }

  // ---------------------------------------------------------------- start-up

  /** Power-on, `init`, then loading a program image: the font is in place,
      the image sits at 0x200, and the first cycle fetches its first word. */
  lemma {:induction false} BootFetchesRom(rom: seq<u8>)
    requires 2 <= |rom| && PROGRAM_START_ADDRESS + |rom| <= MEMORY_SIZE
    ensures var l := LoadRom(Init(PowerOn()), rom);
            l.status == Done && FontLoaded(l.next) &&
            l.next.pc as nat == PROGRAM_START_ADDRESS &&
            l.next.memory[PROGRAM_START_ADDRESS .. PROGRAM_START_ADDRESS + |rom|] == rom &&
            Fetch(l.next) == rom[0] as int * 0x100 + rom[1]
  {
    var i := Init(PowerOn());
    var l := LoadRom(i, rom).next;
    assert l.memory[FONTSET_START_ADDRESS .. FONTSET_START_ADDRESS + |FONTSET|] ==
           i.memory[FONTSET_START_ADDRESS .. FONTSET_START_ADDRESS + |FONTSET|];
  }
}
