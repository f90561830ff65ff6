/** The handlers as written where they differ from the model of module
    Semantics: the second copy inlined in the `Chip8` struct of cpu.hh (the
    stack discipline, Fx0A, the Fx55 / Fx65 loop bounds), cpu.cc's own Fx0A,
    and the start address as the header declares it. The cpu.cc Fx65 loop has
    the header's bound, so `LoadRegsExclusive` is also that handler as
    written. */
module HeaderVariant {
  import opened Bits
  import opened Font
  import opened State
  import Semantics

  // ---------------------------------------------------------------- stack

  /** 2nnn, header order: `++sp; stack[sp] = pc; pc = nnn`. Slot 0 is never
      used, so the 16th nested call would write past the stack: a fault. */
  function CallPreIncrement(m: Machine, nnn: Addr): (r: Outcome)
    requires WellFormed(m)
    ensures WellFormed(r.next)
    ensures r.status.Failed? <==> m.sp as nat + 1 >= STACK_DEPTH
    ensures r.status == Done ==> r.next.stack[0] == m.stack[0]
  {
    if m.sp as nat + 1 >= STACK_DEPTH then Fail(m, StackOverflow)
    else Ok(m.(sp := m.sp + 1, stack := m.stack[m.sp + 1 := m.pc], pc := nnn))
  }

  /** 00EE, header order: `pc = stack[sp]; --sp`. With sp = 0 the decrement
      would wrap the byte to 255: an underflow. */
  function ReturnPostDecrement(m: Machine): (r: Outcome)
    requires WellFormed(m)
    ensures WellFormed(r.next)
    ensures r.status.Failed? <==> m.sp == 0 || m.sp as nat >= STACK_DEPTH
    ensures r.next.stack == m.stack
  {
    if m.sp == 0 || m.sp as nat >= STACK_DEPTH then Fail(m, StackUnderflow)
    else Ok(m.(pc := m.stack[m.sp], sp := m.sp - 1))
  }

  /** In the header order too, a call followed by a return restores pc and
      sp; the return address sits one slot higher than in cpu.cc. */
  lemma {:induction false} HeaderCallThenReturn(m: Machine, nnn: Addr)
    requires WellFormed(m) && m.sp as nat + 1 < STACK_DEPTH
    ensures CallPreIncrement(m, nnn).status == Done
    ensures ReturnPostDecrement(CallPreIncrement(m, nnn).next) ==
            Ok(m.(stack := m.stack[m.sp + 1 := m.pc]))
  {
  }

  /** Both disciplines pop what they pushed, at different slots: the stacks
      they leave differ by where the return address went. */
  lemma {:induction false} StackOrdersAgreeOnPc(m: Machine, nnn: Addr)
    requires WellFormed(m) && m.sp as nat + 1 < STACK_DEPTH
    ensures var canonical := Semantics.Return(Semantics.Call(m, nnn).next).next;
            var header := ReturnPostDecrement(CallPreIncrement(m, nnn).next).next;
            canonical.pc == header.pc == m.pc && canonical.sp == header.sp == m.sp &&
            canonical.stack[m.sp] == m.pc && header.stack[m.sp + 1] == m.pc
  {
  }

  // ---------------------------------------------------------------- Fx0A

  /** Header Fx0A as written: scan the keypad in index order and store the
      first non-zero slot's CONTENT in V[x]; with none pressed, `pc -= 2`. */
  function WaitKeyAsWritten(m: Machine, x: Nibble): (r: Outcome)
    requires WellFormed(m)
    ensures r.status == Done && WellFormed(r.next)
    ensures r.next.pc == m.pc || r.next.v == m.v
    ensures forall k :: (0 <= k < KEY_COUNT && m.keypad[k] != 0 &&
                         forall j :: 0 <= j < k ==> m.keypad[j] == 0) ==>
                        r.next == SetReg(m, x, m.keypad[k])
    ensures (forall k :: 0 <= k < KEY_COUNT ==> m.keypad[k] == 0) ==>
              r.next == m.(pc := Wrap16(m.pc as int - 2))
  {
    match Semantics.FirstPressed(m.keypad)
    case Some(k) => Ok(SetReg(m, x, m.keypad[k]))
    case None => Ok(m.(pc := Wrap16(m.pc as int - 2)))
  }

  /** The as-written Fx0A agrees with the model's (which stores the key
      index) exactly when no key is down or the first pressed slot happens to
      hold its own index. */
  lemma {:induction false} WaitKeyAsWrittenAgrees(m: Machine, x: Nibble)
    requires WellFormed(m)
    ensures WaitKeyAsWritten(m, x) == Semantics.WaitKey(m, x) <==>
            match Semantics.FirstPressed(m.keypad)
            case None => true
            case Some(k) => m.keypad[k] as nat == k
  {
    match Semantics.FirstPressed(m.keypad)
    case None =>
    case Some(k) =>
      if WaitKeyAsWritten(m, x) == Semantics.WaitKey(m, x) {
        assert WaitKeyAsWritten(m, x).next.v[x] == Semantics.WaitKey(m, x).next.v[x];
      }
  }

  /** The host marks a pressed key with 1, so pressing key 3 alone gives
      V[x] = 1 instead of 3. */
  lemma {:induction false} WaitKeyAsWrittenStoresKeyState(m: Machine, x: Nibble)
    requires WellFormed(m)
    requires m.keypad == [0, 0, 0, 1, 0, 0, 0, 0, 0, 0, 0, 0, 0, 0, 0, 0]
    ensures WaitKeyAsWritten(m, x).next.v[x] == 1
    ensures Semantics.WaitKey(m, x).next.v[x] == 3
  {
    assert Semantics.FirstPressed(m.keypad) == Some(3);
  }

  /** The content of the last non-zero slot of `keys`, or `v` when every slot
      is zero: sixteen `if (keypad[i]) V[x] = keypad[i]` in a row. */
  function LastPressedValue(keys: seq<u8>, v: u8): (r: u8)
    ensures r == v || exists j :: 0 <= j < |keys| && keys[j] != 0 && r == keys[j]
    ensures (forall j :: 0 <= j < |keys| ==> keys[j] == 0) ==> r == v
    ensures |keys| > 0 && keys[|keys| - 1] != 0 ==> r == keys[|keys| - 1]
    decreases |keys|
  {
    if |keys| == 0 then v
    else
      var before := LastPressedValue(keys[..|keys| - 1], v);
      if keys[|keys| - 1] != 0 then keys[|keys| - 1] else before
  }
  /** The assignments run in slot order, so the highest-numbered pressed slot
      wins: V[x] ends as its content. */
  lemma {:induction false} LastPressedValueIsHighest(keys: seq<u8>, v: u8, j: nat)
    requires j < |keys| && keys[j] != 0
    requires forall i :: j < i < |keys| ==> keys[i] == 0
    ensures LastPressedValue(keys, v) == keys[j]
    decreases |keys|
  {
    if j < |keys| - 1 {
      var prefix := keys[..|keys| - 1];
      assert forall i :: j < i < |prefix| ==> prefix[i] == 0;
      LastPressedValueIsHighest(prefix, v, j);
    }
  }

  /** cpu.cc Fx0A as written: V[x] takes the last pressed slot's content, and
      `pc -= 2` runs whether or not a key was found. */
  function WaitKeyAllSlots(m: Machine, x: Nibble): (r: Outcome)
    requires WellFormed(m)
    ensures r.status == Done && WellFormed(r.next)
    ensures r.next.pc == Wrap16(m.pc as int - 2)
    ensures r.next.v[x] == LastPressedValue(m.keypad, m.v[x])
    ensures forall i :: 0 <= i < REGISTER_COUNT && i != x ==> r.next.v[i] == m.v[i]
    ensures r.next.(v := m.v, pc := m.pc) == m
  {
    Ok(SetReg(m, x, LastPressedValue(m.keypad, m.v[x])).(pc := Wrap16(m.pc as int - 2)))
  }

  /** After the cycle's advance by 2, the as-written cpu.cc Fx0A always puts pc
      back on itself, so the program never gets past it even with a key down;
      the model's Fx0A moves on as soon as a key is pressed. */
  lemma {:induction false} WaitKeyAllSlotsNeverLeaves(m: Machine, x: Nibble, k: nat)
    requires WellFormed(m) && m.pc as nat + 2 < 0x10000
    requires k < KEY_COUNT && m.keypad[k] != 0
    ensures WaitKeyAllSlots(m.(pc := m.pc + 2), x).next.pc == m.pc
    ensures Semantics.WaitKey(m.(pc := m.pc + 2), x).next.pc as nat == m.pc as nat + 2
  {
    var f := m.(pc := m.pc + 2);
    assert Semantics.FirstPressed(f.keypad).Some?;
  }

  // ---------------------------------------------------------------- Fx55 / Fx65

  /** Header Fx55: memory[index + i] := V[i] for i < x. With x = 0 the loop
      touches nothing, so only x > 0 can run past memory. */
  function StoreRegsExclusive(m: Machine, x: Nibble): (r: Outcome)
    requires WellFormed(m)
    ensures WellFormed(r.next)
    ensures r.status.Failed? <==> x > 0 && m.index as nat + x > MEMORY_SIZE
  {
    if x > 0 && m.index as nat + x > MEMORY_SIZE then Fail(m, MemoryOutOfBounds)
    else
      var i := m.index as nat;
      Ok(m.(memory := seq(MEMORY_SIZE, k requires 0 <= k < MEMORY_SIZE =>
        if i <= k < i + x then m.v[k - i] else m.memory[k])))
  }

  /** Header Fx65, and cpu.cc's Fx65 as written: V[i] := memory[index + i]
      for i < x. */
  function LoadRegsExclusive(m: Machine, x: Nibble): (r: Outcome)
    requires WellFormed(m)
    ensures WellFormed(r.next)
    ensures r.status.Failed? <==> x > 0 && m.index as nat + x > MEMORY_SIZE
  {
    if x > 0 && m.index as nat + x > MEMORY_SIZE then Fail(m, MemoryOutOfBounds)
    else
      var i := m.index as nat;
      Ok(m.(v := seq(REGISTER_COUNT, k requires 0 <= k < REGISTER_COUNT =>
        if k < x then m.memory[i + k] else m.v[k])))
  }

  /** Header Fx55 then Fx65 with the same x and index: all registers keep
      their values and memory outside [index, index + x) is untouched. */
  lemma {:induction false} HeaderStoreThenLoad(m: Machine, x: Nibble)
    requires WellFormed(m) && (x == 0 || m.index as nat + x <= MEMORY_SIZE)
    ensures var s := StoreRegsExclusive(m, x).next; var l := LoadRegsExclusive(s, x);
            l.status == Done && l.next.v == m.v && l.next == s &&
            forall k :: 0 <= k < MEMORY_SIZE && !(m.index as nat <= k < m.index as nat + x) ==>
              s.memory[k] == m.memory[k]
  {
    var s := StoreRegsExclusive(m, x).next;
    assert LoadRegsExclusive(s, x).next.v == s.v;
  }

  /** With x = 0 both header copies run their loop zero times: nothing
      changes and nothing faults, wherever index points. */
  lemma {:induction false} ExclusiveCopiesOfNothing(m: Machine)
    requires WellFormed(m)
    ensures StoreRegsExclusive(m, 0) == Ok(m) && LoadRegsExclusive(m, 0) == Ok(m)
  {
    assert StoreRegsExclusive(m, 0).next.memory == m.memory;
    assert LoadRegsExclusive(m, 0).next.v == m.v;
  }

  /** The exclusive load never reaches V[x]; the inclusive one (the
      counterpart of cpu.cc's inclusive Fx55) sets it from memory[index + x].
      They differ whenever that byte differs from V[x]: F065 loads nothing. */
  lemma {:induction false} LoadRegsSkipsLast(m: Machine, x: Nibble)
    requires WellFormed(m) && m.index as nat + x < MEMORY_SIZE
    ensures LoadRegsExclusive(m, x).next.v[x] == m.v[x]
    ensures Semantics.LoadRegs(m, x).next.v[x] == m.memory[m.index as nat + x]
    ensures LoadRegsExclusive(m, x) == Semantics.LoadRegs(m, x) <==> m.memory[m.index as nat + x] == m.v[x]
  {
    if m.memory[m.index as nat + x] == m.v[x] {
      assert LoadRegsExclusive(m, x).next.v == Semantics.LoadRegs(m, x).next.v;
    }
  }

  // ---------------------------------------------------------------- start address

  /** `init` as written: PROGRAM_START_ADDRESS is a uint8_t initialised with
      0x200, which keeps only the low byte. */
  function InitAsWritten(m: Machine): (r: Machine)
    requires WellFormed(m)
    ensures WellFormed(r) && Semantics.FontLoaded(r)
    ensures r.pc == 0 && r.(pc := 0x200) == Semantics.Init(m)
  {
    Semantics.Init(m).(pc := Wrap8(PROGRAM_START_ADDRESS))
  }

  /** After the as-written boot the first cycle fetches word 0x0000 from the
      bottom of memory, not the program's first word, and the switch rejects
      it; the corrected boot fetches the program. */
  lemma {:induction false} InitAsWrittenMissesRom(rom: seq<u8>, rnd: u8)
    requires 2 <= |rom| && PROGRAM_START_ADDRESS + |rom| <= MEMORY_SIZE
    ensures var l := Semantics.LoadRom(InitAsWritten(Semantics.PowerOn()), rom).next;
            l.pc == 0 && Semantics.Fetch(l) == 0 &&
            Semantics.Step(l, rnd) == Outcome(Unrecognized, Semantics.Ticked(l.(pc := 2)))
  {
    var l := Semantics.LoadRom(InitAsWritten(Semantics.PowerOn()), rom).next;
    assert l.memory[0] == 0 && l.memory[1] == 0;
    assert Semantics.Fetch(l) == 0;
  }
}
