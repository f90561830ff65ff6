/** The instruction decoder: the two-level switch of `exec_instruction`, as a pure
    function from the fetched 16-bit word to an instruction with its operand
    fields already extracted. */
module Decoder {
  import opened Bits

  /** One constructor per handler of the instruction table; `Unknown` is the
      word that reaches the "opcode not recognized" handler. `x` and `y` name
      registers, `kk` is the low byte, `nnn` the low 12 bits, `n` the low nibble. */
  datatype Op =
    | ClearScreen                          // 00E0
    | Return                               // 00EE
    | Jump(nnn: Addr)                      // 1nnn
    | Call(nnn: Addr)                      // 2nnn
    | SkipEqImm(x: Nibble, kk: u8)         // 3xkk
    | SkipNeImm(x: Nibble, kk: u8)         // 4xkk
    | SkipEqReg(x: Nibble, y: Nibble)      // 5xy0
    | LoadImm(x: Nibble, kk: u8)           // 6xkk
    | AddImm(x: Nibble, kk: u8)            // 7xkk
    | Move(x: Nibble, y: Nibble)           // 8xy0
    | Or(x: Nibble, y: Nibble)             // 8xy1
    | And(x: Nibble, y: Nibble)            // 8xy2
    | Xor(x: Nibble, y: Nibble)            // 8xy3
    | AddReg(x: Nibble, y: Nibble)         // 8xy4
    | SubReg(x: Nibble, y: Nibble)         // 8xy5
    | ShiftRight(x: Nibble, y: Nibble)     // 8xy6
    | SubReverse(x: Nibble, y: Nibble)     // 8xy7
    | ShiftLeft(x: Nibble, y: Nibble)      // 8xyE
    | SkipNeReg(x: Nibble, y: Nibble)      // 9xy0
    | LoadIndex(nnn: Addr)                 // Annn
    | JumpOffset(nnn: Addr)                // Bnnn
    | Random(x: Nibble, kk: u8)            // Cxkk
    | Draw(x: Nibble, y: Nibble, n: Nibble) // Dxyn
    | SkipKeyPressed(x: Nibble)            // Ex9E
    | SkipKeyNotPressed(x: Nibble)         // ExA1
    | LoadDelay(x: Nibble)                 // Fx07
    | WaitKey(x: Nibble)                   // Fx0A
    | SetDelay(x: Nibble)                  // Fx15
    | SetSound(x: Nibble)                  // Fx18
    | AddIndex(x: Nibble)                  // Fx1E
    | FontChar(x: Nibble)                  // Fx29
    | StoreBcd(x: Nibble)                  // Fx33
    | StoreRegs(x: Nibble)                 // Fx55
    | LoadRegs(x: Nibble)                  // Fx65
    | Unknown(word: u16)

  /** The four nibbles of a word, most significant first. */
  function N1(w: u16): Nibble { w / 0x1000 }
  function N2(w: u16): Nibble { (w / 0x100) % 0x10 }
  function N3(w: u16): Nibble { (w / 0x10) % 0x10 }
  function N4(w: u16): Nibble { w % 0x10 }

  /** Group 0 and group F select on the whole low byte, group 8 and group E on
      the low nibble only; groups 5 and 9 do not look at the low nibble at all. */
  function Decode(w: u16): Op
  {
    var x, y, n := N2(w), N3(w), N4(w);
    var kk: u8 := w % 0x100;
    var nnn: Addr := w % 0x1000;
    match N1(w)
    case 0x0 => if kk == 0xE0 then ClearScreen else if kk == 0xEE then Return else Unknown(w)
    case 0x1 => Jump(nnn)
    case 0x2 => Call(nnn)
    case 0x3 => SkipEqImm(x, kk)
    case 0x4 => SkipNeImm(x, kk)
    case 0x5 => SkipEqReg(x, y)
    case 0x6 => LoadImm(x, kk)
    case 0x7 => AddImm(x, kk)
    case 0x8 =>
      if n == 0x0 then Move(x, y)
      else if n == 0x1 then Or(x, y)
      else if n == 0x2 then And(x, y)
      else if n == 0x3 then Xor(x, y)
      else if n == 0x4 then AddReg(x, y)
      else if n == 0x5 then SubReg(x, y)
      else if n == 0x6 then ShiftRight(x, y)
      else if n == 0x7 then SubReverse(x, y)
      else if n == 0xE then ShiftLeft(x, y)
      else Unknown(w)
    case 0x9 => SkipNeReg(x, y)
    case 0xA => LoadIndex(nnn)
    case 0xB => JumpOffset(nnn)
    case 0xC => Random(x, kk)
    case 0xD => Draw(x, y, n)
    case 0xE => if n == 0x1 then SkipKeyNotPressed(x) else if n == 0xE then SkipKeyPressed(x) else Unknown(w)
    case _ =>
      if kk == 0x07 then LoadDelay(x)
      else if kk == 0x0A then WaitKey(x)
      else if kk == 0x15 then SetDelay(x)
      else if kk == 0x18 then SetSound(x)
      else if kk == 0x1E then AddIndex(x)
      else if kk == 0x29 then FontChar(x)
      else if kk == 0x33 then StoreBcd(x)
      else if kk == 0x55 then StoreRegs(x)
      else if kk == 0x65 then LoadRegs(x)
      else Unknown(w)
  }

  /** Assembles a word from its four nibbles. */
  function Word(a: Nibble, b: Nibble, c: Nibble, d: Nibble): u16
  {
    a * 0x1000 + b * 0x100 + c * 0x10 + d
  }

  /** The nibbles of the canonical word of an instruction: its opcode pattern
      with the operand fields filled in and every ignored bit zero. */
  function Nibbles(op: Op): (Nibble, Nibble, Nibble, Nibble)
  {
    match op
    case ClearScreen => (0x0, 0x0, 0xE, 0x0)
    case Return => (0x0, 0x0, 0xE, 0xE)
    case Jump(nnn) => (0x1, nnn / 0x100, nnn / 0x10 % 0x10, nnn % 0x10)
    case Call(nnn) => (0x2, nnn / 0x100, nnn / 0x10 % 0x10, nnn % 0x10)
    case SkipEqImm(x, kk) => (0x3, x, kk / 0x10, kk % 0x10)
    case SkipNeImm(x, kk) => (0x4, x, kk / 0x10, kk % 0x10)
    case SkipEqReg(x, y) => (0x5, x, y, 0x0)
    case LoadImm(x, kk) => (0x6, x, kk / 0x10, kk % 0x10)
    case AddImm(x, kk) => (0x7, x, kk / 0x10, kk % 0x10)
    case Move(x, y) => (0x8, x, y, 0x0)
    case Or(x, y) => (0x8, x, y, 0x1)
    case And(x, y) => (0x8, x, y, 0x2)
    case Xor(x, y) => (0x8, x, y, 0x3)
    case AddReg(x, y) => (0x8, x, y, 0x4)
    case SubReg(x, y) => (0x8, x, y, 0x5)
    case ShiftRight(x, y) => (0x8, x, y, 0x6)
    case SubReverse(x, y) => (0x8, x, y, 0x7)
    case ShiftLeft(x, y) => (0x8, x, y, 0xE)
    case SkipNeReg(x, y) => (0x9, x, y, 0x0)
    case LoadIndex(nnn) => (0xA, nnn / 0x100, nnn / 0x10 % 0x10, nnn % 0x10)
    case JumpOffset(nnn) => (0xB, nnn / 0x100, nnn / 0x10 % 0x10, nnn % 0x10)
    case Random(x, kk) => (0xC, x, kk / 0x10, kk % 0x10)
    case Draw(x, y, n) => (0xD, x, y, n)
    case SkipKeyPressed(x) => (0xE, x, 0x9, 0xE)
    case SkipKeyNotPressed(x) => (0xE, x, 0xA, 0x1)
    case LoadDelay(x) => (0xF, x, 0x0, 0x7)
    case WaitKey(x) => (0xF, x, 0x0, 0xA)
    case SetDelay(x) => (0xF, x, 0x1, 0x5)
    case SetSound(x) => (0xF, x, 0x1, 0x8)
    case AddIndex(x) => (0xF, x, 0x1, 0xE)
    case FontChar(x) => (0xF, x, 0x2, 0x9)
    case StoreBcd(x) => (0xF, x, 0x3, 0x3)
    case StoreRegs(x) => (0xF, x, 0x5, 0x5)
    case LoadRegs(x) => (0xF, x, 0x6, 0x5)
    case Unknown(w) => (N1(w), N2(w), N3(w), N4(w))
  }

  /** The canonical instruction word of an instruction (an assembler): the
      inverse of Decode. */
  function Encode(op: Op): u16
  {
    var (a, b, c, d) := Nibbles(op);
    Word(a, b, c, d)
  }

  /** An instruction the decoder can produce: `Unknown` only for a word the
      decoder rejects. */
  predicate Decodable(op: Op)
  {
    op.Unknown? ==> Decode(op.word) == op
  }

  /** The words the switch sends to the "not recognized" handler. */
  predicate Unmatched(w: u16)
  {
    var kk := w % 0x100;
    (N1(w) == 0x0 && kk != 0xE0 && kk != 0xEE) ||
    (N1(w) == 0x8 && !(N4(w) <= 0x7 || N4(w) == 0xE)) ||
    (N1(w) == 0xE && N4(w) != 0x1 && N4(w) != 0xE) ||
    (N1(w) == 0xF && kk !in {0x07, 0x0A, 0x15, 0x18, 0x1E, 0x29, 0x33, 0x55, 0x65})
  }

  /** The bits the switch ignores are zero: the second nibble in group 0, the
      low nibble in groups 5 and 9, and the third nibble in group E. */
  predicate Canonical(w: u16)
  {
    Unmatched(w) ||
    ((N1(w) == 0x0 ==> N2(w) == 0) &&
     (N1(w) == 0x5 || N1(w) == 0x9 ==> N4(w) == 0) &&
     (N1(w) == 0xE ==> N3(w) == (if N4(w) == 0x1 then 0xA else 0x9)))
  }

  lemma {:induction false} WordNibbles(w: u16)
    ensures w == Word(N1(w), N2(w), N3(w), N4(w))
    ensures w % 0x100 == N3(w) * 0x10 + N4(w)
    ensures w % 0x1000 == N2(w) * 0x100 + N3(w) * 0x10 + N4(w)
  {
    var q1, d := w / 0x10, w % 0x10;
    var q2, c := q1 / 0x10, q1 % 0x10;
    var a, b := q2 / 0x10, q2 % 0x10;
    DivMod256(w, q2, c * 0x10 + d);
    DivMod4096(w, a, b * 0x100 + c * 0x10 + d);
  }

  lemma {:induction false} NibblesOfWord(a: Nibble, b: Nibble, c: Nibble, d: Nibble)
    ensures var w := Word(a, b, c, d); N1(w) == a && N2(w) == b && N3(w) == c && N4(w) == d
  {
  }

  /** Exactly the unmatched words decode to `Unknown`, and they decode to
      themselves. */
  lemma {:induction false} DecodeUnknown(w: u16)
    ensures Decode(w).Unknown? <==> Unmatched(w)
    ensures Decode(w).Unknown? ==> Decode(w).word == w
  {
  }

  /** Decoding the encoding of an instruction gives the instruction back. */
  lemma {:induction false} DecodeEncode(op: Op)
    requires Decodable(op)
    ensures Decode(Encode(op)) == op
  {
    var a := Nibbles(op).0;
    if op.Unknown? {
      WordNibbles(op.word);
    } else if a < 0x3 {
      DecodeEncodeLow(op);
    } else if a < 0x8 {
      DecodeEncodeImm(op);
    } else if a == 0x8 {
      DecodeEncodeAlu(op);
    } else {
      DecodeEncodeHigh(op);
    }
  }

  lemma {:induction false} DecodeEncodeLow(op: Op)
    requires !op.Unknown? && Nibbles(op).0 < 0x3
    ensures Decode(Encode(op)) == op
  {
    match op
    case Jump(nnn) =>
      NibblesOfWord(0x1, nnn / 0x100, nnn / 0x10 % 0x10, nnn % 0x10);
      WordNibbles(Encode(op));
      NnnNibbles(nnn);
    case Call(nnn) =>
      NibblesOfWord(0x2, nnn / 0x100, nnn / 0x10 % 0x10, nnn % 0x10);
      WordNibbles(Encode(op));
      NnnNibbles(nnn);
    case _ =>
  }

  lemma {:induction false} DecodeEncodeImm(op: Op)
    requires !op.Unknown? && 0x3 <= Nibbles(op).0 < 0x8
    ensures Decode(Encode(op)) == op
  {
    var (a, b, c, d) := Nibbles(op);
    NibblesOfWord(a, b, c, d);
    WordNibbles(Encode(op));
    match op
    case SkipEqImm(_, kk) => KkNibbles(kk);
    case SkipNeImm(_, kk) => KkNibbles(kk);
    case LoadImm(_, kk) => KkNibbles(kk);
    case AddImm(_, kk) => KkNibbles(kk);
    case _ =>
  }

  lemma {:induction false} DecodeEncodeAlu(op: Op)
    requires !op.Unknown? && Nibbles(op).0 == 0x8
    ensures Decode(Encode(op)) == op
  {
    var (a, b, c, d) := Nibbles(op);
    NibblesOfWord(a, b, c, d);
  }

  lemma {:induction false} DecodeEncodeHigh(op: Op)
    requires !op.Unknown? && Nibbles(op).0 > 0x8
    ensures Decode(Encode(op)) == op
  {
    var (a, b, c, d) := Nibbles(op);
    NibblesOfWord(a, b, c, d);
    WordNibbles(Encode(op));
    match op
    case LoadIndex(nnn) => NnnNibbles(nnn);
    case JumpOffset(nnn) => NnnNibbles(nnn);
    case Random(_, kk) => KkNibbles(kk);
    case _ =>
  }

  lemma NnnNibbles(nnn: Addr)
    ensures nnn / 0x100 * 0x100 + nnn / 0x10 % 0x10 * 0x10 + nnn % 0x10 == nnn
  {
  }

  lemma KkNibbles(kk: u8)
    ensures kk / 0x10 * 0x10 + kk % 0x10 == kk
  {
  }

  /** Encoding a decoded word gives the word back exactly when the word has no
      bits the switch ignores; in every case re-decoding gives the same
      instruction. */
  lemma {:induction false} EncodeDecode(w: u16)
    ensures Encode(Decode(w)) == w <==> Canonical(w)
    ensures Decode(Encode(Decode(w))) == Decode(w)
  {
    WordNibbles(w);
    var (a, b, c, d) := Nibbles(Decode(w));
    NibblesOfWord(a, b, c, d);
    NibblesOfDecode(w);
    DecodeUnknown(w);
    DecodeEncode(Decode(w));
  }

  lemma {:induction false} NibblesOfDecode(w: u16)
    ensures Nibbles(Decode(w)) == (N1(w), N2(w), N3(w), N4(w)) <==> Canonical(w)
  {
    var a := N1(w);
    if a == 0x0 {
      NibblesOfDecodeSystem(w);
    } else if a == 0x8 {
      NibblesOfDecodeAlu(w);
    } else if a == 0xE {
      NibblesOfDecodeKeys(w);
    } else if a == 0xF {
      NibblesOfDecodeMisc(w);
    } else if a == 0x5 || a == 0x9 || a == 0xD {
      NibblesOfDecodeRegs(w);
    } else if a <= 0x2 || 0xA <= a <= 0xB {
      NibblesOfDecodeAddr(w);
    } else {
      NibblesOfDecodeImm(w);
    }
  }

  lemma {:induction false} NibblesOfDecodeSystem(w: u16)
    requires N1(w) == 0x0
    ensures Nibbles(Decode(w)) == (N1(w), N2(w), N3(w), N4(w)) <==> Canonical(w)
  {
    var kk := w % 0x100;
    assert kk == N3(w) * 0x10 + N4(w) by { WordNibbles(w); }
    if kk == 0xE0 {
      assert Decode(w) == ClearScreen;
    } else if kk == 0xEE {
      assert Decode(w) == Return;
    } else {
      assert Decode(w) == Unknown(w) && Unmatched(w);
    }
  }

  lemma {:induction false} NibblesOfDecodeAlu(w: u16)
    requires N1(w) == 0x8
    ensures Nibbles(Decode(w)) == (N1(w), N2(w), N3(w), N4(w)) <==> Canonical(w)
  {
  }

  lemma {:induction false} NibblesOfDecodeKeys(w: u16)
    requires N1(w) == 0xE
    ensures Nibbles(Decode(w)) == (N1(w), N2(w), N3(w), N4(w)) <==> Canonical(w)
  {
  }

  lemma {:induction false} NibblesOfDecodeMisc(w: u16)
    requires N1(w) == 0xF
    ensures Nibbles(Decode(w)) == (N1(w), N2(w), N3(w), N4(w)) <==> Canonical(w)
  {
    WordNibbles(w);
  }

  lemma {:induction false} NibblesOfDecodeRegs(w: u16)
    requires N1(w) == 0x5 || N1(w) == 0x9 || N1(w) == 0xD
    ensures Nibbles(Decode(w)) == (N1(w), N2(w), N3(w), N4(w)) <==> Canonical(w)
  {
  }

  lemma {:induction false} NibblesOfDecodeAddr(w: u16)
    requires N1(w) <= 0x2 || 0xA <= N1(w) <= 0xB
    requires N1(w) != 0x0
    ensures Nibbles(Decode(w)) == (N1(w), N2(w), N3(w), N4(w)) <==> Canonical(w)
  {
    FieldNibbles(w);
  }

  lemma {:induction false} NibblesOfDecodeImm(w: u16)
    requires 0x3 <= N1(w) <= 0x7 || N1(w) == 0xC
    requires N1(w) != 0x5
    ensures Nibbles(Decode(w)) == (N1(w), N2(w), N3(w), N4(w)) <==> Canonical(w)
  {
    FieldNibbles(w);
  }

  /** The `nnn` and `kk` fields of a word are made of its low nibbles. */
  lemma FieldNibbles(w: u16)
    ensures (w % 0x1000) / 0x100 == N2(w) && (w % 0x1000) / 0x10 % 0x10 == N3(w)
    ensures (w % 0x1000) % 0x10 == N4(w)
    ensures (w % 0x100) / 0x10 == N3(w) && (w % 0x100) % 0x10 == N4(w)
  {
    WordNibbles(w);
    var b: int, c: int, d: int := N2(w), N3(w), N4(w);
    DivMod256(w % 0x1000, b, c * 0x10 + d);
    DivMod16(w % 0x1000, b * 0x10 + c, d);
    DivMod16(b * 0x10 + c, b, c);
    DivMod16(w % 0x100, c, d);
  }

  lemma DivMod16(n: int, q: int, r: int)
    requires 0 <= r < 0x10 && n == q * 0x10 + r
    ensures n / 0x10 == q && n % 0x10 == r
  {
  }

  lemma DivMod256(n: int, q: int, r: int)
    requires 0 <= r < 0x100 && n == q * 0x100 + r
    ensures n / 0x100 == q && n % 0x100 == r
  {
  }

  lemma DivMod4096(n: int, q: int, r: int)
    requires 0 <= r < 0x1000 && n == q * 0x1000 + r
    ensures n / 0x1000 == q && n % 0x1000 == r
  {
  }
}
