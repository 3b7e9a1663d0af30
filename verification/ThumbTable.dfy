/** The images of the table branches TBB and TBH (arch/arm/sh_t32.c): they go where the instruction goes, but not with its
    flags. */
module ThumbTable {
  import opened Words
  import opened ThumbRewrite
  import opened ThumbArms
  import opened ThumbCpu
  import S = ThumbSim

  /** ADDS Rd, #1 */
  function Incremented(c: Machine, rd: nat): Machine
    requires rd < 15
  {
    var x := c.rest.r[rd];
    var y := Sum32(x, 1);
    SetReg(c.(flags := Flags(y >= 0x8000_0000, y == 0, x == 0xFFFF_FFFF, x == 0x7FFF_FFFF)), rd, y)
  }

  /** The processor adds as the architecture says. */
  ghost predicate AddsOne(sem: Sem) {
    forall rd: nat, c | rd < 8 :: sem(T16(0x3001 + 0x100 * rd), c) == Next(Incremented(c, rd))
  }

  // What the instruction does.

  predicate IsTable(high: Half, low: Half) {
    T32TypeOf(high, low).TBB_T1? || T32TypeOf(high, low).TBH_T1?
  }

  function Byte2(high: Half, low: Half): bool {
    T32TypeOf(high, low).TBH_T1?
  }

  /** The architecture defines it: Rn is not SP, Rm neither SP nor PC. */
  predicate Defined(high: Half, low: Half) {
    IsTable(high, low) && high % 0x10 != 13 && low % 0x10 !in {13, 15}
  }

  /** Where the entry is. */
  function EntryAddr(high: Half, low: Half, pc: Word32, c: Machine): Word32
    requires Defined(high, low)
  {
    var index := c.rest.r[low % 0x10];
    Sum32(if high % 0x10 == 15 then pc else c.rest.r[high % 0x10], if Byte2(high, low) then Sum32(index, index) else index)
  }

  function EntryAccess(high: Half, low: Half): Access {
    if Byte2(high, low) then UH else UB
  }

  /** Where the instruction goes, in Thumb code; it changes nothing. */
  function TableDest(high: Half, low: Half, pc: Word32, c: Machine): Word32
    requires Defined(high, low)
  {
    SetBit0(Wrap32(pc + 2 * LoadValue(c.rest.mem, EntryAddr(high, low, pc, c), EntryAccess(high, low))))
  }

  // Decoding the image.

  lemma {:induction false} OneBitIs(k: nat)
    ensures OneBit(Bit(k)) == [k]
  {
    if k > 0 {
      OneBitIs(k - 1);
      BitGrows(k - 1);
    }
  }

  lemma BitGrows(k: nat)
    ensures 2 * Bit(k) / 2 == Bit(k) && 2 * Bit(k) % 2 == 0 && 2 * Bit(k) != 1
  {
  }

  lemma {:induction false} TwoBitsAre(a: nat, b: nat)
    requires a < b
    ensures TwoBits(Bit(a) + Bit(b)) == [a, b]
  {
    BitGrows(b - 1);
    if a == 0 {
      OneBitIs(b - 1);
    } else {
      BitGrows(a - 1);
      TwoBitsAre(a - 1, b - 1);
      assert (2 * Bit(a - 1) + 2 * Bit(b - 1)) / 2 == Bit(a - 1) + Bit(b - 1);
    }
  }

  lemma RegBitIs(k: nat)
    requires k < 8
    ensures RegBit(k) == Bit(k) < 0x100
  {
  }

  lemma PairBytes(bits: nat, a: nat, b: nat)
    requires a < b < 8 && bits > 1 && TwoBits(bits) == [a, b]
    ensures OrUnknown(DecodeBytes(0xB5, bits)) == PushPair(a, b) && OrUnknown(DecodeBytes(0xBD, bits)) == PopPair(a, b)
  {
    hide TwoBits;
  }

  lemma DecodePair(rx: nat, ry: nat)
    requires rx < 8 && ry < 8 && rx != ry
    ensures var bits, a, b := RegBit(rx) + RegBit(ry), if rx < ry then rx else ry, if rx < ry then ry else rx;
            && bits < 0x100 && Decode16(0xB500 + bits) == PushPair(a, b) && Decode16(0xBD00 + bits) == PopPair(a, b)
            && !IsThumb32(0xB500 + bits) && !IsThumb32(0xBD00 + bits)
  {
    hide *;
    RegBitIs(rx);
    RegBitIs(ry);
    var a, b := if rx < ry then rx else ry, if rx < ry then ry else rx;
    TwoBitsAre(a, b);
    TopBits(a, b);
    var bits := RegBit(rx) + RegBit(ry);
    PairBytes(bits, a, b);
    Decodes16(0xB5, bits);
    Decodes16(0xBD, bits);
  }

  lemma TopBits(a: nat, b: nat)
    requires a < b < 8
    ensures 1 < Bit(a) + Bit(b) < 0x100
  {
    RegBitIs(a);
    RegBitIs(b);
    hide Bit;
  }

  lemma DecodeShift(rd: nat, rn: nat, rm: nat, n: nat)
    requires rd < 15 && rn < 15 && rm < 15 && n < 2
    ensures Decode32(0xEB00 + rn, 0x40 * n + rd * 0x100 + rm) == AddShift(rd, rn, rm, n) && IsThumb32(0xEB00 + rn)
  {
    hide Decode32, IsThumb32;
    Decodes32(0xEB0, rn, 0, 0x40 * n + rd * 0x100 + rm);
    ShiftParts(rd, rm, n);
  }

  lemma ShiftParts(rd: nat, rm: nat, n: nat)
    requires rd < 15 && rm < 15 && n < 2
    ensures var rest := 0x40 * n + rd * 0x100 + rm;
            rest / 0x100 == rd && rest % 0x10 == rm && rest % 0x40 == rm && rest % 0x100 / 0x40 == n && rest < 0x1000
  {
  }

  lemma DecodeEntry(ry: nat)
    requires ry < 8
    ensures Decode16(0x7800 + ry * 8 + ry) == Load(UB, ry, 0, ry) && !IsThumb32(0x7800 + ry * 8 + ry)
    ensures Decode16(0x8800 + ry * 8 + ry) == Load(UH, ry, 0, ry) && !IsThumb32(0x8800 + ry * 8 + ry)
  {
    hide Decode16, IsThumb32;
    Decodes16(0x78, ry * 8 + ry);
    Decodes16(0x88, ry * 8 + ry);
  }

  lemma DecodeAdds(rx: nat)
    requires rx < 8
    ensures Decode16(0x3001 + rx * 0x100) == Unknown && !IsThumb32(0x3001 + rx * 0x100)
    ensures Decode16(0x9002 + rx * 0x100) == StrSp(rx, 8) && !IsThumb32(0x9002 + rx * 0x100)
  {
    hide Decode16, IsThumb32;
    Decodes16(0x30 + rx, 1);
    Decodes16(0x90 + rx, 2);
  }

  // The image, step by step.

  /** The code at p, which `s` has run up to word i with state `c`. */
  ghost predicate Ran(sem: Sem, s: Cpu, p: Word32, words: seq<Half>, i: nat, c: Machine) {
    && CodeAt(c.rest.mem, p, words) && p % 4 == 0 && p + 2 * |words| < S.CODE_END && i <= |words|
    && S.Reaches(sem, s, At(p + 2 * i, c))
  }

  lemma Goes16(sem: Sem, s: Cpu, p: Word32, words: seq<Half>, i: nat, op: Op, c: Machine)
    requires Ran(sem, s, p, words, i, c) && i < |words| && !IsThumb32(words[i]) && op == Decode16(words[i]) && !UsesPc(op)
    ensures Fits(op) && p + 2 * (i + 1) < 0x1_0000_0000
    ensures S.Reaches(sem, s, After(Effect(sem, T16(words[i]), op, p + 2 * (i + 1), c), p + 2 * (i + 1)))
  {
    hide CodeAt, S.Reaches, Decode16, IsThumb32, Effect;
    S.Executes16(sem, s, p, words, i, c);
  }

  lemma Goes32(sem: Sem, s: Cpu, p: Word32, words: seq<Half>, i: nat, op: Op, c: Machine)
    requires Ran(sem, s, p, words, i, c) && i + 1 < |words| && IsThumb32(words[i]) && op == Decode32(words[i], words[i + 1])
    requires !UsesPc(op)
    ensures Fits(op) && p + 2 * (i + 2) < 0x1_0000_0000
    ensures S.Reaches(sem, s, After(Effect(sem, T32(words[i], words[i + 1]), op, p + 2 * (i + 2), c), p + 2 * (i + 2)))
  {
    hide CodeAt, S.Reaches, Decode32, IsThumb32, Effect;
    S.Executes32(sem, s, p, words, i, c);
  }

  lemma NopRuns(sem: Sem, s: Cpu, p: Word32, words: seq<Half>, i: nat, c: Machine)
    requires Ran(sem, s, p, words, i, c) && i < |words| && words[i] == NOP
    ensures Ran(sem, s, p, words, i + 1, c)
  {
    hide CodeAt, S.Reaches, Decode16, IsThumb32;
    S.DecodeSkips(0);
    Goes16(sem, s, p, words, i, Nop, c);
  }

  predicate Apart(sp: Word32, p: int, len: nat) {
    12 <= sp && (sp <= p || p + len <= sp - 12)
  }

  /** PUSH {Ra, Rb, LR} */
  function Saved(c: Machine, a: nat, b: nat): Machine
    requires a < b < 8 && Sp(c) >= 12
  {
    var sp: int, r := Sp(c) - 12, c.rest.r;
    SetReg(SetMem(c, PutWord(PutWord(PutWord(c.rest.mem, sp, r[a]), sp + 4, r[b]), sp + 8, r[LR])), SP, Sp(c) - 12)
  }

  lemma WordsKept(m: Ram, at: int, w: Word32, p: int, words: seq<Half>)
    requires CodeAt(m, p, words) && (at + 4 <= p || p + 2 * |words| <= at)
    ensures CodeAt(PutWord(m, at, w), p, words)
  {
    S.CodeKept(m, at, w, p, words);
  }

  lemma SaveRuns(sem: Sem, s: Cpu, p: Word32, words: seq<Half>, rx: nat, ry: nat, c: Machine)
    requires Ran(sem, s, p, words, 0, c) && rx < 8 && ry < 8 && rx != ry && |words| > 1
    requires words[0] == 0xB500 + RegBit(rx) + RegBit(ry) && words[1] == NOP && Apart(Sp(c), p, 2 * |words|)
    ensures var a, b := if rx < ry then rx else ry, if rx < ry then ry else rx; Ran(sem, s, p, words, 2, Saved(c, a, b))
  {
    hide CodeAt, S.Reaches, Decode16, IsThumb32, PutWord, RegBit;
    var a, b := if rx < ry then rx else ry, if rx < ry then ry else rx;
    DecodePair(rx, ry);
    Goes16(sem, s, p, words, 0, PushPair(a, b), c);
    var sp: int, r := Sp(c) - 12, c.rest.r;
    WordsKept(c.rest.mem, sp, r[a], p, words);
    var m := PutWord(c.rest.mem, sp, r[a]);
    WordsKept(m, sp + 4, r[b], p, words);
    WordsKept(PutWord(m, sp + 4, r[b]), sp + 8, r[LR], p, words);
    NopRuns(sem, s, p, words, 1, Saved(c, a, b));
  }

  /** ADD.W Rd, Rn, Rm, LSL #n */
  lemma ShiftRuns(sem: Sem, s: Cpu, p: Word32, words: seq<Half>, i: nat, rd: nat, rn: nat, rm: nat, n: nat, c: Machine)
    requires Ran(sem, s, p, words, i, c) && i + 1 < |words| && rd < 15 && rn < 15 && rm < 15 && n < 2
    requires words[i] == 0xEB00 + rn && words[i + 1] == 0x40 * n + rd * 0x100 + rm
    ensures var r := c.rest.r;
            Ran(sem, s, p, words, i + 2, SetReg(c, rd, Sum32(r[rn], if n == 1 then Sum32(r[rm], r[rm]) else r[rm])))
  {
    hide CodeAt, S.Reaches, Decode32, IsThumb32, Sum32;
    DecodeShift(rd, rn, rm, n);
    Goes32(sem, s, p, words, i, AddShift(rd, rn, rm, n), c);
  }

  /** LDRB Ry, [Ry] or LDRH Ry, [Ry]; NOP */
  lemma EntryRuns(sem: Sem, s: Cpu, p: Word32, words: seq<Half>, i: nat, ry: nat, two: bool, c: Machine)
    requires Ran(sem, s, p, words, i, c) && i + 1 < |words| && ry < 8
    requires words[i] == (if two then 0x8800 else 0x7800) + ry * 8 + ry && words[i + 1] == NOP
    ensures Ran(sem, s, p, words, i + 2, SetReg(c, ry, LoadValue(c.rest.mem, c.rest.r[ry], if two then UH else UB)))
  {
    hide CodeAt, S.Reaches, Decode16, IsThumb32, LoadValue;
    DecodeEntry(ry);
    Goes16(sem, s, p, words, i, Load(if two then UH else UB, ry, 0, ry), c);
    NopRuns(sem, s, p, words, i + 1, SetReg(c, ry, LoadValue(c.rest.mem, c.rest.r[ry], if two then UH else UB)));
  }

  /** ADDS Rx, #1; STR Rx, [SP, #8] */
  lemma StoreRuns(sem: Sem, s: Cpu, p: Word32, words: seq<Half>, i: nat, rx: nat, c: Machine)
    requires Ran(sem, s, p, words, i, c) && i + 1 < |words| && rx < 8 && AddsOne(sem)
    requires words[i] == 0x3001 + rx * 0x100 && words[i + 1] == 0x9002 + rx * 0x100
    requires Sp(c) + 12 <= p || p + 2 * |words| <= Sp(c)
    ensures var d := Incremented(c, rx);
            Ran(sem, s, p, words, i + 2, SetMem(d, PutWord(c.rest.mem, Sp(c) + 8, d.rest.r[rx])))
  {
    hide CodeAt, S.Reaches, Decode16, IsThumb32, PutWord, Sum32;
    DecodeAdds(rx);
    Adds(sem, rx, c);
    Goes16(sem, s, p, words, i, Unknown, c);
    var d := Incremented(c, rx);
    Goes16(sem, s, p, words, i + 1, StrSp(rx, 8), d);
    WordsKept(c.rest.mem, Sp(c) + 8, d.rest.r[rx], p, words);
  }

  lemma Adds(sem: Sem, rd: nat, c: Machine)
    requires rd < 8 && AddsOne(sem)
    ensures Other(sem, T16(0x3001 + rd * 0x100), c) == Next(Incremented(c, rd))
  {
    assert 0x3001 + rd * 0x100 == 0x3001 + 0x100 * rd;
    hide Incremented;
  }

  /** POP {Ra, Rb, PC} */
  lemma PopRuns(sem: Sem, s: Cpu, p: Word32, words: seq<Half>, i: nat, rx: nat, ry: nat, c: Machine)
    requires Ran(sem, s, p, words, i, c) && i < |words| && rx < 8 && ry < 8 && rx != ry
    requires words[i] == 0xBD00 + RegBit(rx) + RegBit(ry)
    ensures var a, b := if rx < ry then rx else ry, if rx < ry then ry else rx;
            var sp: int, m := Sp(c), c.rest.mem;
            S.Reaches(sem, s, Gone(WordFrom(m, sp + 8),
                                   SetReg(SetReg(SetReg(c, a, WordFrom(m, sp)), b, WordFrom(m, sp + 4)), SP, Sum32(sp, 12))))
  {
    hide CodeAt, S.Reaches, Decode16, IsThumb32, WordFrom, RegBit, Sum32;
    DecodePair(rx, ry);
    var a, b := if rx < ry then rx else ry, if rx < ry then ry else rx;
    Goes16(sem, s, p, words, i, PopPair(a, b), c);
  }

  // The whole image.

  function TableWords(rx: nat, ry: nat, rn: nat, rm: nat, two: bool, pc: Word32): seq<Half>
    requires rx < 8 && ry < 8 && rn < 15 && rm < 15
  {
    [0xB500 + RegBit(rx) + RegBit(ry), NOP, 0xF8DF, rx * 0x1000 + 20, 0xEB00 + rn, (if two then 0x40 else 0) + ry * 0x100 + rm,
     (if two then 0x8800 else 0x7800) + ry * 8 + ry, NOP, 0xEB00 + rx, 0x40 + rx * 0x100 + ry, 0x3001 + rx * 0x100,
     0x9002 + rx * 0x100, 0xBD00 + RegBit(rx) + RegBit(ry), NOP, Low(pc), High(pc)]
  }

  lemma SpareOfTwo(a: nat, b: nat)
    ensures var rx := Spare({a, b}, 7); rx < 8 && rx != a && rx != b
    ensures var rx := Spare({a, b}, 7);
            var ry := Spare({a, b, rx}, 7);
            ry < 8 && ry != a && ry != b && ry != rx
  {
    Few({a, b}, 7);
    SpareIsFree({a, b}, 7);
    var rx := Spare({a, b}, 7);
    Few({a, b, rx}, 7);
    SpareIsFree({a, b, rx}, 7);
  }

  lemma TableImage(high: Half, low: Half, pc: Word32, info: Info) returns (rx: nat, ry: nat)
    requires Defined(high, low) && RewriteT32(high, low, pc, info) != []
    ensures var rn, rm := high % 0x10, low % 0x10;
            && rx < 8 && ry < 8 && rx != ry && rm < 15 && rx != rn && ry != rn && rx != rm && ry != rm
            && RewriteT32(high, low, pc, info) == TableWords(rx, ry, if rn == 15 then rx else rn, rm, Byte2(high, low), pc)
  {
    hide T32TypeOf, Spare, RegBit, Low, High;
    var rn, rm := high % 0x10, low % 0x10;
    SpareOfTwo(rn, rm);
    rx := Spare({rn, rm}, 7);
    ry := Spare({rn, rm, rx}, 7);
  }

  /** Rx and Ry are saved, and Rx holds PC. */
  function Lent(c: Machine, rx: nat, ry: nat, pc: Word32): Machine
    requires rx < 8 && ry < 8 && rx != ry && Sp(c) >= 12
  {
    SetReg(Saved(c, if rx < ry then rx else ry, if rx < ry then ry else rx), rx, pc)
  }

  lemma LentRuns(sem: Sem, s: Cpu, p: Word32, rx: nat, ry: nat, rn: nat, rm: nat, two: bool, pc: Word32, c: Machine)
    requires rx < 8 && ry < 8 && rx != ry && rn < 15 && rm < 15
    requires Ran(sem, s, p, TableWords(rx, ry, rn, rm, two, pc), 0, c) && Apart(Sp(c), p, 32)
    ensures Ran(sem, s, p, TableWords(rx, ry, rn, rm, two, pc), 4, Lent(c, rx, ry, pc))
  {
    hide CodeAt, S.Reaches, PutWord, RegBit, Low, High;
    var words := TableWords(rx, ry, rn, rm, two, pc);
    var a, b := if rx < ry then rx else ry, if rx < ry then ry else rx;
    SaveRuns(sem, s, p, words, rx, ry, c);
    S.LoadAddrStep(sem, s, p, words, 2, rx, 20, 14, pc, Saved(c, a, b));
  }

  lemma LentKeeps(c: Machine, rx: nat, ry: nat, pc: Word32)
    requires rx < 8 && ry < 8 && rx != ry && Sp(c) >= 12
    ensures var d := Lent(c, rx, ry, pc);
            && d.flags == c.flags && d.rest.fp == c.rest.fp && d.rest.r == c.rest.r[SP := Sp(c) - 12][rx := pc]
            && forall x | !(Sp(c) - 12 <= x < Sp(c)) :: d.rest.mem(x) == c.rest.mem(x)
  {
  }

  /** The saved words are found again, with the destination over the saved link register. */
  lemma LentReads(c: Machine, rx: nat, ry: nat, pc: Word32, dest: Word32)
    requires rx < 8 && ry < 8 && rx != ry && Sp(c) >= 12
    ensures var a, b := if rx < ry then rx else ry, if rx < ry then ry else rx;
            var m, sp: int := PutWord(Lent(c, rx, ry, pc).rest.mem, Sp(c) - 4, dest), Sp(c) - 12;
            WordFrom(m, sp) == c.rest.r[a] && WordFrom(m, sp + 4) == c.rest.r[b] && WordFrom(m, sp + 8) == dest
  {
    hide PutWord, WordFrom;
    var a, b := if rx < ry then rx else ry, if rx < ry then ry else rx;
    var sp: int, r := Sp(c) - 12, c.rest.r;
    var m1 := PutWord(c.rest.mem, sp, r[a]);
    var m2 := PutWord(m1, sp + 4, r[b]);
    var m3 := PutWord(m2, sp + 8, r[LR]);
    S.WordKept(c.rest.mem, sp, r[a], sp);
    S.WordKept(m1, sp + 4, r[b], sp);
    S.WordKept(m2, sp + 8, r[LR], sp);
    S.WordKept(m3, sp + 8, dest, sp);
    S.WordKept(m2, sp + 8, r[LR], sp + 4);
    S.WordKept(m3, sp + 8, dest, sp + 4);
  }

  lemma EntryKept(m: Ram, m': Ram, a: int, two: bool)
    requires m(a) == m'(a) && (two ==> m(a + 1) == m'(a + 1))
    ensures LoadValue(m, a, if two then UH else UB) == LoadValue(m', a, if two then UH else UB)
  {
  }

  /** The entry, and the destination without its Thumb bit, are computed. */
  lemma ComputeRuns(sem: Sem, s: Cpu, p: Word32, rx: nat, ry: nat, rn: nat, rm: nat, two: bool, pc: Word32, d: Machine)
    returns (d4: Machine)
    requires rx < 8 && ry < 8 && rx != ry && rn < 15 && rm < 15 && d.rest.r[rx] == pc
    requires Ran(sem, s, p, TableWords(rx, ry, rn, rm, two, pc), 4, d)
    ensures Ran(sem, s, p, TableWords(rx, ry, rn, rm, two, pc), 10, d4)
    ensures var r := d.rest.r;
            var addr := Sum32(r[rn], if two then Sum32(r[rm], r[rm]) else r[rm]);
            var v := LoadValue(d.rest.mem, addr, if two then UH else UB);
            && d4.rest.mem == d.rest.mem && d4.flags == d.flags && d4.rest.fp == d.rest.fp
            && d4.rest.r == r[ry := v][rx := Sum32(pc, Sum32(v, v))]
  {
    hide CodeAt, S.Reaches, RegBit, Low, High, LoadValue, Sum32;
    var words := TableWords(rx, ry, rn, rm, two, pc);
    var r := d.rest.r;
    var addr := Sum32(r[rn], if two then Sum32(r[rm], r[rm]) else r[rm]);
    ShiftRuns(sem, s, p, words, 4, ry, rn, rm, if two then 1 else 0, d);
    var d2 := SetReg(d, ry, addr);
    EntryRuns(sem, s, p, words, 6, ry, two, d2);
    var v := LoadValue(d.rest.mem, addr, if two then UH else UB);
    S.SetTwice(d, ry, addr, v);
    var d3 := SetReg(d, ry, v);
    ShiftRuns(sem, s, p, words, 8, rx, rx, ry, 1, d3);
    d4 := SetReg(d3, rx, Sum32(pc, Sum32(v, v)));
  }

  /** It is traded for the saved link register, and popped into PC. */
  lemma TradeRuns(sem: Sem, s: Cpu, p: Word32, rx: nat, ry: nat, rn: nat, rm: nat, two: bool, pc: Word32, c: Machine,
                  d4: Machine)
    returns (e: Machine)
    requires rx < 8 && ry < 8 && rx != ry && rn < 15 && rm < 15 && Apart(Sp(c), p, 32) && AddsOne(sem)
    requires Ran(sem, s, p, TableWords(rx, ry, rn, rm, two, pc), 10, d4)
    requires d4.rest.mem == Lent(c, rx, ry, pc).rest.mem && Sp(d4) == Sp(c) - 12
    requires forall n: nat | n < 15 && n != SP && n != rx && n != ry :: d4.rest.r[n] == c.rest.r[n]
    ensures S.Reaches(sem, s, Gone(Sum32(d4.rest.r[rx], 1), e))
    ensures e.rest.r == c.rest.r && e.rest.fp == d4.rest.fp && e.flags == Incremented(d4, rx).flags
    ensures forall x | !(Sp(c) - 12 <= x < Sp(c)) :: e.rest.mem(x) == c.rest.mem(x)
  {
    hide CodeAt, S.Reaches, RegBit, Low, High, PutWord, WordFrom, Sum32, Lent, AddsOne;
    var words := TableWords(rx, ry, rn, rm, two, pc);
    StoreRuns(sem, s, p, words, 10, rx, d4);
    var dest := Sum32(d4.rest.r[rx], 1);
    var d6 := SetMem(Incremented(d4, rx), PutWord(d4.rest.mem, Sp(c) - 4, dest));
    PopRuns(sem, s, p, words, 12, rx, ry, d6);
    LentReads(c, rx, ry, pc, dest);
    LentKeeps(c, rx, ry, pc);
    PutKeeps(d4.rest.mem, Sp(c) - 4, dest);
    SumUp(Sp(c));
    var a, b := if rx < ry then rx else ry, if rx < ry then ry else rx;
    e := SetReg(SetReg(SetReg(d6, a, c.rest.r[a]), b, c.rest.r[b]), SP, Sp(c));
    assert e.rest.r == c.rest.r;
  }

  lemma SumUp(sp: Word32)
    requires sp >= 12
    ensures Sum32(sp - 12, 12) == sp
  {
  }

  lemma PutKeeps(m: Ram, at: int, w: Word32)
    ensures forall x | !(at <= x < at + 4) :: PutWord(m, at, w)(x) == m(x)
  {
  }

  lemma DestIs(pc: Word32, v: Word32)
    requires pc % 2 == 0 && v < 0x1_0000
    ensures var x := Sum32(pc, Sum32(v, v));
            && Sum32(x, 1) == SetBit0(Wrap32(pc + 2 * v)) && Sum32(x, 1) != 0 && x != 0xFFFF_FFFF && x != 0x7FFF_FFFF
  {
    var x := Wrap32(pc + 2 * v);
    assert Sum32(pc, Sum32(v, v)) == x;
    assert x % 2 == 0;
    assert x == 2 * (x / 2);
  }

  lemma EntryIsSmall(m: Ram, a: int, two: bool)
    ensures LoadValue(m, a, if two then UH else UB) < 0x1_0000
  {
  }

  /** The image of a table branch goes where the instruction goes, with its registers, and its memory but for twelve bytes
      below SP. But it leaves flags behind that it computed: they are kept exactly when they were these already. */
  lemma TableBranchMeans(sem: Sem, high: Half, low: Half, pc: Word32, info: Info, p: Word32, c: Machine) returns (e: Machine)
    requires Defined(high, low) && RewriteT32(high, low, pc, info) != [] && pc % 2 == 0 && AddsOne(sem)
    requires var words := RewriteT32(high, low, pc, info);
             && CodeAt(c.rest.mem, p, words) && p % 4 == 0 && p + 2 * |words| < S.CODE_END && Apart(Sp(c), p, 2 * |words|)
    requires var a: int := EntryAddr(high, low, pc, c); a + 2 <= Sp(c) - 12 || Sp(c) <= a
    ensures var dest := TableDest(high, low, pc, c);
            && S.Reaches(sem, At(p, c), Gone(dest, e))
            && e.flags == Flags(dest >= 0x8000_0000, false, false, false)
            && e.rest.r == c.rest.r && e.rest.fp == c.rest.fp
            && forall x | !(Sp(c) - 12 <= x < Sp(c)) :: e.rest.mem(x) == c.rest.mem(x)
  {
    hide T32TypeOf, CodeAt, S.Reaches, RewriteT32, Sum32, LoadValue, Lent, TableWords, AddsOne, SetBit0;
    var rx, ry := TableImage(high, low, pc, info);
    var rn, rm, two := high % 0x10, low % 0x10, Byte2(high, low);
    var n := if rn == 15 then rx else rn;
    var s, words := At(p, c), TableWords(rx, ry, n, rm, two, pc);
    TableLength(rx, ry, n, rm, two, pc);
    S.ReachesSelf(sem, s);
    LentRuns(sem, s, p, rx, ry, n, rm, two, pc, c);
    LentKeeps(c, rx, ry, pc);
    var d := Lent(c, rx, ry, pc);
    var d4 := ComputeRuns(sem, s, p, rx, ry, n, rm, two, pc, d);
    EntryKept(d.rest.mem, c.rest.mem, EntryAddr(high, low, pc, c), two);
    EntryIsSmall(c.rest.mem, EntryAddr(high, low, pc, c), two);
    DestIs(pc, LoadValue(c.rest.mem, EntryAddr(high, low, pc, c), EntryAccess(high, low)));
    e := TradeRuns(sem, s, p, rx, ry, n, rm, two, pc, c, d4);
  }

  lemma TableLength(rx: nat, ry: nat, rn: nat, rm: nat, two: bool, pc: Word32)
    requires rx < 8 && ry < 8 && rn < 15 && rm < 15
    ensures |TableWords(rx, ry, rn, rm, two, pc)| == 16
  {
    hide RegBit;
  }
}
