/** What the images of Arm instructions compute that have PC as a register operand, or load PC: they borrow one register or
    two, and keep them on the stack (arch/arm/sh_a32.c). */
module A32Data {
  import opened Words
  import opened A32Rewrite
  import opened ThumbArms
  import opened A32Cpu
  import opened Sides
  import C = ThumbCpu
  import S = ThumbSim

  // Decoding.

  lemma DecodeBorrow(rx: nat)
    requires rx < 13
    ensures var w := 0xE52D_0004 + rx * 0x1000; Cond(w) == 14 && Decode(w) == Push(rx)
    ensures var w := 0xE49D_0004 + rx * 0x1000; Cond(w) == 14 && Decode(w) == Pop(rx)
  {
    hide Cond, Op, Rn, Rd, Shift, Rm;
    FieldsOf(14, 0x52, 13, rx, 0, 4);
    FieldsOf(14, 0x49, 13, rx, 0, 4);
  }

  lemma DecodeStore(rt: nat, imm: nat)
    requires rt < 13 && imm < 16
    ensures var w := 0xE58D_0000 + rt * 0x1000 + imm; Cond(w) == 14 && Decode(w) == StrSp(rt, imm)
  {
    hide Cond, Op, Rn, Rd, Shift, Rm;
    FieldsOf(14, 0x58, 13, rt, 0, imm);
  }

  lemma DecodeLdr(rt: nat, imm: nat)
    requires rt < 15 && imm < 16
    ensures var w := 0xE59F_0000 + rt * 0x1000 + imm; Cond(w) == 14 && Decode(w) == LdrPc(rt, imm)
  {
    hide Cond, Op, Rn, Rd, Shift, Rm;
    FieldsOf(14, 0x59, 15, rt, 0, imm);
  }

  function Pair(rx: nat, ry: nat): seq<nat> {
    if rx < ry then [rx, ry] else [ry, rx]
  }

  lemma PairOfBits(rx: nat, ry: nat)
    requires rx < 5 && ry < 5 && rx != ry
    ensures RegBit(rx) + RegBit(ry) < 0x20 && Registers(RegBit(rx) + RegBit(ry)) == Pair(rx, ry)
  {
  }

  lemma DecodeList(bits: nat, andPc: bool)
    requires bits < 0x20
    ensures var w := 0xE92D_0000 + (if andPc then 0x8000 else 0) + bits;
            Cond(w) == 14 && (Fits(PushAll(Registers(bits), andPc)) ==> Decode(w) == PushAll(Registers(bits), andPc))
    ensures var w := 0xE8BD_0000 + (if andPc then 0x8000 else 0) + bits;
            Cond(w) == 14 && (Fits(PopAll(Registers(bits), andPc)) ==> Decode(w) == PopAll(Registers(bits), andPc))
  {
    hide Cond, Op, Rn, Rd, Shift, Rm, Registers, Fits, IsIndexed;
    var rd := if andPc then 8 else 0;
    FieldsOf(14, 0x92, 13, rd, bits / 16, bits % 16);
    FieldsOf(14, 0x8B, 13, rd, bits / 16, bits % 16);
    ListFields(bits, andPc);
    hide DecodeFields;
  }

  lemma ListFields(bits: nat, andPc: bool)
    requires bits < 0x20
    ensures var rd := if andPc then 8 else 0;
            && DecodeFields(0x92, 13, rd, bits / 16, bits % 16) == PushAll(Registers(bits), andPc)
            && DecodeFields(0x8B, 13, rd, bits / 16, bits % 16) == PopAll(Registers(bits), andPc)
  {
    hide Registers;
  }

  lemma DecodeAll(rx: nat, ry: nat)
    requires rx < 5 && ry < 5 && rx != ry
    ensures var w := 0xE92D_8000 + RegBit(rx) + RegBit(ry); Cond(w) == 14 && Decode(w) == PushAll(Pair(rx, ry), true)
    ensures var w := 0xE8BD_8000 + RegBit(rx) + RegBit(ry); Cond(w) == 14 && Decode(w) == PopAll(Pair(rx, ry), true)
  {
    PairOfBits(rx, ry);
    hide Cond, Decode, RegBit, Registers;
    DecodeList(RegBit(rx) + RegBit(ry), true);
  }

  lemma ShortLists()
    ensures Registers(3) == [0, 1] && Registers(1) == [0]
  {
  }

  lemma DecodePushTwo()
    ensures Cond(0xE92D_0003) == 14 && Decode(0xE92D_0003) == PushAll([0, 1], false)
  {
    hide Cond, Decode, Registers;
    ShortLists();
    DecodeList(3, false);
  }

  lemma DecodePopPc()
    ensures Cond(0xE8BD_8001) == 14 && Decode(0xE8BD_8001) == PopAll([0], true)
  {
    hide Cond, Decode, Registers;
    ShortLists();
    DecodeList(1, true);
  }

  lemma DecodeRead()
    ensures Cond(0xE590_0000) == 14 && Decode(0xE590_0000) == Load(C.W, 0, 0)
  {
    hide Cond, Decode;
    DecodeThrough(LDR_LIT_A1, 0);
  }

  predicate IsDataOp(op: nat) {
    op / 2 in {2, 4, 0x0D}
  }

  lemma FieldBounds(w: Word32)
    ensures Cond(w) < 16 && Op(w) < 256 && Rn(w) < 16 && Rd(w) < 16 && Shift(w) < 256 && Rm(w) < 16
  {
  }

  lemma WithFields(w: Word32, rn: nat, rd: nat, rm: nat)
    requires rn < 15 && rd < 15 && rm < 16
    ensures var u := With(w, rn, rd, rm);
            Cond(u) == 14 && Op(u) == Op(w) && Rn(u) == rn && Rd(u) == rd && Shift(u) == Shift(w) && Rm(u) == rm
  {
    FieldBounds(w);
    var op, shift := Op(w), Shift(w);
    hide Cond, Op, Rn, Rd, Shift, Rm;
    FieldsOf(14, op, rn, rd, shift, rm);
  }

  lemma DecodeAlu(w: Word32, rn: nat, rd: nat, rm: nat)
    requires rn < 15 && rd < 15 && rm < 16 && IsDataOp(Op(w)) && Shift(w) % 2 == 0
    ensures var u := With(w, rn, rd, rm); Cond(u) == 14 && Decode(u) == Alu(Op(w), rd, rn, rm, Shift(w))
  {
    hide Cond, Op, Rn, Rd, Shift, Rm, With, Registers;
    WithFields(w, rn, rd, rm);
  }

  lemma DecodeIndex(w: Word32, rn: nat, rd: nat, rm: nat)
    requires rn < 15 && rm < 15 && IsIndexed(Op(w), Shift(w))
    requires rd < (if IndexAccess(Op(w), Shift(w)).D? then 14 else 15)
    ensures var u := With(w, rn, rd, rm); Cond(u) == 14 && Decode(u) == LoadIndex(Op(w), rd, rn, rm, Shift(w))
  {
    hide Cond, Op, Rn, Rd, Shift, Rm, With, Registers;
    WithFields(w, rn, rd, rm);
  }

  // Steps of the images.

  lemma WordsKept(m: C.Ram, a: int, w: Word32, p: int, words: seq<Word32>)
    requires CodeAt(m, p, words) && (a + 4 <= p || p + 4 * |words| <= a)
    ensures CodeAt(C.PutWord(m, a, w), p, words)
  {
    hide C.WordFrom, C.PutWord;
    forall i | 0 <= i < |words| ensures C.WordFrom(C.PutWord(m, a, w), p + 4 * i) == words[i] {
      S.WordKept(m, a, w, p + 4 * i);
    }
  }

  /** B<c> over a branch to the end of the image: `n` words are skipped when the condition does not hold. */
  lemma SkipIfRuns(sem: Sem, p: Word32, words: seq<Word32>, cond: nat, n: nat, c: C.Machine)
    requires CodeAt(c.rest.mem, p, words) && |words| == n + 3 && n < 8 && p + 4 * |words| < CODE_END && cond < 15
    requires words[0] == SkipIf(cond) && words[1] == Skip(n)
    ensures Reaches(sem, At(p, c), if CondHolds(cond, c.flags) then At(p + 8, c) else At(p + 4 * |words|, c))
  {
    hide CodeAt, Reaches, CondHolds, Decode, Cond;
    ReachesSelf(sem, At(p, c));
    DecodeSkip(cond, 0);
    DecodeSkip(14, n);
    AlwaysHolds(c.flags);
    Executes(sem, At(p, c), p, words, 0, c);
    if !CondHolds(cond, c.flags) {
      Executes(sem, At(p, c), p, words, 1, c);
    }
  }

  /** The code at p, which `s` has run up to word i with state `c`. */
  ghost predicate Ran(sem: Sem, s: Cpu, p: Word32, words: seq<Word32>, i: nat, c: C.Machine) {
    && CodeAt(c.rest.mem, p, words) && p % 4 == 0 && p + 4 * |words| < CODE_END && i <= |words|
    && Reaches(sem, s, At(p + 4 * i, c))
  }

  lemma Goes(sem: Sem, s: Cpu, p: Word32, words: seq<Word32>, i: nat, c: C.Machine)
    requires Ran(sem, s, p, words, i, c) && i < |words| && Cond(words[i]) == 14
    ensures Reaches(sem, s, Execute(sem, words[i], p + 4 * i, c))
  {
    hide CodeAt, Reaches, CondHolds, Decode, Cond, Execute;
    AlwaysHolds(c.flags);
    Executes(sem, s, p, words, i, c);
  }

  /** PUSH {Rx} */
  function Saved(c: C.Machine, rx: nat): C.Machine
    requires rx < 13 && C.Sp(c) >= 12
  {
    C.SetReg(C.SetMem(c, C.PutWord(c.rest.mem, C.Sp(c) - 4, c.rest.r[rx])), C.SP, C.Sp(c) - 4)
  }

  lemma SaveRuns(sem: Sem, s: Cpu, p: Word32, words: seq<Word32>, i: nat, rx: nat, c: C.Machine)
    requires Ran(sem, s, p, words, i, c) && i < |words| && rx < 13 && words[i] == 0xE52D_0004 + rx * 0x1000
    requires StackApart(C.Sp(c), p, 4 * |words|)
    ensures Ran(sem, s, p, words, i + 1, Saved(c, rx))
  {
    hide CodeAt, Reaches, Decode, Cond, C.PutWord;
    DecodeBorrow(rx);
    Goes(sem, s, p, words, i, c);
    WordsKept(c.rest.mem, C.Sp(c) - 4, c.rest.r[rx], p, words);
  }

  /** LDR Rt, [PC, #imm] */
  lemma LdrRuns(sem: Sem, s: Cpu, p: Word32, words: seq<Word32>, i: nat, rt: nat, imm: nat, c: C.Machine)
    requires Ran(sem, s, p, words, i, c) && rt < 15 && imm in {0, 8} && i + 2 + imm / 4 < |words|
    requires words[i] == 0xE59F_0000 + rt * 0x1000 + imm
    ensures Ran(sem, s, p, words, i + 1, C.SetReg(c, rt, words[i + 2 + imm / 4]))
  {
    hide CodeAt, Reaches, Decode, Cond, C.WordFrom;
    DecodeLdr(rt, imm);
    Goes(sem, s, p, words, i, c);
    assert Align4(p + 4 * i + 8) == p + 4 * (i + 2);
    hide Align4;
    WordOf(c.rest.mem, p, words, i + 2 + imm / 4);
  }

  /** B #0 over the word that is kept there. */
  lemma OverRuns(sem: Sem, s: Cpu, p: Word32, words: seq<Word32>, i: nat, c: C.Machine)
    requires Ran(sem, s, p, words, i, c) && i + 1 < |words| && words[i] == Skip(0)
    ensures Ran(sem, s, p, words, i + 2, c)
  {
    hide CodeAt, Reaches, Decode, Cond;
    DecodeSkip(14, 0);
    Goes(sem, s, p, words, i, c);
  }

  /** POP {Rx} */
  function Popped(d: C.Machine, rx: nat): C.Machine
    requires rx < 13
  {
    C.SetReg(C.SetReg(d, rx, C.WordFrom(d.rest.mem, C.Sp(d))), C.SP, Wrap32(C.Sp(d) + 4))
  }

  lemma PopRuns(sem: Sem, s: Cpu, p: Word32, words: seq<Word32>, i: nat, rx: nat, d: C.Machine)
    requires Ran(sem, s, p, words, i, d) && i < |words| && rx < 13 && words[i] == 0xE49D_0004 + rx * 0x1000
    ensures Ran(sem, s, p, words, i + 1, Popped(d, rx))
  {
    hide CodeAt, Reaches, Decode, Cond, C.WordFrom;
    DecodeBorrow(rx);
    Goes(sem, s, p, words, i, d);
  }

  /** It brings the register back. */
  lemma RestoreRuns(sem: Sem, s: Cpu, p: Word32, words: seq<Word32>, i: nat, rx: nat, c: C.Machine, d: C.Machine)
    requires Ran(sem, s, p, words, i, d) && i < |words| && rx < 13 && words[i] == 0xE49D_0004 + rx * 0x1000
    requires C.Sp(c) >= 12 && d.rest.mem == Saved(c, rx).rest.mem && C.Sp(d) == C.Sp(c) - 4
    ensures Ran(sem, s, p, words, i + 1, C.SetReg(C.SetReg(d, rx, c.rest.r[rx]), C.SP, C.Sp(c)))
  {
    hide CodeAt, Reaches, C.WordFrom, C.PutWord;
    PopRuns(sem, s, p, words, i, rx, d);
    S.WordKept(c.rest.mem, C.Sp(c) - 4, c.rest.r[rx], 0);
  }

  // One register is borrowed for PC: ADD, SUB, MOV.

  /** The second operand is not what it was: PC again, as the image reads it, or SP, below which a register is kept. */
  predicate OperandMoves(w: Word32) {
    Rn(w) == 15 && Rm(w) in {13, 15}
  }

  /** LSR #32, LSL #30 and LSL #31: addresses that differ by a multiple of four are shifted to the same value. */
  predicate Discards(shift: nat) {
    shift in {2, 240, 248}
  }

  /** When the image of a word computes what the word does: SP is not the result, and an operand that moves makes no
      difference; nor does PC where it is overlooked. */
  predicate Right(w: Word32) {
    var t := GetType(w);
    && (t.IGNORED? && Overlooked(w) ==> Discards(Shift(w)))
    && !(IsData(t) && Rd(w) == 13) && !(IsIndexLoad(t) && Rd(w) == 13) && !(t.LDRD_REG_A1? && Rd(w) == 12)
    && (Borrows(t) && !t.LDR_LIT_PC_A1? && OperandMoves(w) ==> Discards(Shift(w)))
  }

  function DataWords(cond: nat, rx: nat, use: Word32, pc: Word32): seq<Word32>
    requires cond < 16 && rx < 13
  {
    [SkipIf(cond), Skip(5), 0xE52D_0004 + rx * 0x1000, 0xE59F_0008 + rx * 0x1000, use, 0xE49D_0004 + rx * 0x1000, Skip(0), pc]
  }

  lemma SpareOfThree(a: nat, b: nat, c: nat)
    ensures var rx := Spare({a, b, c}, 3); rx < 4 && rx != a && rx != b && rx != c
    ensures var rx := Spare({a, b, c}, 3);
            var ry := Spare({a, b, c} + {rx}, 4);
            ry < 5 && ry != a && ry != b && ry != c && ry != rx
  {
    Few({a, b, c}, 3);
    SpareIsFree({a, b, c}, 3);
    var rx := Spare({a, b, c}, 3);
    Few({a, b, c} + {rx}, 4);
    SpareIsFree({a, b, c} + {rx}, 4);
  }

  /** Which registers stand for which in the image. */
  ghost predicate StandsFor(w: Word32, rx: nat, rn: nat, rm: nat) {
    && rx < 4 && rx != Rm(w) && rn < 15 && rm < 16 && rm == (if Rn(w) != 15 && Rm(w) == 15 then rx else Rm(w))
    && (Rn(w) == 15 || Rm(w) == 15)
    && (if IsMov(Op(w)) then Rn(w) != 15
        else rx != Rn(w) && Rn(w) != 13 && rn == if Rn(w) == 15 then rx else Rn(w))
  }

  lemma StandsTells(w: Word32, rx: nat, rn: nat, rm: nat)
    requires StandsFor(w, rx, rn, rm)
    ensures rx < 4 && rn < 15 && rm < 16 && (Rm(w) == 13 ==> rm == 13)
  {
    hide Op, Rn, Rm;
  }

  lemma DataImage(w: Word32, pc: Word32, info: Info) returns (rx: nat, rn: nat, rm: nat)
    requires IsData(GetType(w))
    ensures Cond(w) < 15 && Rd(w) < 15 && IsDataOp(Op(w)) && Shift(w) % 2 == 0
    ensures StandsFor(w, rx, rn, rm) && rx != Rd(w)
    ensures Rewrite(w, pc, info) == DataWords(Cond(w), rx, With(w, rn, Rd(w), rm), pc)
  {
    FieldBounds(w);
    hide Cond, Op, Rn, Rd, Shift, Rm, Spare, With;
    if GetType(w).MOV_REG_A1? {
      rx, rn := if Rd(w) == 0 then 1 else 0, Rn(w);
      rm := rx;
    } else {
      SpareOfThree(Rn(w), Rm(w), Rd(w));
      rx := Spare({Rn(w), Rm(w), Rd(w)}, 3);
      rn := if Rn(w) == 15 then rx else Rn(w);
      rm := if Rn(w) == 15 then Rm(w) else rx;
    }
  }

  function Borrowed(c: C.Machine, rx: nat, pc: Word32): C.Machine
    requires rx < 13 && C.Sp(c) >= 12
  {
    C.SetReg(Saved(c, rx), rx, pc)
  }

  /** In `d` register Rx holds PC; every other register but SP is as in `c`. */
  ghost predicate Lends(d: C.Machine, c: C.Machine, rx: nat, pc: Word32) {
    && d.flags == c.flags && rx < 13 && d.rest.r[rx] == pc
    && forall n: nat | n < 15 && n != 13 && n != rx :: d.rest.r[n] == c.rest.r[n]
  }

  lemma BorrowedLends(c: C.Machine, rx: nat, pc: Word32)
    requires rx < 13 && C.Sp(c) >= 12
    ensures Lends(Borrowed(c, rx, pc), c, rx, pc)
  {
    hide C.PutWord;
  }

  lemma {:induction false} Pow2Sum(m: nat, n: nat)
    ensures Pow2(m + n) == Pow2(m) * Pow2(n)
  {
    if m > 0 {
      Pow2Sum(m - 1, n);
    }
  }

  lemma Powers()
    ensures Pow2(30) == 0x4000_0000 && Pow2(31) == 0x8000_0000 && Pow2(32) == 0x1_0000_0000
  {
    assert Pow2(2) == 4;
    Pow2Sum(2, 2);
    Pow2Sum(4, 4);
    Pow2Sum(8, 8);
    Pow2Sum(16, 8);
    Pow2Sum(24, 4);
    Pow2Sum(28, 2);
    Pow2Sum(30, 1);
    Pow2Sum(30, 2);
  }

  lemma SameShifted(x: Word32, y: Word32, shift: nat, carry: bool)
    requires Discards(shift) && x % 4 == y % 4
    ensures Shifted(x, shift, carry).0 == Shifted(y, shift, carry).0
  {
    hide *;
    DiscardsIs(shift);
    if shift == 2 {
      AllOut(x, carry);
      AllOut(y, carry);
    } else {
      FewLeft(x, shift, carry);
      FewLeft(y, shift, carry);
      SameLeft(x, y, 0x4000_0000);
      SameLeft(x, y, 0x8000_0000);
    }
  }

  lemma DiscardsIs(shift: nat)
    ensures Discards(shift) <==> shift in {2, 240, 248}
  {
  }

  lemma AllOut(x: Word32, carry: bool)
    ensures Shifted(x, 2, carry).0 == 0
  {
    Powers();
    hide Pow2;
  }

  lemma FewLeft(x: Word32, shift: nat, carry: bool)
    requires shift in {240, 248}
    ensures Shifted(x, shift, carry).0 == Wrap32(x * if shift == 240 then 0x4000_0000 else 0x8000_0000)
  {
    Powers();
    hide Pow2, Wrap32;
  }

  lemma SameLeft(x: Word32, y: Word32, n: nat)
    requires x % 4 == y % 4 && 4 * n % 0x1_0000_0000 == 0
    ensures Wrap32(x * n) == Wrap32(y * n)
  {
    var k, q := 4 * n / 0x1_0000_0000, x / 4 - y / 4;
    assert x * n == y * n + q * k * 0x1_0000_0000 by {
      assert x == y + 4 * q && 4 * n == k * 0x1_0000_0000;
    }
    WrapMore(y * n, q * k);
  }

  lemma WrapMore(x: int, k: int)
    ensures Wrap32(x + k * 0x1_0000_0000) == Wrap32(x)
  {
  }

  /** What the image computes from the operands that it sees, with PC reading as `here`. */
  function Seen(w: Word32, d: C.Machine, rn: nat, rm: nat, here: Word32): (Word32, Flags)
    requires rn < 15 && rm < 16
  {
    Data(Op(w), d.rest.r[rn], Reg(d, rm, here), Shift(w), d.flags)
  }

  /** It is what the original instruction computes. */
  lemma SameOperands(w: Word32, d: C.Machine, c: C.Machine, rx: nat, rn: nat, rm: nat, pc: Word32, here: Word32)
    requires StandsFor(w, rx, rn, rm) && Lends(d, c, rx, pc)
    requires OperandMoves(w) ==> Discards(Shift(w)) && C.Sp(d) % 4 == C.Sp(c) % 4 && here % 4 == pc % 4
    ensures Seen(w, d, rn, rm, here) == DataOf(w, pc, c)
  {
    FieldBounds(w);
    hide Cond, Op, Rn, Rd, Shift, Rm, Shifted, AddWithCarry;
    if OperandMoves(w) {
      SameShifted(Reg(d, rm, here), Reg(c, Rm(w), pc), Shift(w), c.flags.c);
    }
  }

  /** The borrowed state after the computation. */
  function Used(w: Word32, c: C.Machine, rx: nat, rn: nat, rm: nat, pc: Word32, here: Word32): C.Machine
    requires rx < 13 && rn < 15 && rm < 16 && Rd(w) < 15 && C.Sp(c) >= 12
  {
    var d := Borrowed(c, rx, pc);
    var (x, f) := Seen(w, d, rn, rm, here);
    C.SetReg(d.(flags := f), Rd(w), x)
  }

  lemma DataUses(sem: Sem, w: Word32, p: Word32, pc: Word32, rx: nat, rn: nat, rm: nat, c: C.Machine)
    requires Cond(w) < 15 && Rd(w) < 15 && IsDataOp(Op(w)) && Shift(w) % 2 == 0 && CondHolds(Cond(w), c.flags)
    requires rx < 13 && rn < 15 && rm < 16 && p % 4 == 0 && p + 32 < CODE_END && StackApart(C.Sp(c), p, 32)
    requires CodeAt(c.rest.mem, p, DataWords(Cond(w), rx, With(w, rn, Rd(w), rm), pc))
    ensures Ran(sem, At(p, c), p, DataWords(Cond(w), rx, With(w, rn, Rd(w), rm), pc), 5, Used(w, c, rx, rn, rm, pc, p + 24))
  {
    hide Cond, Op, Rn, Rd, Shift, Rm, CodeAt, Reaches, Decode, With, C.PutWord, Data, CondHolds, IsDataOp;
    var s, words := At(p, c), DataWords(Cond(w), rx, With(w, rn, Rd(w), rm), pc);
    SkipIfRuns(sem, p, words, Cond(w), 5, c);
    SaveRuns(sem, s, p, words, 2, rx, c);
    LdrRuns(sem, s, p, words, 3, rx, 8, Saved(c, rx));
    DecodeAlu(w, rn, Rd(w), rm);
    Goes(sem, s, p, words, 4, Borrowed(c, rx, pc));
  }

  lemma DataRuns(sem: Sem, w: Word32, p: Word32, pc: Word32, rx: nat, rn: nat, rm: nat, c: C.Machine) returns (e: C.Machine)
    requires Cond(w) < 15 && Rd(w) < 15 && IsDataOp(Op(w)) && Shift(w) % 2 == 0 && CondHolds(Cond(w), c.flags)
    requires StandsFor(w, rx, rn, rm) && rx != Rd(w) && Rd(w) != 13 && (OperandMoves(w) ==> Discards(Shift(w))) && pc % 4 == 0
    requires CodeAt(c.rest.mem, p, DataWords(Cond(w), rx, With(w, rn, Rd(w), rm), pc)) && p % 4 == 0 && p + 32 < CODE_END
    requires StackApart(C.Sp(c), p, 32)
    ensures Reaches(sem, At(p, c), At(p + 32, e)) && e.rest.mem == Saved(c, rx).rest.mem && e.rest.fp == c.rest.fp
    ensures var (x, f) := DataOf(w, pc, c); e.flags == f && e.rest.r == c.rest.r[Rd(w) := x]
  {
    hide Cond, Op, Rn, Rd, Shift, Rm, CodeAt, Reaches, Decode, With, C.PutWord, DataOf, CondHolds, IsDataOp, Seen, OperandMoves;
    var s, words := At(p, c), DataWords(Cond(w), rx, With(w, rn, Rd(w), rm), pc);
    var (x, f) := DataOf(w, pc, c);
    DataUses(sem, w, p, pc, rx, rn, rm, c);
    BorrowedLends(c, rx, pc);
    SameOperands(w, Borrowed(c, rx, pc), c, rx, rn, rm, pc, p + 24);
    var d := Used(w, c, rx, rn, rm, pc, p + 24);
    RestoreRuns(sem, s, p, words, 5, rx, c, d);
    e := C.SetReg(C.SetReg(d, rx, c.rest.r[rx]), C.SP, C.Sp(c));
    OverRuns(sem, s, p, words, 6, e);
    assert e.rest.r == c.rest.r[Rd(w) := x];
  }

  lemma SavedIsRed(c: C.Machine, rx: nat, a: int)
    requires rx < 13 && C.Sp(c) >= 12
    ensures !InRed(C.Sp(c), a) ==> Saved(c, rx).rest.mem(a) == c.rest.mem(a)
  {
  }

  lemma DataExec(sem: Sem, w: Word32, pc: Word32, c: C.Machine)
    requires Known(w) && IsData(GetType(w)) && Holds(w, c)
    ensures Rd(w) < 15 && var (x, f) := DataOf(w, pc, c); Exec(sem, w, pc, c) == Next(C.SetReg(c.(flags := f), Rd(w), x))
    ensures CondHolds(Cond(w), c.flags)
  {
    hide Cond, Op, Rn, Shift, Rm, DataOf;
  }

  lemma DataEnds(sem: Sem, w: Word32, pc: Word32, info: Info, p: Word32, c: C.Machine) returns (e: C.Machine)
    requires Known(w) && IsData(GetType(w)) && Right(w) && pc % 4 == 0
    requires var words := Rewrite(w, pc, info);
             && CodeAt(c.rest.mem, p, words) && p % 4 == 0 && p + 4 * |words| < CODE_END
             && StackApart(C.Sp(c), p, 4 * |words|)
    ensures Ends(sem, w, pc, info, p, 4 * |Rewrite(w, pc, info)|, c, e)
  {
    hide Cond, Op, Rn, Rd, Shift, Rm, CodeAt, Reaches, Rewrite, GetType, Exec, DataOf, Known, With, IsDataOp;
    var rx, rn, rm := DataImage(w, pc, info);
    StaysIfNot(sem, w, pc, c);
    if Holds(w, c) {
      DataExec(sem, w, pc, c);
      e := DataRuns(sem, w, p, pc, rx, rn, rm, c);
      forall a | !InRed(C.Sp(c), a) ensures e.rest.mem(a) == c.rest.mem(a) {
        SavedIsRed(c, rx, a);
      }
    } else {
      e := c;
      SkipIfRuns(sem, p, Rewrite(w, pc, info), Cond(w), 5, c);
    }
  }

  // And for a load with an index.

  /** What is read is not what the image keeps on the stack. */
  predicate ReadsApart(sp: Word32, addr: Word32, n: nat) {
    addr + n <= sp - 12 || sp <= addr
  }

  predicate IndexApart(w: Word32, pc: Word32, c: C.Machine) {
    ReadsApart(C.Sp(c), IndexedOf(w, pc, c), Size(AccessOf(GetType(w))))
  }

  lemma SameLoad(m: C.Ram, a: int, w: Word32, addr: int, access: C.Access)
    requires addr + Size(access) <= a || a + 4 <= addr
    ensures C.LoadValue(C.PutWord(m, a, w), addr, access) == C.LoadValue(m, addr, access)
    ensures access.D? ==> C.WordFrom(C.PutWord(m, a, w), addr + 4) == C.WordFrom(m, addr + 4)
  {
    var m' := C.PutWord(m, a, w);
    assert forall x | addr <= x < addr + Size(access) :: m'(x) == m(x);
    hide C.PutWord, C.LoadValue, C.WordFrom;
    SameLoads(m', m, addr, access);
  }

  function IndexWords(cond: nat, rx: nat, use: Word32, pc: Word32): seq<Word32>
    requires cond < 16 && rx < 13
  {
    [SkipIf(cond), Skip(5), 0xE52D_0004 + rx * 0x1000, 0xE59F_0000 + rx * 0x1000, Skip(0), pc, use, 0xE49D_0004 + rx * 0x1000]
  }

  lemma IndexImage(w: Word32, pc: Word32, info: Info) returns (rx: nat)
    requires Known(w) && IsIndexLoad(GetType(w))
    ensures Cond(w) < 15 && IsIndexed(Op(w), Shift(w)) && AccessOf(GetType(w)) == IndexAccess(Op(w), Shift(w))
    ensures Rd(w) < (if IndexAccess(Op(w), Shift(w)).D? then 14 else 15) && Rm(w) < 15 && Rn(w) == 15
    ensures rx < 4 && rx != Rd(w) && rx != Rd(w) + 1 && rx != Rm(w)
    ensures Rewrite(w, pc, info) == IndexWords(Cond(w), rx, With(w, rx, Rd(w), Rm(w)), pc)
  {
    FieldBounds(w);
    hide Cond, Op, Rn, Rd, Shift, Rm, Spare, With;
    SpareOfThree(Rd(w), Rd(w) + 1, Rm(w));
    rx := Spare({Rd(w), Rd(w) + 1, Rm(w)}, 3);
  }

  /** The address that the image loads from. */
  function SeenIndex(w: Word32, d: C.Machine, rx: nat): Word32
    requires rx < 15 && Rm(w) < 15
  {
    Indexed(Op(w), d.rest.r[rx], d.rest.r[Rm(w)], Shift(w), d.flags)
  }

  lemma SameIndex(w: Word32, d: C.Machine, c: C.Machine, rx: nat, pc: Word32)
    requires Lends(d, c, rx, pc) && Rm(w) < 15 && rx != Rm(w) && Rn(w) == 15 && IsIndexed(Op(w), Shift(w))
    requires OperandMoves(w) ==> Discards(Shift(w)) && C.Sp(d) % 4 == C.Sp(c) % 4
    ensures SeenIndex(w, d, rx) == IndexedOf(w, pc, c)
  {
    hide Cond, Op, Rn, Rd, Shift, Rm, Shifted;
    if OperandMoves(w) {
      SameShifted(C.Sp(d), C.Sp(c), Shift(w), c.flags.c);
    }
  }

  /** What is loaded stays when the borrowed register and SP are brought back. */
  lemma LoadedStays(c: C.Machine, rx: nat, pc: Word32, access: C.Access, rd: nat, addr: Word32)
    requires rx < 13 && C.Sp(c) >= 12 && ReadsApart(C.Sp(c), addr, Size(access))
    requires rd < (if access.D? then 14 else 15) && rd != 13 && rx != rd && (access.D? ==> rx != rd + 1 && rd != 12)
    ensures var second := if access.D? then rd + 1 else 0;
            var d := C.LoadInto(Borrowed(c, rx, pc), access, rd, second, addr);
            var e := C.SetReg(C.SetReg(d, rx, c.rest.r[rx]), C.SP, C.Sp(c));
            && d.rest.mem == Saved(c, rx).rest.mem && C.Sp(d) == C.Sp(c) - 4
            && e == C.SetMem(C.LoadInto(c, access, rd, second, addr), Saved(c, rx).rest.mem)
  {
    hide C.PutWord, C.LoadValue, C.WordFrom;
    var second := if access.D? then rd + 1 else 0;
    SameLoad(c.rest.mem, C.Sp(c) - 4, c.rest.r[rx], addr, access);
    var d := C.LoadInto(Borrowed(c, rx, pc), access, rd, second, addr);
    var e := C.SetReg(C.SetReg(d, rx, c.rest.r[rx]), C.SP, C.Sp(c));
    assert e.rest.r == C.LoadInto(c, access, rd, second, addr).rest.r;
  }

  /** The state behind the load. */
  function Loaded(w: Word32, c: C.Machine, rx: nat, pc: Word32): C.Machine
    requires rx < 13 && Rm(w) < 15 && C.Sp(c) >= 12 && Rd(w) < (if IndexAccess(Op(w), Shift(w)).D? then 14 else 15)
  {
    var access, d := IndexAccess(Op(w), Shift(w)), Borrowed(c, rx, pc);
    C.LoadInto(d, access, Rd(w), if access.D? then Rd(w) + 1 else 0, SeenIndex(w, d, rx))
  }

  lemma IndexUses(sem: Sem, w: Word32, p: Word32, pc: Word32, rx: nat, c: C.Machine)
    requires Cond(w) < 15 && IsIndexed(Op(w), Shift(w)) && CondHolds(Cond(w), c.flags)
    requires Rd(w) < (if IndexAccess(Op(w), Shift(w)).D? then 14 else 15) && rx < 13 && Rm(w) < 15
    requires CodeAt(c.rest.mem, p, IndexWords(Cond(w), rx, With(w, rx, Rd(w), Rm(w)), pc)) && p % 4 == 0 && p + 32 < CODE_END
    requires StackApart(C.Sp(c), p, 32)
    ensures Ran(sem, At(p, c), p, IndexWords(Cond(w), rx, With(w, rx, Rd(w), Rm(w)), pc), 7, Loaded(w, c, rx, pc))
  {
    hide Cond, Op, Rn, Rd, Shift, Rm, CodeAt, Reaches, Decode, With, C.PutWord, Indexed, CondHolds, C.LoadValue, C.WordFrom,
         IndexAccess, IsIndexed;
    var s, words := At(p, c), IndexWords(Cond(w), rx, With(w, rx, Rd(w), Rm(w)), pc);
    SkipIfRuns(sem, p, words, Cond(w), 5, c);
    SaveRuns(sem, s, p, words, 2, rx, c);
    LdrRuns(sem, s, p, words, 3, rx, 0, Saved(c, rx));
    var d := Borrowed(c, rx, pc);
    OverRuns(sem, s, p, words, 4, d);
    DecodeIndex(w, rx, Rd(w), Rm(w));
    Goes(sem, s, p, words, 6, d);
  }

  lemma IndexRuns(sem: Sem, w: Word32, p: Word32, pc: Word32, rx: nat, c: C.Machine) returns (e: C.Machine)
    requires Cond(w) < 15 && IsIndexed(Op(w), Shift(w)) && CondHolds(Cond(w), c.flags)
    requires AccessOf(GetType(w)) == IndexAccess(Op(w), Shift(w))
    requires var access := IndexAccess(Op(w), Shift(w));
             Rd(w) < (if access.D? then 14 else 15) && Rd(w) != 13 && (access.D? ==> Rd(w) != 12)
    requires rx < 4 && rx != Rd(w) && rx != Rd(w) + 1 && rx != Rm(w) && Rm(w) < 15 && Rn(w) == 15
    requires OperandMoves(w) ==> Discards(Shift(w))
    requires CodeAt(c.rest.mem, p, IndexWords(Cond(w), rx, With(w, rx, Rd(w), Rm(w)), pc)) && p % 4 == 0 && p + 32 < CODE_END
    requires StackApart(C.Sp(c), p, 32) && IndexApart(w, pc, c)
    ensures Reaches(sem, At(p, c), At(p + 32, e))
    ensures var access := IndexAccess(Op(w), Shift(w));
            e == C.SetMem(C.LoadInto(c, access, Rd(w), if access.D? then Rd(w) + 1 else 0, IndexedOf(w, pc, c)),
                          Saved(c, rx).rest.mem)
  {
    hide Cond, Op, Rn, Rd, Shift, Rm, CodeAt, Reaches, With, C.PutWord, IndexedOf, CondHolds, C.LoadInto, IndexAccess, IsIndexed,
         GetType, SeenIndex, OperandMoves;
    var s, words := At(p, c), IndexWords(Cond(w), rx, With(w, rx, Rd(w), Rm(w)), pc);
    var d := Loaded(w, c, rx, pc);
    IndexUses(sem, w, p, pc, rx, c);
    BorrowedLends(c, rx, pc);
    SameIndex(w, Borrowed(c, rx, pc), c, rx, pc);
    LoadedStays(c, rx, pc, IndexAccess(Op(w), Shift(w)), Rd(w), IndexedOf(w, pc, c));
    RestoreRuns(sem, s, p, words, 7, rx, c, d);
    e := C.SetReg(C.SetReg(d, rx, c.rest.r[rx]), C.SP, C.Sp(c));
  }

  lemma IndexExec(sem: Sem, w: Word32, pc: Word32, c: C.Machine)
    requires Known(w) && IsIndexLoad(GetType(w)) && Holds(w, c)
    ensures var access := AccessOf(GetType(w));
            && Rd(w) < (if access.D? then 14 else 15)
            && Exec(sem, w, pc, c)
               == Next(C.LoadInto(c, access, Rd(w), if access.D? then Rd(w) + 1 else 0, IndexedOf(w, pc, c)))
    ensures CondHolds(Cond(w), c.flags)
  {
    hide Cond, Op, Rn, Rd, Shift, Rm, IndexedOf, C.LoadInto, GetType;
  }

  lemma IndexEnds(sem: Sem, w: Word32, pc: Word32, info: Info, p: Word32, c: C.Machine) returns (e: C.Machine)
    requires Known(w) && IsIndexLoad(GetType(w)) && Right(w) && pc % 4 == 0 && IndexApart(w, pc, c)
    requires var words := Rewrite(w, pc, info);
             && CodeAt(c.rest.mem, p, words) && p % 4 == 0 && p + 4 * |words| < CODE_END
             && StackApart(C.Sp(c), p, 4 * |words|)
    ensures Ends(sem, w, pc, info, p, 4 * |Rewrite(w, pc, info)|, c, e)
  {
    hide Cond, Op, Rn, Rd, Shift, Rm, CodeAt, Reaches, Rewrite, GetType, Exec, IndexedOf, Known, With, IsIndexed, IndexAccess,
         IndexApart, C.LoadInto;
    var rx := IndexImage(w, pc, info);
    StaysIfNot(sem, w, pc, c);
    if Holds(w, c) {
      IndexExec(sem, w, pc, c);
      e := IndexRuns(sem, w, p, pc, rx, c);
      LoadKeepsMem(c, AccessOf(GetType(w)), Rd(w), IndexedOf(w, pc, c));
      forall a | !InRed(C.Sp(c), a) ensures e.rest.mem(a) == c.rest.mem(a) {
        SavedIsRed(c, rx, a);
      }
    } else {
      e := c;
      SkipIfRuns(sem, p, Rewrite(w, pc, info), Cond(w), 5, c);
    }
  }

  lemma LoadKeepsMem(c: C.Machine, access: C.Access, rd: nat, addr: Word32)
    requires rd < (if access.D? then 14 else 15)
    ensures C.LoadInto(c, access, rd, if access.D? then rd + 1 else 0, addr).rest.mem == c.rest.mem
  {
    hide C.LoadValue, C.WordFrom;
  }

  // Two registers and room for the destination, when PC itself is written.

  /** PUSH {Ra, Rb, PC} */
  function SavedPair(c: C.Machine, list: seq<nat>, here: Word32): C.Machine
    requires |list| == 2 && list[0] < 13 && list[1] < 13 && C.Sp(c) >= 12
  {
    Pushed(c, c.rest.r[list[0]], c.rest.r[list[1]], true, here)
  }

  lemma SavePairRuns(sem: Sem, s: Cpu, p: Word32, words: seq<Word32>, i: nat, rx: nat, ry: nat, c: C.Machine)
    requires Ran(sem, s, p, words, i, c) && i < |words| && rx < 5 && ry < 5 && rx != ry
    requires words[i] == 0xE92D_8000 + RegBit(rx) + RegBit(ry) && StackApart(C.Sp(c), p, 4 * |words|)
    ensures Ran(sem, s, p, words, i + 1, SavedPair(c, Pair(rx, ry), Wrap32(p + 4 * i + 8)))
  {
    hide CodeAt, Reaches, Decode, Cond, C.PutWord, RegBit;
    DecodeAll(rx, ry);
    Goes(sem, s, p, words, i, c);
    var sp, list := C.Sp(c) - 12, Pair(rx, ry);
    WordsKept(c.rest.mem, sp, c.rest.r[list[0]], p, words);
    var m := C.PutWord(c.rest.mem, sp, c.rest.r[list[0]]);
    WordsKept(m, sp + 4, c.rest.r[list[1]], p, words);
    WordsKept(C.PutWord(m, sp + 4, c.rest.r[list[1]]), sp + 8, Wrap32(p + 4 * i + 8), p, words);
  }

  /** Where the pair and the destination are found again. */
  lemma PairReads(c: C.Machine, list: seq<nat>, here: Word32, value: Word32)
    requires |list| == 2 && list[0] < 13 && list[1] < 13 && C.Sp(c) >= 12
    ensures var m, sp := C.PutWord(SavedPair(c, list, here).rest.mem, C.Sp(c) - 4, value), C.Sp(c) - 12;
            C.WordFrom(m, sp) == c.rest.r[list[0]] && C.WordFrom(m, sp + 4) == c.rest.r[list[1]] && C.WordFrom(m, sp + 8) == value
  {
    hide C.PutWord, C.WordFrom;
    var sp, x, y := C.Sp(c) - 12, c.rest.r[list[0]], c.rest.r[list[1]];
    var m1 := C.PutWord(c.rest.mem, sp, x);
    var m2 := C.PutWord(m1, sp + 4, y);
    var m3 := C.PutWord(m2, sp + 8, here);
    S.WordKept(c.rest.mem, sp, x, sp);
    S.WordKept(m1, sp + 4, y, sp);
    S.WordKept(m2, sp + 8, here, sp);
    S.WordKept(m3, sp + 8, value, sp);
    S.WordKept(m2, sp + 8, here, sp + 4);
    S.WordKept(m3, sp + 8, value, sp + 4);
  }

  lemma PairIsRed(c: C.Machine, list: seq<nat>, here: Word32, value: Word32)
    requires |list| == 2 && list[0] < 13 && list[1] < 13 && C.Sp(c) >= 12
    ensures var m := C.PutWord(SavedPair(c, list, here).rest.mem, C.Sp(c) - 4, value);
            forall a | !InRed(C.Sp(c), a) :: m(a) == c.rest.mem(a)
  {
  }

  /** The state in which the destination is in Ry: everything but the pair and SP is as it was. */
  ghost predicate Trades(d: C.Machine, c: C.Machine, rx: nat, ry: nat, here: Word32) {
    && rx < 5 && ry < 5 && rx != ry && C.Sp(c) >= 12 && C.Sp(d) == C.Sp(c) - 12
    && d.flags == c.flags && d.rest.fp == c.rest.fp && d.rest.mem == SavedPair(c, Pair(rx, ry), here).rest.mem
    && forall n: nat | n < 15 && n != 13 && n != rx && n != ry :: d.rest.r[n] == c.rest.r[n]
  }

  /** STR Ry, [SP, #8]; POP {Rx, Ry, PC} */
  lemma TradeRuns(sem: Sem, s: Cpu, p: Word32, words: seq<Word32>, i: nat, rx: nat, ry: nat, c: C.Machine, d: C.Machine,
                  here: Word32)
    returns (e: C.Machine)
    requires Ran(sem, s, p, words, i, d) && i + 1 < |words| && Trades(d, c, rx, ry, here) && StackApart(C.Sp(c), p, 4 * |words|)
    requires words[i] == 0xE58D_0008 + ry * 0x1000 && words[i + 1] == 0xE8BD_8000 + RegBit(rx) + RegBit(ry)
    ensures Reaches(sem, s, Gone(d.rest.r[ry], e)) && SameAbove(e, c, C.Sp(c))
  {
    hide CodeAt, Reaches, Decode, Cond, C.PutWord, C.WordFrom, RegBit, SavedPair;
    var value, list := d.rest.r[ry], Pair(rx, ry);
    DecodeStore(ry, 8);
    Goes(sem, s, p, words, i, d);
    var d1 := C.SetMem(d, C.PutWord(d.rest.mem, C.Sp(c) - 4, value));
    WordsKept(d.rest.mem, C.Sp(c) - 4, value, p, words);
    DecodeAll(rx, ry);
    Goes(sem, s, p, words, i + 1, d1);
    PairReads(c, list, here, value);
    PairIsRed(c, list, here, value);
    e := C.SetReg(C.SetReg(C.SetReg(d1, list[0], c.rest.r[list[0]]), list[1], c.rest.r[list[1]]), C.SP, C.Sp(c));
    assert e.rest.r == c.rest.r;
  }

  function DataPcWords(cond: nat, rx: nat, ry: nat, use: Word32, pc: Word32): seq<Word32>
    requires cond < 16 && rx < 5 && ry < 5
  {
    [SkipIf(cond), Skip(5), 0xE92D_8000 + RegBit(rx) + RegBit(ry), 0xE59F_0008 + rx * 0x1000, use,
     0xE58D_0008 + ry * 0x1000, 0xE8BD_8000 + RegBit(rx) + RegBit(ry), pc]
  }

  lemma DataPcImage(w: Word32, pc: Word32, info: Info) returns (rx: nat, ry: nat, rn: nat, rm: nat)
    requires IsDataPc(GetType(w))
    ensures Cond(w) < 15 && IsDataOp(Op(w)) && Op(w) % 2 == 0 && Shift(w) % 2 == 0
    ensures StandsFor(w, rx, rn, rm) && ry < 5 && ry != rx
    ensures Rewrite(w, pc, info) == DataPcWords(Cond(w), rx, ry, With(w, rn, ry, rm), pc)
  {
    FieldBounds(w);
    hide Cond, Op, Rn, Rd, Shift, Rm, Spare, With, RegBit;
    SpareOfThree(Rn(w), Rm(w), Rd(w));
    rx := Spare({Rn(w), Rm(w), Rd(w)}, 3);
    ry := Spare({Rn(w), Rm(w), Rd(w)} + {rx}, 4);
    rn := if Rn(w) == 15 then rx else Rn(w);
    rm := if Rn(w) == 15 then Rm(w) else rx;
  }

  lemma PairLends(c: C.Machine, rx: nat, ry: nat, here: Word32, pc: Word32)
    requires rx < 5 && ry < 5 && rx != ry && C.Sp(c) >= 12
    ensures var d := LentPair(c, rx, ry, here, pc);
            Lends(d, c, rx, pc) && forall x :: Trades(C.SetReg(d, ry, x), c, rx, ry, here)
  {
    hide C.PutWord;
  }

  /** Rx holds PC, and Rx and Ry are kept on the stack. */
  function LentPair(c: C.Machine, rx: nat, ry: nat, here: Word32, pc: Word32): C.Machine
    requires rx < 5 && ry < 5 && C.Sp(c) >= 12
  {
    C.SetReg(SavedPair(c, Pair(rx, ry), here), rx, pc)
  }

  /** What the destination is computed to be. */
  lemma DataPcSeen(sem: Sem, w: Word32, p: Word32, pc: Word32, rx: nat, ry: nat, rn: nat, rm: nat, c: C.Machine)
    returns (e: C.Machine)
    requires Cond(w) < 15 && IsDataOp(Op(w)) && Op(w) % 2 == 0 && Shift(w) % 2 == 0 && CondHolds(Cond(w), c.flags)
    requires rx < 5 && ry < 5 && ry != rx && rn < 15 && rm < 16 && p % 4 == 0 && p + 32 < CODE_END && StackApart(C.Sp(c), p, 32)
    requires CodeAt(c.rest.mem, p, DataPcWords(Cond(w), rx, ry, With(w, rn, ry, rm), pc))
    ensures Reaches(sem, At(p, c), Gone(Seen(w, LentPair(c, rx, ry, p + 16, pc), rn, rm, p + 24).0, e))
    ensures SameAbove(e, c, C.Sp(c))
  {
    hide Cond, Op, Rn, Rd, Shift, Rm, CodeAt, Reaches, Decode, With, Data, CondHolds, IsDataOp, SavedPair, RegBit;
    var s, words := At(p, c), DataPcWords(Cond(w), rx, ry, With(w, rn, ry, rm), pc);
    var here := p + 16;
    SkipIfRuns(sem, p, words, Cond(w), 5, c);
    SavePairRuns(sem, s, p, words, 2, rx, ry, c);
    LdrRuns(sem, s, p, words, 3, rx, 8, SavedPair(c, Pair(rx, ry), here));
    var d := LentPair(c, rx, ry, here, pc);
    PairLends(c, rx, ry, here, pc);
    DecodeAlu(w, rn, ry, rm);
    Goes(sem, s, p, words, 4, d);
    KeepsFlags(Op(w), d.rest.r[rn], Reg(d, rm, p + 24), Shift(w), d.flags);
    e := TradeRuns(sem, s, p, words, 5, rx, ry, c, C.SetReg(d, ry, Seen(w, d, rn, rm, p + 24).0), here);
  }

  lemma ApartTells(sp: Word32, p: int, len: nat)
    requires StackApart(sp, p, len) && p + len < CODE_END
    ensures sp >= 12 && p + len < 0x1_0000_0000
  {
  }

  lemma PairSp(c: C.Machine, rx: nat, ry: nat, here: Word32, pc: Word32)
    requires rx < 5 && ry < 5 && C.Sp(c) >= 12
    ensures C.Sp(LentPair(c, rx, ry, here, pc)) == C.Sp(c) - 12
  {
    hide C.PutWord;
  }

  lemma DataPcRuns(sem: Sem, w: Word32, p: Word32, pc: Word32, rx: nat, ry: nat, rn: nat, rm: nat, c: C.Machine)
    returns (e: C.Machine)
    requires Cond(w) < 15 && IsDataOp(Op(w)) && Op(w) % 2 == 0 && Shift(w) % 2 == 0 && CondHolds(Cond(w), c.flags)
    requires StandsFor(w, rx, rn, rm) && ry < 5 && ry != rx && (OperandMoves(w) ==> Discards(Shift(w))) && pc % 4 == 0
    requires CodeAt(c.rest.mem, p, DataPcWords(Cond(w), rx, ry, With(w, rn, ry, rm), pc)) && p % 4 == 0 && p + 32 < CODE_END
    requires StackApart(C.Sp(c), p, 32)
    ensures Reaches(sem, At(p, c), Gone(DataOf(w, pc, c).0, e)) && SameAbove(e, c, C.Sp(c))
  {
    hide *;
    StandsTells(w, rx, rn, rm);
    ApartTells(C.Sp(c), p, 32);
    PairLends(c, rx, ry, p + 16, pc);
    PairSp(c, rx, ry, p + 16, pc);
    SameOperands(w, LentPair(c, rx, ry, p + 16, pc), c, rx, rn, rm, pc, p + 24);
    e := DataPcSeen(sem, w, p, pc, rx, ry, rn, rm, c);
  }

  lemma KeepsFlags(op: nat, a: Word32, b: Word32, shift: nat, f: Flags)
    requires op % 2 == 0
    ensures Data(op, a, b, shift, f).1 == f
  {
    hide Shifted, AddWithCarry;
  }

  lemma DataPcExec(sem: Sem, w: Word32, pc: Word32, c: C.Machine)
    requires Known(w) && IsDataPc(GetType(w)) && Holds(w, c)
    ensures Exec(sem, w, pc, c) == Taken(c, DataOf(w, pc, c).0) && CondHolds(Cond(w), c.flags) && !Links(w)
  {
    hide Cond, Op, Rn, Rd, Shift, Rm, DataOf, GetType;
  }

  lemma DataPcEnds(sem: Sem, w: Word32, pc: Word32, info: Info, p: Word32, c: C.Machine) returns (e: C.Machine)
    requires Known(w) && IsDataPc(GetType(w)) && Right(w) && pc % 4 == 0
    requires var words := Rewrite(w, pc, info);
             && CodeAt(c.rest.mem, p, words) && p % 4 == 0 && p + 4 * |words| < CODE_END
             && StackApart(C.Sp(c), p, 4 * |words|)
    ensures Ends(sem, w, pc, info, p, 4 * |Rewrite(w, pc, info)|, c, e)
  {
    hide Cond, Op, Rn, Rd, Shift, Rm, CodeAt, Reaches, Rewrite, GetType, Exec, DataOf, Known, With, IsDataOp, RegBit, Links;
    var rx, ry, rn, rm := DataPcImage(w, pc, info);
    StaysIfNot(sem, w, pc, c);
    if Holds(w, c) {
      DataPcExec(sem, w, pc, c);
      e := DataPcRuns(sem, w, p, pc, rx, ry, rn, rm, c);
    } else {
      e := c;
      SkipIfRuns(sem, p, Rewrite(w, pc, info), Cond(w), 5, c);
    }
  }

  function IndexPcWords(cond: nat, rx: nat, ry: nat, use: Word32, pc: Word32): seq<Word32>
    requires cond < 16 && rx < 5 && ry < 5
  {
    [SkipIf(cond), Skip(6), 0xE92D_8000 + RegBit(rx) + RegBit(ry), 0xE59F_0000 + rx * 0x1000, Skip(0), pc, use,
     0xE58D_0008 + ry * 0x1000, 0xE8BD_8000 + RegBit(rx) + RegBit(ry)]
  }

  lemma IndexPcImage(w: Word32, pc: Word32, info: Info) returns (rx: nat, ry: nat)
    requires Known(w) && GetType(w).LDR_REG_PC_A1?
    ensures Cond(w) < 15 && IsIndexed(Op(w), Shift(w)) && IndexAccess(Op(w), Shift(w)) == C.W
    ensures Rm(w) < 15 && Rn(w) == 15 && rx < 4 && rx != Rm(w) && ry < 5 && ry != rx
    ensures Rewrite(w, pc, info) == IndexPcWords(Cond(w), rx, ry, With(w, rx, ry, Rm(w)), pc)
  {
    FieldBounds(w);
    hide Cond, Op, Rn, Rd, Shift, Rm, Spare, With, RegBit;
    SpareOfThree(Rd(w), Rd(w) + 1, Rm(w));
    rx := Spare({Rd(w), Rd(w) + 1, Rm(w)}, 3);
    ry := Spare({Rd(w), Rd(w) + 1, Rm(w)} + {rx}, 4);
  }

  lemma PairKeeps(c: C.Machine, list: seq<nat>, here: Word32, addr: Word32)
    requires |list| == 2 && list[0] < 13 && list[1] < 13 && C.Sp(c) >= 12 && ReadsApart(C.Sp(c), addr, 4)
    ensures C.WordFrom(SavedPair(c, list, here).rest.mem, addr) == C.WordFrom(c.rest.mem, addr)
  {
    var sp, x, y := C.Sp(c) - 12, c.rest.r[list[0]], c.rest.r[list[1]];
    hide C.PutWord, C.WordFrom;
    var m1 := C.PutWord(c.rest.mem, sp, x);
    var m2 := C.PutWord(m1, sp + 4, y);
    S.WordKept(c.rest.mem, sp, x, addr);
    S.WordKept(m1, sp + 4, y, addr);
    S.WordKept(m2, sp + 8, here, addr);
  }

  lemma IndexPcSeen(sem: Sem, w: Word32, p: Word32, pc: Word32, rx: nat, ry: nat, c: C.Machine) returns (e: C.Machine)
    requires Cond(w) < 15 && IsIndexed(Op(w), Shift(w)) && IndexAccess(Op(w), Shift(w)) == C.W && CondHolds(Cond(w), c.flags)
    requires Rm(w) < 15 && rx < 5 && ry < 5 && ry != rx && p % 4 == 0 && p + 36 < CODE_END && StackApart(C.Sp(c), p, 36)
    requires CodeAt(c.rest.mem, p, IndexPcWords(Cond(w), rx, ry, With(w, rx, ry, Rm(w)), pc))
    ensures var d := LentPair(c, rx, ry, p + 16, pc);
            Reaches(sem, At(p, c), Gone(C.WordFrom(d.rest.mem, SeenIndex(w, d, rx)), e))
    ensures SameAbove(e, c, C.Sp(c))
  {
    hide Cond, Op, Rn, Rd, Shift, Rm, CodeAt, Reaches, Decode, With, Indexed, CondHolds, C.WordFrom, IndexAccess, IsIndexed,
         SavedPair, RegBit;
    var s, words := At(p, c), IndexPcWords(Cond(w), rx, ry, With(w, rx, ry, Rm(w)), pc);
    var here := p + 16;
    SkipIfRuns(sem, p, words, Cond(w), 6, c);
    SavePairRuns(sem, s, p, words, 2, rx, ry, c);
    LdrRuns(sem, s, p, words, 3, rx, 0, SavedPair(c, Pair(rx, ry), here));
    var d := LentPair(c, rx, ry, here, pc);
    PairLends(c, rx, ry, here, pc);
    OverRuns(sem, s, p, words, 4, d);
    DecodeIndex(w, rx, ry, Rm(w));
    Goes(sem, s, p, words, 6, d);
    e := TradeRuns(sem, s, p, words, 7, rx, ry, c, C.SetReg(d, ry, C.WordFrom(d.rest.mem, SeenIndex(w, d, rx))), here);
  }

  lemma IndexPcRuns(sem: Sem, w: Word32, p: Word32, pc: Word32, rx: nat, ry: nat, c: C.Machine) returns (e: C.Machine)
    requires Cond(w) < 15 && IsIndexed(Op(w), Shift(w)) && IndexAccess(Op(w), Shift(w)) == C.W && CondHolds(Cond(w), c.flags)
    requires AccessOf(GetType(w)) == C.W && (OperandMoves(w) ==> Discards(Shift(w)))
    requires Rm(w) < 15 && Rn(w) == 15 && rx < 4 && rx != Rm(w) && ry < 5 && ry != rx
    requires CodeAt(c.rest.mem, p, IndexPcWords(Cond(w), rx, ry, With(w, rx, ry, Rm(w)), pc)) && p % 4 == 0 && p + 36 < CODE_END
    requires StackApart(C.Sp(c), p, 36) && IndexApart(w, pc, c)
    ensures Reaches(sem, At(p, c), Gone(C.WordFrom(c.rest.mem, IndexedOf(w, pc, c)), e)) && SameAbove(e, c, C.Sp(c))
  {
    hide Cond, Op, Rn, Rd, Shift, Rm, CodeAt, Reaches, With, IndexedOf, CondHolds, C.WordFrom, IndexAccess, IsIndexed, SavedPair,
         RegBit, SeenIndex, OperandMoves;
    PairLends(c, rx, ry, p + 16, pc);
    PairSp(c, rx, ry, p + 16, pc);
    SameIndex(w, LentPair(c, rx, ry, p + 16, pc), c, rx, pc);
    PairKeeps(c, Pair(rx, ry), p + 16, IndexedOf(w, pc, c));
    e := IndexPcSeen(sem, w, p, pc, rx, ry, c);
  }

  lemma IndexPcExec(sem: Sem, w: Word32, pc: Word32, c: C.Machine)
    requires Known(w) && GetType(w).LDR_REG_PC_A1? && Holds(w, c)
    ensures Exec(sem, w, pc, c) == Taken(c, C.WordFrom(c.rest.mem, IndexedOf(w, pc, c)))
    ensures CondHolds(Cond(w), c.flags) && !Links(w)
  {
    hide Cond, Op, Rn, Rd, Shift, Rm, IndexedOf, GetType;
  }

  lemma IndexPcEnds(sem: Sem, w: Word32, pc: Word32, info: Info, p: Word32, c: C.Machine) returns (e: C.Machine)
    requires Known(w) && GetType(w).LDR_REG_PC_A1? && Right(w) && pc % 4 == 0 && IndexApart(w, pc, c)
    requires var words := Rewrite(w, pc, info);
             && CodeAt(c.rest.mem, p, words) && p % 4 == 0 && p + 4 * |words| < CODE_END
             && StackApart(C.Sp(c), p, 4 * |words|)
    ensures Ends(sem, w, pc, info, p, 4 * |Rewrite(w, pc, info)|, c, e)
  {
    hide Cond, Op, Rn, Rd, Shift, Rm, CodeAt, Reaches, Rewrite, GetType, Exec, IndexedOf, Known, With, IsIndexed, IndexAccess,
         IndexApart, RegBit, Links, C.WordFrom;
    var rx, ry := IndexPcImage(w, pc, info);
    StaysIfNot(sem, w, pc, c);
    if Holds(w, c) {
      IndexPcExec(sem, w, pc, c);
      e := IndexPcRuns(sem, w, p, pc, rx, ry, c);
    } else {
      e := c;
      SkipIfRuns(sem, p, Rewrite(w, pc, info), Cond(w), 6, c);
    }
  }

  // LDR PC from a literal: R0 and R1 are saved, and R1's place on the stack is traded for the destination.

  function LiteralPcWords(cond: nat, addr: Word32): seq<Word32>
    requires cond < 16
  {
    [SkipIf(cond), Skip(6), 0xE92D_0003, 0xE59F_0000, Skip(0), addr, 0xE590_0000, 0xE58D_0004, 0xE8BD_8001]
  }

  function SavedTwo(c: C.Machine): C.Machine
    requires C.Sp(c) >= 12
  {
    Pushed(c, c.rest.r[0], c.rest.r[1], false, 0)
  }

  lemma SaveTwoRuns(sem: Sem, s: Cpu, p: Word32, words: seq<Word32>, i: nat, c: C.Machine)
    requires Ran(sem, s, p, words, i, c) && i < |words| && words[i] == 0xE92D_0003 && StackApart(C.Sp(c), p, 4 * |words|)
    ensures Ran(sem, s, p, words, i + 1, SavedTwo(c))
  {
    hide CodeAt, Reaches, Decode, Cond, C.PutWord;
    DecodePushTwo();
    Goes(sem, s, p, words, i, c);
    WordsKept(c.rest.mem, C.Sp(c) - 8, c.rest.r[0], p, words);
    WordsKept(C.PutWord(c.rest.mem, C.Sp(c) - 8, c.rest.r[0]), C.Sp(c) - 4, c.rest.r[1], p, words);
    assert [0, 1][0] == 0 && [0, 1][1] == 1;
  }

  lemma TwoKeeps(c: C.Machine, addr: Word32)
    requires C.Sp(c) >= 12 && ReadsApart(C.Sp(c), addr, 4)
    ensures C.WordFrom(SavedTwo(c).rest.mem, addr) == C.WordFrom(c.rest.mem, addr)
  {
    hide C.PutWord, C.WordFrom;
    var sp := C.Sp(c) - 8;
    S.WordKept(c.rest.mem, sp, c.rest.r[0], addr);
    S.WordKept(C.PutWord(c.rest.mem, sp, c.rest.r[0]), sp + 4, c.rest.r[1], addr);
  }

  lemma TwoReads(c: C.Machine, value: Word32)
    requires C.Sp(c) >= 12
    ensures var m := C.PutWord(SavedTwo(c).rest.mem, C.Sp(c) - 4, value);
            C.WordFrom(m, C.Sp(c) - 8) == c.rest.r[0] && C.WordFrom(m, C.Sp(c) - 4) == value
  {
    hide C.PutWord, C.WordFrom;
    var sp := C.Sp(c) - 8;
    var m1 := C.PutWord(c.rest.mem, sp, c.rest.r[0]);
    S.WordKept(c.rest.mem, sp, c.rest.r[0], sp);
    S.WordKept(m1, sp + 4, c.rest.r[1], sp);
    S.WordKept(C.PutWord(m1, sp + 4, c.rest.r[1]), sp + 4, value, sp);
  }

  lemma TwoIsRed(c: C.Machine, value: Word32)
    requires C.Sp(c) >= 12
    ensures var m := C.PutWord(SavedTwo(c).rest.mem, C.Sp(c) - 4, value);
            forall a | !InRed(C.Sp(c), a) :: m(a) == c.rest.mem(a)
  {
  }

  /** R0 and the place of R1 hold the destination. */
  function TradedTwo(c: C.Machine, value: Word32): C.Machine
    requires C.Sp(c) >= 12
  {
    C.SetMem(C.SetReg(SavedTwo(c), 0, value), C.PutWord(SavedTwo(c).rest.mem, C.Sp(c) - 4, value))
  }

  /** LDR R0, [R0]; STR R0, [SP, #4] */
  lemma TradeTwoStores(sem: Sem, s: Cpu, p: Word32, words: seq<Word32>, i: nat, c: C.Machine, addr: Word32)
    requires C.Sp(c) >= 12 && Ran(sem, s, p, words, i, C.SetReg(SavedTwo(c), 0, addr)) && i + 1 < |words|
    requires words[i] == 0xE590_0000 && words[i + 1] == 0xE58D_0004
    requires StackApart(C.Sp(c), p, 4 * |words|) && ReadsApart(C.Sp(c), addr, 4)
    ensures Ran(sem, s, p, words, i + 2, TradedTwo(c, C.WordFrom(c.rest.mem, addr)))
  {
    hide CodeAt, Reaches, Decode, Cond, C.PutWord, C.WordFrom;
    var value := C.WordFrom(c.rest.mem, addr);
    var d := C.SetReg(SavedTwo(c), 0, addr);
    TwoKeeps(c, addr);
    DecodeRead();
    Goes(sem, s, p, words, i, d);
    DecodeStore(0, 4);
    assert SavedTwo(c).rest.r[0 := addr][0 := value] == SavedTwo(c).rest.r[0 := value];
    Goes(sem, s, p, words, i + 1, C.SetReg(d, 0, value));
    WordsKept(d.rest.mem, C.Sp(c) - 4, value, p, words);
  }

  /** POP {R0, PC} */
  lemma TradeTwoRuns(sem: Sem, s: Cpu, p: Word32, words: seq<Word32>, i: nat, c: C.Machine, addr: Word32) returns (e: C.Machine)
    requires C.Sp(c) >= 12 && Ran(sem, s, p, words, i, C.SetReg(SavedTwo(c), 0, addr)) && i + 2 < |words|
    requires words[i] == 0xE590_0000 && words[i + 1] == 0xE58D_0004 && words[i + 2] == 0xE8BD_8001
    requires StackApart(C.Sp(c), p, 4 * |words|) && ReadsApart(C.Sp(c), addr, 4)
    ensures Reaches(sem, s, Gone(C.WordFrom(c.rest.mem, addr), e)) && SameAbove(e, c, C.Sp(c))
  {
    hide CodeAt, Reaches, Decode, Cond, C.PutWord, C.WordFrom;
    var value := C.WordFrom(c.rest.mem, addr);
    TradeTwoStores(sem, s, p, words, i, c, addr);
    var d := TradedTwo(c, value);
    TwoReads(c, value);
    TwoIsRed(c, value);
    DecodePopPc();
    Goes(sem, s, p, words, i + 2, d);
    assert [0][0] == 0;
    e := C.SetReg(C.SetReg(d, 0, c.rest.r[0]), C.SP, C.Sp(c));
    assert e.rest.r == c.rest.r;
  }

  lemma LiteralPcImage(w: Word32, pc: Word32, info: Info)
    requires GetType(w).LDR_LIT_PC_A1? && Rewrite(w, pc, info) != []
    ensures Cond(w) < 15 && Rewrite(w, pc, info) == LiteralPcWords(Cond(w), Literal(w, pc, LDR_LIT_PC_A1))
  {
    FieldBounds(w);
    hide Cond, Op, Rn, Rd, Shift, Rm, Literal, IsAddrNeedFix;
  }

  lemma LiteralPcRuns(sem: Sem, p: Word32, cond: nat, addr: Word32, c: C.Machine) returns (e: C.Machine)
    requires cond < 15 && CondHolds(cond, c.flags) && ReadsApart(C.Sp(c), addr, 4) && StackApart(C.Sp(c), p, 36)
    requires CodeAt(c.rest.mem, p, LiteralPcWords(cond, addr)) && p % 4 == 0 && p + 36 < CODE_END
    ensures Reaches(sem, At(p, c), Gone(C.WordFrom(c.rest.mem, addr), e)) && SameAbove(e, c, C.Sp(c))
  {
    hide CodeAt, Reaches, CondHolds, C.WordFrom, SavedTwo;
    var s, words := At(p, c), LiteralPcWords(cond, addr);
    SkipIfRuns(sem, p, words, cond, 6, c);
    SaveTwoRuns(sem, s, p, words, 2, c);
    LdrRuns(sem, s, p, words, 3, 0, 0, SavedTwo(c));
    OverRuns(sem, s, p, words, 4, C.SetReg(SavedTwo(c), 0, addr));
    e := TradeTwoRuns(sem, s, p, words, 6, c, addr);
  }

  lemma LiteralPcExec(sem: Sem, w: Word32, pc: Word32, c: C.Machine)
    requires Known(w) && GetType(w).LDR_LIT_PC_A1? && Holds(w, c)
    ensures Exec(sem, w, pc, c) == Taken(c, C.WordFrom(c.rest.mem, Literal(w, pc, LDR_LIT_PC_A1)))
    ensures CondHolds(Cond(w), c.flags) && !Links(w)
  {
    hide Cond, Op, Rn, Rd, Shift, Rm, Literal, GetType;
  }

  lemma LiteralPcEnds(sem: Sem, w: Word32, pc: Word32, info: Info, p: Word32, c: C.Machine) returns (e: C.Machine)
    requires Known(w) && GetType(w).LDR_LIT_PC_A1? && ReadsApart(C.Sp(c), Literal(w, pc, LDR_LIT_PC_A1), 4)
    requires Rewrite(w, pc, info) != []
    requires var words := Rewrite(w, pc, info);
             && CodeAt(c.rest.mem, p, words) && p % 4 == 0 && p + 4 * |words| < CODE_END
             && StackApart(C.Sp(c), p, 4 * |words|)
    ensures Ends(sem, w, pc, info, p, 4 * |Rewrite(w, pc, info)|, c, e)
  {
    hide Cond, CodeAt, Reaches, Rewrite, GetType, Exec, Known, Links, Literal, C.WordFrom;
    LiteralPcImage(w, pc, info);
    StaysIfNot(sem, w, pc, c);
    if Holds(w, c) {
      LiteralPcExec(sem, w, pc, c);
      e := LiteralPcRuns(sem, p, Cond(w), Literal(w, pc, LDR_LIT_PC_A1), c);
    } else {
      e := c;
      SkipIfRuns(sem, p, Rewrite(w, pc, info), Cond(w), 6, c);
    }
  }

  // All of them.

  /** The stack has room below SP, away from the image, and what is loaded lies elsewhere. */
  predicate StackReady(w: Word32, pc: Word32, p: int, len: nat, c: C.Machine) {
    var t := GetType(w);
    && (Borrows(t) ==> StackApart(C.Sp(c), p, len))
    && (IsIndexLoad(t) || t.LDR_REG_PC_A1? ==> IndexApart(w, pc, c))
    && (t.LDR_LIT_PC_A1? ==> ReadsApart(C.Sp(c), Literal(w, pc, t), 4))
  }

  lemma BorrowEnds(sem: Sem, w: Word32, pc: Word32, info: Info, p: Word32, c: C.Machine) returns (e: C.Machine)
    requires Known(w) && Borrows(GetType(w)) && Right(w) && pc % 4 == 0 && Rewrite(w, pc, info) != []
    requires var words := Rewrite(w, pc, info);
             && CodeAt(c.rest.mem, p, words) && p % 4 == 0 && p + 4 * |words| < CODE_END
             && StackReady(w, pc, p, 4 * |words|, c)
    ensures Ends(sem, w, pc, info, p, 4 * |Rewrite(w, pc, info)|, c, e)
  {
    hide Rewrite, Ends, CodeAt, GetType, StackApart, IndexApart, ReadsApart, Right, Literal;
    if IsData(GetType(w)) {
      e := DataEnds(sem, w, pc, info, p, c);
    } else if IsDataPc(GetType(w)) {
      e := DataPcEnds(sem, w, pc, info, p, c);
    } else if IsIndexLoad(GetType(w)) {
      e := IndexEnds(sem, w, pc, info, p, c);
    } else if GetType(w).LDR_REG_PC_A1? {
      e := IndexPcEnds(sem, w, pc, info, p, c);
    } else {
      e := LiteralPcEnds(sem, w, pc, info, p, c);
    }
  }

  /** A result that goes to SP: the image then pops the borrowed register from the new stack, and leaves SP four too high, in
      every state in which the condition holds. */
  lemma SpResultBreaks(sem: Sem, w: Word32, pc: Word32, info: Info, p: Word32, c: C.Machine) returns (e: C.Machine)
    requires Known(w) && IsData(GetType(w)) && Rd(w) == 13 && (OperandMoves(w) ==> Discards(Shift(w))) && Holds(w, c)
    requires var words := Rewrite(w, pc, info);
             && CodeAt(c.rest.mem, p, words) && p % 4 == 0 && pc % 4 == 0 && p + 4 * |words| < CODE_END
             && StackApart(C.Sp(c), p, 4 * |words|)
    ensures Reaches(sem, At(p, c), At(p + 4 * |Rewrite(w, pc, info)|, e))
    ensures Exec(sem, w, pc, c).Next? && C.Sp(e) == Wrap32(C.Sp(Exec(sem, w, pc, c).core) + 4)
  {
    hide Cond, Op, Rn, Rd, Shift, Rm, CodeAt, Reaches, Rewrite, GetType, Exec, DataOf, Known, With, IsDataOp, C.PutWord,
         C.WordFrom, CondHolds, Seen, OperandMoves, Discards;
    var rx, rn, rm := DataImage(w, pc, info);
    var d := Used(w, c, rx, rn, rm, pc, p + 24);
    DataExec(sem, w, pc, c);
    DataUses(sem, w, p, pc, rx, rn, rm, c);
    BorrowedLends(c, rx, pc);
    SameOperands(w, Borrowed(c, rx, pc), c, rx, rn, rm, pc, p + 24);
    PopRuns(sem, At(p, c), p, Rewrite(w, pc, info), 5, rx, d);
    e := Popped(d, rx);
    OverRuns(sem, At(p, c), p, Rewrite(w, pc, info), 6, e);
  }
}
