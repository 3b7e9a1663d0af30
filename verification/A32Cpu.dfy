/** An Arm processor for the instructions that moved code is made of, and what the instructions mean that are moved
    (sections A8.3, A8.4 and A8.8 of the Arm Architecture Reference Manual, DDI 0406). */
module A32Cpu {
  import opened Words
  import opened Layout
  import opened A32Rewrite
  import opened ThumbArms
  import C = ThumbCpu

  const CODE_END := 0x1_0000_0000 - 0x40

  // Shifted operands and addition (sections A8.4 and A2.2.1).

  function Pow2(n: nat): (p: nat)
    ensures p > 0
  {
    if n == 0 then 1 else 2 * Pow2(n - 1)
  }

  /** A register shifted as bits 11 to 4 say, and the carry that the shifter puts out. */
  function Shifted(x: Word32, shift: nat, carry: bool): (Word32, bool) {
    var n, kind := shift / 8, shift / 2 % 4;
    var m := if n == 0 then 32 else n;
    if kind == 0 then
      (Wrap32(x * Pow2(n)), if n == 0 then carry else Wrap32(x * Pow2(n - 1)) >= 0x8000_0000)
    else if kind == 1 then
      (Wrap32(x / Pow2(m)), x / Pow2(m - 1) % 2 == 1)
    else if kind == 2 then
      (Wrap32(if x < 0x8000_0000 then x / Pow2(m) else 0xFFFF_FFFF - (0xFFFF_FFFF - x) / Pow2(m)), x / Pow2(m - 1) % 2 == 1)
    else if n == 0 then
      (x / 2 + (if carry then 0x8000_0000 else 0), x % 2 == 1)
    else
      (Rotate(x, n), Rotate(x, n) >= 0x8000_0000)
  }

  /** The sum, the carry and the overflow. */
  function AddWithCarry(a: Word32, b: Word32, carry: nat): (Word32, bool, bool) {
    var sum := Wrap32(a + b + carry);
    (sum, a + b + carry >= 0x1_0000_0000,
     SignExtend(sum, 0x1_0000_0000) != SignExtend(a, 0x1_0000_0000) + SignExtend(b, 0x1_0000_0000) + carry)
  }

  predicate IsMov(op: nat) { op / 2 == 0x0D }

  /** ADD, SUB or MOV of registers; the lowest bit of the operation says whether the flags are set. */
  function Data(op: nat, a: Word32, b: Word32, shift: nat, f: Flags): (Word32, Flags) {
    var (y, carry) := Shifted(b, shift, f.c);
    var (x, c, v) :=
      if IsMov(op) then (y, carry, f.v)
      else if op / 2 == 4 then AddWithCarry(a, y, 0)
      else AddWithCarry(a, 0xFFFF_FFFF - y, 1);
    (x, if op % 2 == 1 then Flags(x >= 0x8000_0000, x == 0, c, v) else f)
  }

  /** Base plus or minus an index, which the word and byte loads shift. */
  function Indexed(op: nat, base: Word32, index: Word32, shift: nat, f: Flags): Word32 {
    var off := if op / 0x20 == 3 then Shifted(index, shift, f.c).0 else index;
    Wrap32(if op / 8 % 2 == 1 then base + off else base - off)
  }

  /** What a load with an index loads. */
  function IndexAccess(op: nat, shift: nat): C.Access {
    if op / 0x20 == 3 then (if BitB(op) == 1 then C.UB else C.W)
    else if op % 2 == 0 then C.D
    else if shift % 0x10 == 0xB then C.UH
    else if shift % 0x10 == 0xD then C.SB
    else C.SH
  }

  // The processor, as far as images need it.

  datatype Instr =
    | Branch(off: int)
    | AdrPc(rd: nat, imm: nat)
    | LdrPc(rt: nat, off: int)  // LDR Rt, [PC, #off]; Rt may be PC
    | LdrSp(rt: nat, off: int)
    | Load(access: C.Access, rt: nat, rn: nat)
    | LoadIndex(op: nat, rt: nat, rn: nat, rm: nat, shift: nat)
    | Alu(op: nat, rd: nat, rn: nat, rm: nat, shift: nat)
    | Push(rt: nat)
    | Pop(rt: nat)
    | StrSp(rt: nat, imm: nat)
    | PushAll(list: seq<nat>, andPc: bool)
    | PopAll(list: seq<nat>, andPc: bool)
    | Blx(rm: nat)
    | Unknown

  predicate Fits(i: Instr) {
    match i
    case AdrPc(rd, _) => rd < 15
    case LdrPc(rt, _) => rt < 16
    case LdrSp(rt, _) => rt < 13
    case Load(access, rt, rn) => rt < (if access.D? then 14 else 15) && rn < 15
    case LoadIndex(op, rt, rn, rm, shift) => rt < (if IndexAccess(op, shift).D? then 14 else 15) && rn < 15 && rm < 15
    case Alu(_, rd, rn, rm, _) => rd < 15 && rn < 15 && rm < 16
    case Push(rt) => rt < 13
    case Pop(rt) => rt < 13
    case StrSp(rt, _) => rt < 13
    case PushAll(list, _) => |list| == 2 && list[0] < 13 && list[1] < 13
    case Blx(rm) => rm < 15
    case PopAll(list, andPc) => |list| in {1, 2} && list[0] < 13 && list[|list| - 1] < 13 && andPc
    case _ => true
  }

  /** The registers R0 to R4 of a list. */
  function Registers(bits: nat): seq<nat> {
    (if bits % 2 == 1 then [0] else []) + (if bits / 2 % 2 == 1 then [1] else []) + (if bits / 4 % 2 == 1 then [2] else [])
    + (if bits / 8 % 2 == 1 then [3] else []) + (if bits / 0x10 % 2 == 1 then [4] else [])
  }

  /** An indexed load from a register, without write-back. */
  predicate IsIndexed(op: nat, shift: nat) {
    && BitP(op) == 1 && BitW(op) == 0
    && if op / 0x20 == 3 then op % 2 == 1 && shift % 2 == 0
       else op / 0x20 == 0 && BitB(op) == 0 && ((op % 2 == 0 && shift == 0xD) || (op % 2 == 1 && shift in {0xB, 0xD, 0xF}))
  }

  /** By the fields of A32Rewrite: operation, Rn, Rd, bits 11 to 4, bits 3 to 0. */
  function DecodeFields(op: nat, rn: nat, rd: nat, shift: nat, rm: nat): Instr {
    var list := rd % 8 * 0x1000 + shift * 0x10 + rm;
    if op == 0x28 && rn == 15 && shift < 0x10 then AdrPc(rd, shift * 0x10 + rm)
    else if op == 0x59 && rn == 15 then LdrPc(rd, shift * 0x10 + rm)
    else if op == 0x51 && rn == 15 then LdrPc(rd, -(shift * 0x10 + rm))
    else if op == 0x51 && rn == 13 then LdrSp(rd, -(shift * 0x10 + rm))
    else if op == 0x59 && shift == 0 && rm == 0 then Load(C.W, rd, rn)
    else if op == 0x5D && shift == 0 && rm == 0 then Load(C.UB, rd, rn)
    else if op == 0x1C && shift == 0xD && rm == 0 then Load(C.D, rd, rn)
    else if op == 0x1D && shift == 0xB && rm == 0 then Load(C.UH, rd, rn)
    else if op == 0x1D && shift == 0xD && rm == 0 then Load(C.SB, rd, rn)
    else if op == 0x1D && shift == 0xF && rm == 0 then Load(C.SH, rd, rn)
    else if IsIndexed(op, shift) then LoadIndex(op, rd, rn, rm, shift)
    else if op / 2 in {2, 4, 0x0D} && shift % 2 == 0 then Alu(op, rd, rn, rm, shift)
    else if op == 0x52 && rn == 13 && shift == 0 && rm == 4 then Push(rd)
    else if op == 0x49 && rn == 13 && shift == 0 && rm == 4 then Pop(rd)
    else if op == 0x58 && rn == 13 && shift == 0 then StrSp(rd, rm)
    else if op == 0x12 && rn == 15 && rd == 15 && shift == 0xF3 then Blx(rm)
    else if op == 0x92 && rn == 13 && list < 0x20 then PushAll(Registers(list), rd / 8 == 1)
    else if op == 0x8B && rn == 13 && list < 0x20 then PopAll(Registers(list), rd / 8 == 1)
    else Unknown
  }

  function Decode(w: Word32): (i: Instr)
    ensures Fits(i)
  {
    if Op(w) / 0x10 == 0xA then Branch(4 * SignExtend(w % 0x100_0000, 0x100_0000))
    else
      var i := DecodeFields(Op(w), Rn(w), Rd(w), Shift(w), Rm(w));
      if Fits(i) then i else Unknown
  }

  datatype Cpu = At(pc: Word32, core: C.Machine) | Gone(dest: Word32, core: C.Machine)

  /** What an instruction does that this processor does not decode; PC plays no part in it. */
  type Sem = (Word32, C.Machine) -> Outcome<C.Rest>

  /** A register as an instruction reads it; PC is the address of the instruction plus eight. */
  function Reg(c: C.Machine, n: nat, pc: Word32): Word32
    requires n < 16
  {
    if n == 15 then pc else c.rest.r[n]
  }

  /** Stores two registers, and PC behind them; what the store of PC writes is up to the processor. */
  function Pushed(c: C.Machine, a: Word32, b: Word32, andPc: bool, pc: Word32): C.Machine {
    var sp := Wrap32(C.Sp(c) - if andPc then 12 else 8);
    var m := C.PutWord(C.PutWord(c.rest.mem, sp, a), sp + 4, b);
    C.SetReg(C.SetMem(c, if andPc then C.PutWord(m, sp + 8, pc) else m), C.SP, sp)
  }

  function Other(sem: Sem, w: Word32, c: C.Machine): (o: Outcome<C.Rest>)
    ensures o.Taken? ==> o.addr < 0x1_0000_0000
  {
    match sem(w, c)
    case Next(t) => Next(t)
    case Taken(t, dest) => Taken(t, Wrap32(dest))
  }

  /** What `i`, which is the word w, does when PC reads as `pc`; a branch is not one of these. */
  function Effect(sem: Sem, w: Word32, i: Instr, pc: Word32, c: C.Machine): Outcome<C.Rest>
    requires Fits(i) && !i.Branch?
  {
    var r, m, sp := c.rest.r, c.rest.mem, C.Sp(c);
    match i
    case AdrPc(rd, imm) => Next(C.SetReg(c, rd, Wrap32(Align4(pc) + imm)))
    case LdrPc(rt, off) =>
      var x := C.WordFrom(m, Wrap32(Align4(pc) + off));
      if rt == 15 then Taken(c, x) else Next(C.SetReg(c, rt, x))
    case LdrSp(rt, off) => Next(C.SetReg(c, rt, C.WordFrom(m, Wrap32(sp + off))))
    case Load(access, rt, rn) => Next(C.LoadInto(c, access, rt, if access.D? then rt + 1 else 0, r[rn]))
    case LoadIndex(op, rt, rn, rm, shift) =>
      var access := IndexAccess(op, shift);
      Next(C.LoadInto(c, access, rt, if access.D? then rt + 1 else 0, Indexed(op, r[rn], r[rm], shift, c.flags)))
    case Alu(op, rd, rn, rm, shift) =>
      var (x, f) := Data(op, r[rn], Reg(c, rm, pc), shift, c.flags);
      Next(C.SetReg(c.(flags := f), rd, x))
    case Push(rt) => Next(C.SetReg(C.SetMem(c, C.PutWord(m, Wrap32(sp - 4), r[rt])), C.SP, Wrap32(sp - 4)))
    case Pop(rt) => Next(C.SetReg(C.SetReg(c, rt, C.WordFrom(m, sp)), C.SP, Wrap32(sp + 4)))
    case StrSp(rt, imm) => Next(C.SetMem(c, C.PutWord(m, sp + imm, r[rt])))
    case PushAll(list, andPc) => Next(Pushed(c, r[list[0]], r[list[1]], andPc, pc))
    case PopAll(list, _) =>
      var first := C.SetReg(c, list[0], C.WordFrom(m, sp));
      var both := if |list| == 2 then C.SetReg(first, list[1], C.WordFrom(m, sp + 4)) else first;
      Taken(C.SetReg(both, C.SP, Wrap32(sp + 4 * |list| + 4)), C.WordFrom(m, sp + 4 * |list|))
    case Blx(rm) => Taken(C.SetReg(c, C.LR, Wrap32(pc - 4)), r[rm])
    case Unknown => Other(sem, w, c)
  }

  /** Other than by a call, which returns behind itself. */
  predicate ReadsPc(i: Instr) {
    match i
    case Branch(_) | AdrPc(_, _) | LdrPc(_, _) => true
    case Alu(_, _, _, rm, _) => rm == 15
    case PushAll(_, andPc) => andPc
    case _ => false
  }

  lemma EffectWithoutPc(sem: Sem, w: Word32, i: Instr, pc: Word32, pc': Word32, c: C.Machine)
    requires Fits(i) && !ReadsPc(i) && !i.Blx?
    ensures Effect(sem, w, i, pc, c) == Effect(sem, w, i, pc', c)
  {
    hide Data, Indexed, C.LoadInto, C.WordFrom, C.PutWord;
  }

  /** Where the processor is after that. */
  function After(o: Outcome<C.Rest>, next: Word32): Cpu {
    match o
    case Next(t) => At(next, t)
    case Taken(t, dest) => Gone(Wrap32(dest), t)
  }

  function Execute(sem: Sem, w: Word32, p: Word32, c: C.Machine): Cpu {
    match Decode(w)
    case Branch(off) => At(Wrap32(Wrap32(p + 8) + off), c)
    case i => After(Effect(sem, w, i, Wrap32(p + 8), c), Wrap32(p + 4))
  }

  /** An instruction without a condition is none that this processor decodes. */
  function Step(sem: Sem, s: Cpu): Cpu {
    if !s.At? then s
    else
      var w := C.WordFrom(s.core.rest.mem, s.pc);
      if Cond(w) == 15 then After(Other(sem, w, s.core), Wrap32(s.pc + 4))
      else if CondHolds(Cond(w), s.core.flags) then Execute(sem, w, s.pc, s.core)
      else At(Wrap32(s.pc + 4), s.core)
  }

  function Run(sem: Sem, s: Cpu, n: nat): Cpu
    decreases n
  {
    if n == 0 then s else Run(sem, Step(sem, s), n - 1)
  }

  ghost predicate Reaches(sem: Sem, s: Cpu, t: Cpu) {
    exists n: nat :: Run(sem, s, n) == t
  }

  lemma {:induction false} OneMore(sem: Sem, s: Cpu, n: nat)
    ensures Run(sem, s, n + 1) == Step(sem, Run(sem, s, n))
    decreases n
  {
    hide Step;
    if n > 0 {
      OneMore(sem, Step(sem, s), n - 1);
    }
  }

  lemma ReachesSelf(sem: Sem, s: Cpu)
    ensures Reaches(sem, s, s)
  {
    assert Run(sem, s, 0) == s;
  }

  lemma Onward(sem: Sem, s: Cpu, t: Cpu)
    requires Reaches(sem, s, t)
    ensures Reaches(sem, s, Step(sem, t))
  {
    hide Step;
    var n: nat :| Run(sem, s, n) == t;
    OneMore(sem, s, n);
  }

  lemma {:induction false} RunAppend(sem: Sem, s: Cpu, n: nat, m: nat)
    ensures Run(sem, s, n + m) == Run(sem, Run(sem, s, n), m)
    decreases n
  {
    hide Step;
    if n > 0 {
      RunAppend(sem, Step(sem, s), n - 1, m);
    }
  }

  lemma ReachesOn(sem: Sem, s: Cpu, t: Cpu, u: Cpu)
    requires Reaches(sem, s, t) && Reaches(sem, t, u)
    ensures Reaches(sem, s, u)
  {
    hide Step;
    var n: nat :| Run(sem, s, n) == t;
    var m: nat :| Run(sem, t, m) == u;
    RunAppend(sem, s, n, m);
  }

  predicate CodeAt(m: C.Ram, p: int, words: seq<Word32>) {
    forall i | 0 <= i < |words| :: C.WordFrom(m, p + 4 * i) == words[i]
  }

  lemma Executes(sem: Sem, s: Cpu, p: Word32, words: seq<Word32>, i: nat, c: C.Machine)
    requires CodeAt(c.rest.mem, p, words) && i < |words| && p + 4 * i < CODE_END && Cond(words[i]) != 15
    requires Reaches(sem, s, At(p + 4 * i, c))
    ensures Reaches(sem, s, if CondHolds(Cond(words[i]), c.flags) then Execute(sem, words[i], p + 4 * i, c)
                       else At(p + 4 * (i + 1), c))
  {
    hide Execute, Decode, CondHolds, C.WordFrom, Cond;
    Onward(sem, s, At(p + 4 * i, c));
  }

  // Decoding what is emitted.

  lemma FieldsOf(cond: nat, op: nat, rn: nat, rd: nat, shift: nat, rm: nat)
    requires cond < 16 && op < 256 && rn < 16 && rd < 16 && shift < 256 && rm < 16
    ensures var w := Compose(cond, op, rn, rd, shift, rm);
            Cond(w) == cond && Op(w) == op && Rn(w) == rn && Rd(w) == rd && Shift(w) == shift && Rm(w) == rm
  {
    var w := Compose(cond, op, rn, rd, shift, rm);
    var a := w / 0x10;
    var b := a / 0x100;
    var d := b / 0x10;
    var e := d / 0x10;
    assert a == cond * 0x100_0000 + op * 0x1_0000 + rn * 0x1000 + rd * 0x100 + shift;
    assert b == cond * 0x1_0000 + op * 0x100 + rn * 0x10 + rd && b == w / 0x1000;
    assert d == cond * 0x1000 + op * 0x10 + rn && d == w / 0x1_0000;
    assert e == cond * 0x100 + op && e == w / 0x10_0000;
    assert e / 0x100 == w / 0x1000_0000;
  }

  lemma DecodeSkip(cond: nat, n: nat)
    requires cond < 15 && n < 0x80
    ensures var w := cond * 0x1000_0000 + 0x0A00_0000 + n; Cond(w) == cond && Decode(w) == Branch(4 * n)
  {
    hide Cond, Op, Rn, Rd, Shift, Rm;
    var w := cond * 0x1000_0000 + 0x0A00_0000 + n;
    assert w == Compose(cond, 0xA0, 0, 0, n / 0x10, n % 0x10);
    FieldsOf(cond, 0xA0, 0, 0, n / 0x10, n % 0x10);
    LowPart(16 * cond + 0xA, n);
  }

  lemma LowPart(high: nat, n: nat)
    requires n < 0x80
    ensures (0x100_0000 * high + n) % 0x100_0000 == n
  {
  }

  lemma DecodeLdrPc(cond: nat, rt: nat)
    requires cond < 15 && rt < 16
    ensures var w := cond * 0x1000_0000 + 0x059F_0000 + rt * 0x1000; Cond(w) == cond && Decode(w) == LdrPc(rt, 0)
  {
    hide Cond, Op, Rn, Rd, Shift, Rm;
    assert cond * 0x1000_0000 + 0x059F_0000 + rt * 0x1000 == Compose(cond, 0x59, 15, rt, 0, 0);
    FieldsOf(cond, 0x59, 15, rt, 0, 0);
  }

  lemma DecodeAdrLr(cond: nat)
    requires cond < 15
    ensures var w := cond * 0x1000_0000 + 0x028F_E008; Cond(w) == cond && Decode(w) == AdrPc(C.LR, 8)
  {
    hide Cond, Op, Rn, Rd, Shift, Rm;
    assert cond * 0x1000_0000 + 0x028F_E008 == Compose(cond, 0x28, 15, 14, 0, 8);
    FieldsOf(cond, 0x28, 15, 14, 0, 8);
  }

  function AccessOf(t: Type): C.Access {
    match t
    case LDRB_LIT_A1 | LDRB_REG_A1 => C.UB
    case LDRD_LIT_A1 | LDRD_REG_A1 => C.D
    case LDRH_LIT_A1 | LDRH_REG_A1 => C.UH
    case LDRSB_LIT_A1 | LDRSB_REG_A1 => C.SB
    case LDRSH_LIT_A1 | LDRSH_REG_A1 => C.SH
    case _ => C.W
  }

  lemma DecodeThrough(t: Type, rt: nat)
    requires IsLoad(t) && rt < (if AccessOf(t).D? then 14 else 15)
    ensures Cond(LoadThrough(t, rt)) == 14 && Decode(LoadThrough(t, rt)) == Load(AccessOf(t), rt, rt)
  {
    hide Cond, Op, Rn, Rd, Shift, Rm;
    match AccessOf(t)
    case W => FieldsOf(14, 0x59, rt, rt, 0, 0);
    case UB => FieldsOf(14, 0x5D, rt, rt, 0, 0);
    case D => FieldsOf(14, 0x1C, rt, rt, 0xD, 0);
    case UH => FieldsOf(14, 0x1D, rt, rt, 0xB, 0);
    case SB => FieldsOf(14, 0x1D, rt, rt, 0xD, 0);
    case SH => FieldsOf(14, 0x1D, rt, rt, 0xF, 0);
  }

  // LDR<c> Rt, [PC]; B #0; <addr>: word i on.

  lemma LdrExecutes(sem: Sem, w: Word32, p: Word32, rt: nat, off: int, c: C.Machine)
    requires Decode(w) == LdrPc(rt, off) && p + 8 < 0x1_0000_0000
    ensures rt < 16
    ensures var x := C.WordFrom(c.rest.mem, Wrap32(Align4(p + 8) + off));
            Execute(sem, w, p, c) == if rt == 15 then Gone(x, c) else At(p + 4, C.SetReg(c, rt, x))
  {
    hide Decode, C.WordFrom, Align4;
  }

  lemma LdrSpExecutes(sem: Sem, w: Word32, p: Word32, rt: nat, off: int, c: C.Machine)
    requires Decode(w) == LdrSp(rt, off) && p + 4 < 0x1_0000_0000
    ensures rt < 13
    ensures Execute(sem, w, p, c) == At(p + 4, C.SetReg(c, rt, C.WordFrom(c.rest.mem, Wrap32(C.Sp(c) + off))))
  {
    hide Decode, C.WordFrom;
  }

  lemma BranchExecutes(sem: Sem, w: Word32, p: Word32, off: int, c: C.Machine)
    requires Decode(w) == Branch(off) && 0 <= p + 8 + off < 0x1_0000_0000 && p + 8 < 0x1_0000_0000
    ensures Execute(sem, w, p, c) == At(p + 8 + off, c)
  {
    hide Decode;
  }

  lemma LoadAddrRuns(sem: Sem, s: Cpu, p: Word32, words: seq<Word32>, i: nat, cond: nat, rt: nat, addr: Word32, c: C.Machine)
    requires CodeAt(c.rest.mem, p, words) && p % 4 == 0 && p + 4 * |words| < CODE_END && i + 3 <= |words|
    requires cond < 15 && rt < 16 && words[i..i + 3] == LoadAddr(cond, rt, addr) && Reaches(sem, s, At(p + 4 * i, c))
    ensures Reaches(sem, s, if !CondHolds(cond, c.flags) then At(p + 4 * (i + 3), c)
                            else if rt == 15 then Gone(addr, c)
                            else At(p + 4 * (i + 3), C.SetReg(c, rt, addr)))
  {
    hide CodeAt, Reaches, CondHolds, C.WordFrom, Cond, Decode, Execute;
    assert words[i] == words[i..i + 3][0] && words[i + 1] == words[i..i + 3][1] && words[i + 2] == words[i..i + 3][2];
    DecodeLdrPc(cond, rt);
    DecodeSkip(14, 0);
    WordOf(c.rest.mem, p, words, i + 2);
    assert Align4(p + 4 * i + 8) == p + 4 * (i + 2);
    Executes(sem, s, p, words, i, c);
    AlwaysHolds(c.flags);
    var next := p + 4 * (i + 1);
    if !CondHolds(cond, c.flags) {
      BranchExecutes(sem, words[i + 1], next, 0, c);
      Executes(sem, s, p, words, i + 1, c);
    } else {
      LdrExecutes(sem, words[i], p + 4 * i, rt, 0, c);
      if rt < 15 {
        BranchExecutes(sem, words[i + 1], next, 0, C.SetReg(c, rt, addr));
        Executes(sem, s, p, words, i + 1, C.SetReg(c, rt, addr));
      }
    }
  }

  lemma WordOf(m: C.Ram, p: int, words: seq<Word32>, i: nat)
    requires CodeAt(m, p, words) && i < |words|
    ensures C.WordFrom(m, p + 4 * i) == words[i]
  {
    hide C.WordFrom;
  }

  lemma AlwaysHolds(f: Flags)
    ensures CondHolds(14, f)
  {
  }

  // The instructions that are moved. PC reads as their address plus eight.

  predicate IsLoad(t: Type) {
    t in {LDR_LIT_A1, LDRB_LIT_A1, LDRD_LIT_A1, LDRH_LIT_A1, LDRSB_LIT_A1, LDRSH_LIT_A1}
  }

  predicate IsIndexLoad(t: Type) {
    t in {LDR_REG_A1, LDRB_REG_A1, LDRD_REG_A1, LDRH_REG_A1, LDRSB_REG_A1, LDRSH_REG_A1}
  }

  predicate IsBranch(t: Type) {
    t in {B_A1, BX_A1, BL_IMM_A1, BLX_IMM_A2}
  }

  predicate IsData(t: Type) {
    t in {ADD_REG_A1, SUB_REG_A1, MOV_REG_A1}
  }

  /** ADD and SUB of SP and PC, which the classifier overlooks. */
  predicate Overlooked(w: Word32) {
    Cond(w) < 15 && Op(w) / 2 in {2, 4} && Rn(w) == 13 && Rm(w) == 15 && Rd(w) < 15 && Shift(w) % 2 == 0
  }

  /** What the architecture defines: no PC where it is unpredictable, and no write-back to PC. Of what is not rewritten, only
      the additions and subtractions above may read PC. */
  predicate Known(w: Word32) {
    var t := GetType(w);
    && (t.IGNORED? ==> Cond(w) == 15 || !ReadsPc(Decode(w)) || Overlooked(w))
    && (IsLoad(t) || IsIndexLoad(t) ==> Rd(w) < if t.LDRD_LIT_A1? || t.LDRD_REG_A1? then 14 else 15)
    && (IsIndexLoad(t) || t.LDR_REG_PC_A1? ==> Rm(w) != 15 && BitP(Op(w)) == 1 && BitW(Op(w)) == 0)
  }

  /** BLX is unconditional. */
  predicate Holds(w: Word32, c: C.Machine) {
    GetType(w).BLX_IMM_A2? || CondHolds(Cond(w), c.flags)
  }

  function DataOf(w: Word32, pc: Word32, c: C.Machine): (Word32, Flags) {
    Data(Op(w), Reg(c, Rn(w), pc), Reg(c, Rm(w), pc), Shift(w), c.flags)
  }

  function IndexedOf(w: Word32, pc: Word32, c: C.Machine): Word32 {
    Indexed(Op(w), Reg(c, Rn(w), pc), Reg(c, Rm(w), pc), Shift(w), c.flags)
  }

  lemma DecodeOverlooked(w: Word32)
    requires Overlooked(w)
    ensures Decode(w) == Alu(Op(w), Rd(w), 13, 15, Shift(w))
  {
    hide Cond, Op, Rn, Rd, Shift, Rm, Registers;
  }

  lemma OverlookedIsNoBranch(w: Word32)
    ensures Overlooked(w) ==> !Decode(w).Branch?
  {
    if Overlooked(w) {
      DecodeOverlooked(w);
    }
  }

  function Exec(sem: Sem, w: Word32, pc: Word32, c: C.Machine): Outcome<C.Rest>
    requires Known(w)
  {
    OverlookedIsNoBranch(w);
    var t := GetType(w);
    var off := SignExtend(w % 0x100_0000, 0x100_0000);
    var second := if t.LDRD_LIT_A1? || t.LDRD_REG_A1? then Rd(w) + 1 else 0;
    if !Holds(w, c) then Next(c)
    else
      match t
      case IGNORED => if Cond(w) == 15 then Other(sem, w, c) else Effect(sem, w, Decode(w), pc, c)
      case B_A1 => Taken(c, Wrap32(pc + 4 * off))
      case BX_A1 | MOV_REG_PC_A1 => Taken(c, pc)
      case BL_IMM_A1 => Taken(C.SetReg(c, C.LR, Wrap32(pc - 4)), Wrap32(pc + 4 * off))
      case BLX_IMM_A2 =>
        Taken(C.SetReg(c, C.LR, Wrap32(pc - 4)), SetBit0(Wrap32(pc + 4 * off + w / 0x100_0000 % 2 * 2)))
      case ADR_A1 | ADR_A2 =>
        var addr := AdrAddr(w, pc, t);
        if Rd(w) == 15 then Taken(c, addr) else Next(C.SetReg(c, Rd(w), addr))
      case ADD_REG_A1 | SUB_REG_A1 | MOV_REG_A1 =>
        var (x, f) := DataOf(w, pc, c);
        if Rd(w) == 15 then Taken(c, x) else Next(C.SetReg(c.(flags := f), Rd(w), x))
      case ADD_REG_PC_A1 | SUB_REG_PC_A1 => Taken(c, DataOf(w, pc, c).0)
      case LDR_LIT_A1 | LDRB_LIT_A1 | LDRD_LIT_A1 | LDRH_LIT_A1 | LDRSB_LIT_A1 | LDRSH_LIT_A1 =>
        Next(C.LoadInto(c, AccessOf(t), Rd(w), second, Literal(w, pc, t)))
      case LDR_LIT_PC_A1 => Taken(c, C.WordFrom(c.rest.mem, Literal(w, pc, t)))
      case LDR_REG_A1 | LDRB_REG_A1 | LDRD_REG_A1 | LDRH_REG_A1 | LDRSB_REG_A1 | LDRSH_REG_A1 =>
        Next(C.LoadInto(c, AccessOf(t), Rd(w), second, IndexedOf(w, pc, c)))
      case LDR_REG_PC_A1 => Taken(c, C.WordFrom(c.rest.mem, IndexedOf(w, pc, c)))
  }

  predicate Links(w: Word32) {
    GetType(w).BL_IMM_A1? || GetType(w).BLX_IMM_A2? || (GetType(w).IGNORED? && Cond(w) != 15 && Decode(w).Blx?)
  }

  /** Where the destination is computed or loaded; it is not subject to fix-up. */
  predicate Computes(t: Type) {
    t in {IGNORED, ADD_REG_PC_A1, SUB_REG_PC_A1, LDR_LIT_PC_A1, LDR_REG_PC_A1}
  }

  /** The bytes that an image may use below the stack pointer. */
  predicate InRed(sp: Word32, a: int) {
    sp - 12 <= a < sp
  }

  ghost predicate SameAbove(a: C.Machine, b: C.Machine, sp: Word32) {
    && a.flags == b.flags && a.rest.r == b.rest.r && a.rest.fp == b.rest.fp
    && forall x | !InRed(sp, x) :: a.rest.mem(x) == b.rest.mem(x)
  }

  predicate StackApart(sp: Word32, p: int, len: nat) {
    12 <= sp && (sp <= p || p + len <= sp - 12)
  }

  predicate IsDataPc(t: Type) {
    t in {ADD_REG_PC_A1, SUB_REG_PC_A1}
  }

  /** The instructions whose images keep registers on the stack for a while. */
  predicate Borrows(t: Type) {
    IsData(t) || IsDataPc(t) || IsIndexLoad(t) || t.LDR_REG_PC_A1? || t.LDR_LIT_PC_A1?
  }

  /** State `e` is `t`, but for the bytes that were borrowed. */
  ghost predicate Leaves(w: Word32, e: C.Machine, t: C.Machine, sp: Word32) {
    if Borrows(GetType(w)) then SameAbove(e, t, sp) else e == t
  }

  /** `e` is how the image of `len` bytes at p ends. A call returns behind the image. */
  ghost predicate Ends(sem: Sem, w: Word32, pc: Word32, info: Info, p: Word32, len: nat, c: C.Machine, e: C.Machine)
    requires Known(w) && p + len < CODE_END
  {
    match Exec(sem, w, pc, c)
    case Next(t) => Reaches(sem, At(p, c), At(p + len, e)) && Leaves(w, e, t, C.Sp(c))
    case Taken(t, dest) =>
      && dest < 0x1_0000_0000
      && Reaches(sem, At(p, c), Gone(if Computes(GetType(w)) then dest else FixAddr(dest, info), e))
      && Leaves(w, e, if Links(w) then C.SetReg(t, C.LR, p + len) else t, C.Sp(c))
  }

  lemma ImageCond(w: Word32)
    requires !GetType(w).IGNORED?
    ensures GetType(w).BLX_IMM_A2? || Cond(w) < 15
  {
    hide Op, Rn, Rd, Shift, Rm;
  }

  lemma StaysIfNot(sem: Sem, w: Word32, pc: Word32, c: C.Machine)
    requires Known(w)
    ensures !Holds(w, c) ==> Exec(sem, w, pc, c) == Next(c)
  {
    hide GetType, Cond;
  }
}
