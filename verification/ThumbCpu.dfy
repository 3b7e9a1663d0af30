/** A Thumb processor for the instructions that moved code is made of, and what the instructions mean that are moved
    (sections A6.7 and A8.8 of the Arm Architecture Reference Manual, DDI 0406).

    Halfwords are decoded by quotients and remainders, independently of the masks in ThumbRewrite. */
module ThumbCpu {
  import opened Words
  import opened ThumbRewrite
  import opened ThumbArms

  type Byte = b: int | 0 <= b < 0x100

  type Ram = int -> Byte

  // Everything but the flags: R0 to R14, the floating-point words (S0 to S31, then the upper D registers), memory.
  datatype Rest = Rest(r: Regs, fp: FpRegs, mem: Ram)

  type Regs = s: seq<Word32> | |s| == 15 witness seq(15, _ => 0)

  type FpRegs = s: seq<Word32> | |s| == 64 witness seq(64, _ => 0)

  type Machine = Core<Rest>

  const SP := 13
  const LR := 14

  function HalfAt(m: Ram, a: int): Half {
    m(a) + 0x100 * m(a + 1)
  }

  function WordFrom(m: Ram, a: int): Word32 {
    HalfAt(m, a) + 0x1_0000 * HalfAt(m, a + 2)
  }

  function PutWord(m: Ram, a: int, w: Word32): Ram {
    x => if x == a then w % 0x100
         else if x == a + 1 then w / 0x100 % 0x100
         else if x == a + 2 then w / 0x1_0000 % 0x100
         else if x == a + 3 then w / 0x100_0000
         else m(x)
  }

  function Sum32(a: int, b: int): Word32 {
    Wrap32(a + b)
  }

  function SetReg(c: Machine, i: nat, w: Word32): Machine
    requires i < 15
  {
    c.(rest := c.rest.(r := c.rest.r[i := w]))
  }

  function SetMem(c: Machine, m: Ram): Machine {
    c.(rest := c.rest.(mem := m))
  }

  function Sp(c: Machine): Word32 {
    c.rest.r[SP]
  }

  datatype Access = W | UB | UH | SB | SH | D

  function LoadValue(m: Ram, a: int, access: Access): Word32 {
    match access
    case W | D => WordFrom(m, a)
    case UB => m(a)
    case UH => HalfAt(m, a)
    case SB => Wrap32(SignExtend(m(a), 0x100))
    case SH => Wrap32(SignExtend(HalfAt(m, a), 0x1_0000))
  }

  /** Loads Rt, and Rt2 when the access is double. */
  function LoadInto(c: Machine, access: Access, rt: nat, rt2: nat, a: int): Machine
    requires rt < 15 && rt2 < 15
  {
    var loaded := SetReg(c, rt, LoadValue(c.rest.mem, a, access));
    if access.D? then SetReg(loaded, rt2, WordFrom(c.rest.mem, a + 4)) else loaded
  }

  /** VLDR of a half (size 1), single (2) or double (3) register; `vd` and `d` are the fields of those names. */
  function LoadFp(c: Machine, size: nat, d: nat, vd: nat, a: int): Machine
    requires 1 <= size <= 3 && d < 2 && vd < 16
  {
    var fp, m := c.rest.fp, c.rest.mem;
    var loaded :=
      if size == 1 then fp[2 * vd + d := HalfAt(m, a)]
      else if size == 2 then fp[2 * vd + d := WordFrom(m, a)]
      else fp[32 * d + 2 * vd := WordFrom(m, a)][32 * d + 2 * vd + 1 := WordFrom(m, a + 4)];
    c.(rest := c.rest.(fp := loaded))
  }

  // The processor.

  datatype Op =
    | Nop
    | B(off: int)
    | BCond(cond: nat, off: int)
    | Cb(rn: nat, ifZero: bool, off: int)
    | LdrPc(rt: nat, imm: nat)  // LDR Rt, [PC, #imm]; Rt may be PC
    | AdrPc(rd: nat, imm: nat)
    | LdrBelow(rt: nat, imm: nat)  // LDR Rt, [SP, #-imm]
    | Load(access: Access, rt: nat, rt2: nat, rn: nat)
    | Vldr(size: nat, d: nat, vd: nat, rn: nat)
    | Preload
    | AddReg(rdn: nat, rm: nat)
    | Push(list: seq<nat>)
    | Pop(list: seq<nat>, andPc: bool)
    | StrSp(rt: nat, imm: nat)
    | Blx(rm: nat)
    | PushPair(a: nat, b: nat)  // PUSH {Ra, Rb, LR}
    | PopPair(a: nat, b: nat)   // POP {Ra, Rb, PC}
    | AddShift(rd: nat, rn: nat, rm: nat, n: nat)  // ADD Rd, Rn, Rm, LSL #n
    | Unknown

  predicate Fits(op: Op) {
    match op
    case BCond(cond, _) => cond < 14
    case Cb(rn, _, _) => rn < 8
    case LdrPc(rt, _) => rt < 16
    case AdrPc(rd, _) => rd < 15
    case LdrBelow(rt, _) => rt < 13
    case Load(_, rt, rt2, rn) => rt < 15 && rt2 < 15 && rn < 15
    case Vldr(size, d, vd, rn) => 1 <= size <= 3 && d < 2 && vd < 16 && rn < 15
    case AddReg(rdn, rm) => rdn < 15 && rm < 15
    case Push(list) => list in {[0], [1], [0, 1]}
    case Pop(list, _) => list in {[0], [1]}
    case StrSp(rt, _) => rt < 8
    case Blx(rm) => rm < 15
    case PushPair(a, b) => a < b < 8
    case PopPair(a, b) => a < b < 8
    case AddShift(rd, rn, rm, n) => rd < 15 && rn < 15 && rm < 15 && n < 2
    case _ => true
  }

  function OrUnknown(op: Op): (fit: Op)
    ensures Fits(fit)
  {
    if Fits(op) then op else Unknown
  }

  function Bit(k: nat): (bit: nat)
    ensures bit > 0
  {
    if k == 0 then 1 else 2 * Bit(k - 1)
  }

  /** The one bit of a number. */
  function OneBit(n: nat): (ks: seq<nat>)
    ensures |ks| <= 1
  {
    if n == 1 then [0]
    else if n == 0 || n % 2 == 1 then []
    else
      var ks := OneBit(n / 2);
      if ks == [] then [] else [ks[0] + 1]
  }

  /** The two bits of a number, the lower one first. */
  function TwoBits(n: nat): (ks: seq<nat>)
    ensures |ks| == 0 || |ks| == 2
  {
    if n == 0 then []
    else if n % 2 == 1 then
      var ks := OneBit(n / 2);
      if ks == [] then [] else [0, ks[0] + 1]
    else
      var ks := TwoBits(n / 2);
      if ks == [] then [] else [ks[0] + 1, ks[1] + 1]
  }

  /** A 16-bit instruction, by its upper and its lower byte. */
  function DecodeBytes(t: nat, b: nat): Op {
    if t == 0xBF && b == 0 then Nop
    else if t / 0x10 == 0xD then BCond(t % 0x10, SignExtend(b * 2, 0x200))
    else if t / 8 == 0x1C then B(SignExtend((t % 8 * 0x100 + b) * 2, 0x1000))
    else if t == 0xB1 || t == 0xB3 then Cb(b % 8, true, (t - 0xB1) * 0x20 + b / 8 * 2)
    else if t == 0xB9 || t == 0xBB then Cb(b % 8, false, (t - 0xB9) * 0x20 + b / 8 * 2)
    else if t / 8 == 9 then LdrPc(t % 8, b * 4)
    else if t == 0x44 then AddReg(b / 0x80 * 8 + b % 8, b / 8 % 16)
    else if t == 0x47 && b >= 0x80 && b % 8 == 0 then Blx(b / 8 % 16)
    else if t == 0x68 && b < 0x40 then Load(W, b % 8, 0, b / 8)
    else if t == 0x78 && b < 0x40 then Load(UB, b % 8, 0, b / 8)
    else if t == 0x88 && b < 0x40 then Load(UH, b % 8, 0, b / 8)
    else if t / 8 == 0x12 then StrSp(t % 8, b * 4)
    else if t == 0xB4 && b in {1, 2, 3} then Push(if b == 3 then [0, 1] else [b - 1])
    else if t == 0xBC && b in {1, 2} then Pop([b - 1], false)
    else if t == 0xBD && b == 1 then Pop([0], true)
    else if t == 0xB5 && TwoBits(b) != [] then PushPair(TwoBits(b)[0], TwoBits(b)[1])
    else if t == 0xBD && TwoBits(b) != [] then PopPair(TwoBits(b)[0], TwoBits(b)[1])
    else Unknown
  }

  function Decode16(h: Half): (op: Op)
    ensures Fits(op)
  {
    OrUnknown(DecodeBytes(h / 0x100, h % 0x100))
  }

  /** A 32-bit instruction, by the two parts of its first halfword (a register in the lower one) and of its second one
      (a register in the upper one). Immediate offsets that are not relative to PC must be zero. */
  function DecodeParts(t: nat, rn: nat, rt: nat, rest: nat): Op {
    if t == 0xF8D && rn == 0xF then LdrPc(rt, rest)
    else if t == 0xF85 && rn == 0xD && rest / 0x100 == 0xC then LdrBelow(rt, rest % 0x100)
    else if t == 0xF20 && rn == 0xF && rt < 8 then AdrPc(rest / 0x100, rt * 0x100 + rest % 0x100)
    else if (t == 0xF89 || t == 0xF99) && rt == 0xF && rest == 0 then Preload
    else if t == 0xF8D && rest == 0 then Load(W, rt, 0, rn)
    else if t == 0xF89 && rest == 0 then Load(UB, rt, 0, rn)
    else if t == 0xF8B && rest == 0 then Load(UH, rt, 0, rn)
    else if t == 0xF99 && rest == 0 then Load(SB, rt, 0, rn)
    else if t == 0xF9B && rest == 0 then Load(SH, rt, 0, rn)
    else if t == 0xEB0 && rt == 0 && rest % 0x40 < 0x10 then AddShift(rest / 0x100, rn, rest % 0x10, rest % 0x100 / 0x40)
    else if t == 0xE9D && rest % 0x100 == 0 then Load(D, rt, rest / 0x100, rn)
    else if (t == 0xED9 || t == 0xEDD) && rest / 0x400 == 2 && rest % 0x100 == 0 then
      Vldr(rest / 0x100 % 4, (t - 0xED9) / 4, rt, rn)
    else Unknown
  }

  function Decode32(h: Half, l: Half): (op: Op)
    ensures Fits(op)
  {
    OrUnknown(DecodeParts(h / 0x10, h % 0x10, l / 0x1000, l % 0x1000))
  }

  lemma Decodes16(t: nat, b: nat)
    requires t < 0xE8 && b < 0x100
    ensures Decode16(0x100 * t + b) == OrUnknown(DecodeBytes(t, b)) && !IsThumb32(0x100 * t + b)
  {
    hide DecodeBytes;
  }

  lemma Decodes32(t: nat, rn: nat, rt: nat, rest: nat)
    requires 0xE80 <= t < 0x1000 && rn < 16 && rt < 16 && rest < 0x1000
    ensures var h, l := 0x10 * t + rn, 0x1000 * rt + rest;
            Decode32(h, l) == OrUnknown(DecodeParts(t, rn, rt, rest)) && IsThumb32(h)
  {
    hide DecodeParts;
  }

  /** In the code, at an even address; or left by writing PC, with bit 0 telling Thumb from Arm. */
  datatype Cpu = At(pc: Word32, core: Machine) | Gone(dest: Word32, core: Machine)

  /** What an instruction does, outside IT blocks, that this processor does not decode; PC plays no part in it. */
  type Sem = (Instr, Machine) -> Outcome<Rest>

  function Other(sem: Sem, i: Instr, c: Machine): (o: Outcome<Rest>)
    ensures o.Taken? ==> o.addr < 0x1_0000_0000
  {
    match sem(i, c)
    case Next(t) => Next(t)
    case Taken(t, dest) => Taken(t, Wrap32(dest))
  }

  predicate UsesPc(op: Op) {
    op.B? || op.BCond? || op.Cb? || op.LdrPc? || op.AdrPc?
  }

  /** What the instruction i does, decoded as `op`, when its successor is at `next`; only a call uses that address. */
  function Effect(sem: Sem, i: Instr, op: Op, next: Word32, c: Machine): (o: Outcome<Rest>)
    requires Fits(op) && !UsesPc(op)
    ensures o.Taken? ==> o.addr < 0x1_0000_0000
  {
    var r, m := c.rest.r, c.rest.mem;
    match op
    case Nop | Preload => Next(c)
    case LdrBelow(rt, imm) => Next(SetReg(c, rt, WordFrom(m, Wrap32(r[SP] - imm))))
    case Load(access, rt, rt2, rn) => Next(LoadInto(c, access, rt, rt2, r[rn]))
    case Vldr(size, d, vd, rn) => Next(LoadFp(c, size, d, vd, r[rn]))
    case AddReg(rdn, rm) => Next(SetReg(c, rdn, Sum32(r[rdn], r[rm])))
    case Push(list) =>
      var sp := Wrap32(r[SP] - 4 * |list|);
      var first := PutWord(m, sp, r[list[0]]);
      Next(SetReg(SetMem(c, if |list| == 2 then PutWord(first, sp + 4, r[list[1]]) else first), SP, sp))
    case Pop(list, andPc) =>
      var popped := SetReg(SetReg(c, list[0], WordFrom(m, r[SP])), SP, Sum32(r[SP], if andPc then 8 else 4));
      if andPc then Taken(popped, WordFrom(m, Sum32(r[SP], 4))) else Next(popped)
    case StrSp(rt, imm) => Next(SetMem(c, PutWord(m, r[SP] + imm, r[rt])))
    case Blx(rm) => Taken(SetReg(c, LR, SetBit0(next)), r[rm])
    case PushPair(a, b) =>
      var sp: int := Sum32(r[SP], -12);
      Next(SetReg(SetMem(c, PutWord(PutWord(PutWord(m, sp, r[a]), sp + 4, r[b]), sp + 8, r[LR])), SP, sp))
    case PopPair(a, b) =>
      var sp: int := r[SP];
      var both := SetReg(SetReg(c, a, WordFrom(m, sp)), b, WordFrom(m, sp + 4));
      Taken(SetReg(both, SP, Sum32(sp, 12)), WordFrom(m, sp + 8))
    case AddShift(rd, rn, rm, n) => Next(SetReg(c, rd, Sum32(r[rn], if n == 1 then Sum32(r[rm], r[rm]) else r[rm])))
    case Unknown => Other(sem, i, c)
  }

  function After(o: Outcome<Rest>, next: Word32): Cpu {
    match o
    case Next(t) => At(next, t)
    case Taken(t, dest) => Gone(Wrap32(dest), t)
  }

  /** Executes i, found at p and decoded as `op`, whose successor is at `next`. */
  function Execute(sem: Sem, i: Instr, op: Op, p: Word32, next: Word32, c: Machine): Cpu
    requires Fits(op)
  {
    var pc := Wrap32(p + 4);
    var r, m := c.rest.r, c.rest.mem;
    match op
    case B(off) => At(Wrap32(pc + off), c)
    case BCond(cond, off) => At(if CondHolds(cond, c.flags) then Wrap32(pc + off) else next, c)
    case Cb(rn, ifZero, off) => At(if (r[rn] == 0) == ifZero then Wrap32(pc + off) else next, c)
    case LdrPc(rt, imm) =>
      var w := WordFrom(m, Wrap32(Align4(pc) + imm));
      if rt == 15 then Gone(w, c) else At(next, SetReg(c, rt, w))
    case AdrPc(rd, imm) => At(next, SetReg(c, rd, Wrap32(Align4(pc) + imm)))
    case _ => After(Effect(sem, i, op, next, c), next)
  }

  function Step(sem: Sem, s: Cpu): Cpu {
    if !s.At? then s
    else
      var h, l := HalfAt(s.core.rest.mem, s.pc), HalfAt(s.core.rest.mem, s.pc + 2);
      if IsThumb32(h) then Execute(sem, T32(h, l), Decode32(h, l), s.pc, Wrap32(s.pc + 4), s.core)
      else Execute(sem, T16(h), Decode16(h), s.pc, Wrap32(s.pc + 2), s.core)
  }

  function Run(sem: Sem, s: Cpu, n: nat): Cpu
    decreases n
  {
    if n == 0 then s else Run(sem, Step(sem, s), n - 1)
  }

  predicate CodeAt(m: Ram, p: int, words: seq<Half>) {
    forall i | 0 <= i < |words| :: HalfAt(m, p + 2 * i) == words[i]
  }

  // The instructions that are moved. PC reads as their address plus four.

  function Literal32(high: Half, pc: Word32, imm: nat): Word32 {
    Wrap32(if high / 0x80 % 2 == 1 then Align4(pc) + imm else Align4(pc) - imm)
  }

  /** S:I1:I2:imm10:imm11 of a far branch, as an offset in halfwords; I1 and I2 are J1 and J2, negated when S is clear. */
  function FarOffset(high: Half, low: Half): int {
    var s, j1, j2 := high / 0x400 % 2, low / 0x2000 % 2, low / 0x800 % 2;
    var i1, i2 := if s == 1 then j1 else 1 - j1, if s == 1 then j2 else 1 - j2;
    i1 * 0x40_0000 + i2 * 0x20_0000 + high % 0x400 * 0x800 + low % 0x800 - s * 0x80_0000
  }

  /** The offset of a conditional 32-bit branch, in halfwords. */
  function NearOffset(high: Half, low: Half): int {
    low / 0x800 % 2 * 0x4_0000 + low / 0x2000 % 2 * 0x2_0000 + high % 0x40 * 0x800 + low % 0x800 - high / 0x400 % 2 * 0x8_0000
  }

  /** A branch that stays in Thumb code. */
  function Thumb(c: Machine, addr: int): Outcome<Rest> {
    Taken(c, SetBit0(Wrap32(addr)))
  }

  function Exec16(sem: Sem, h: Half, pc: Word32, c: Machine): Outcome<Rest>
    requires Known(T16(h))
  {
    match T16TypeOf(h)
    case IGNORED16 => Effect(sem, T16(h), Decode16(h), Wrap32(pc - 2), c)
    case B_T1 =>
      if CondHolds(h / 0x100 % 0x10, c.flags) then Thumb(c, pc + 2 * SignExtend(h % 0x100, 0x100)) else Next(c)
    case B_T2 => Thumb(c, pc + 2 * SignExtend(h % 0x800, 0x800))
    case BX_T1 => Taken(c, pc)
    case ADD_REG_T2 =>
      var rdn := h / 0x80 % 2 * 8 + h % 8;
      Next(SetReg(c, rdn, Sum32(c.rest.r[rdn], pc)))
    case MOV_REG_T1 =>
      var rd := h / 0x80 % 2 * 8 + h % 8;
      if rd == 15 then Thumb(c, pc) else Next(SetReg(c, rd, pc))
    case ADR_T1 => Next(SetReg(c, h / 0x100 % 8, Wrap32(Align4(pc) + h % 0x100 * 4)))
    case LDR_LIT_T1 => Next(SetReg(c, h / 0x100 % 8, WordFrom(c.rest.mem, Wrap32(Align4(pc) + h % 0x100 * 4))))
    case CBZ_T1 | CBNZ_T1 =>
      if (c.rest.r[h % 8] == 0) == T16TypeOf(h).CBZ_T1? then Thumb(c, pc + 2 * (h / 0x200 % 2 * 0x20 + h / 8 % 0x20))
      else Next(c)
  }

  function AccessOf(t: T32Type): Access {
    match t
    case LDRB_LIT_T1 => UB
    case LDRH_LIT_T1 => UH
    case LDRSB_LIT_T1 => SB
    case LDRSH_LIT_T1 => SH
    case LDRD_LIT_T1 => D
    case _ => W
  }

  function Exec32(sem: Sem, h: Half, l: Half, pc: Word32, c: Machine): Outcome<Rest>
    requires Known(T32(h, l))
  {
    var t := T32TypeOf(h, l);
    match t
    case IGNORED32 => Effect(sem, T32(h, l), Decode32(h, l), pc, c)
    case B_T3 => if CondHolds(h / 0x40 % 0x10, c.flags) then Thumb(c, pc + 2 * NearOffset(h, l)) else Next(c)
    case B_T4 => Thumb(c, pc + 2 * FarOffset(h, l))
    case BL_IMM_T1 => Thumb(SetReg(c, LR, SetBit0(pc)), pc + 2 * FarOffset(h, l))
    case BLX_IMM_T2 => Taken(SetReg(c, LR, SetBit0(pc)), Wrap32(Align4(pc) + 2 * (FarOffset(h, l) - l % 2)))
    case ADR_T2 | ADR_T3 =>
      var imm := h / 0x400 % 2 * 0x800 + l / 0x1000 % 8 * 0x100 + l % 0x100;
      Next(SetReg(c, l / 0x100 % 0x10, Wrap32(if t.ADR_T3? then Align4(pc) + imm else Align4(pc) - imm)))
    case LDR_LIT_PC_T2 => Taken(c, WordFrom(c.rest.mem, Literal32(h, pc, l % 0x1000)))
    case LDRD_LIT_T1 => Next(LoadInto(c, D, l / 0x1000, l / 0x100 % 0x10, Literal32(h, pc, l % 0x100 * 4)))
    case PLD_LIT_T1 | PLI_LIT_T3 => Next(c)
    case VLDR_LIT_T1 =>
      var size := l / 0x100 % 4;
      Next(LoadFp(c, size, h / 0x40 % 2, l / 0x1000, Literal32(h, pc, l % 0x100 * if size == 1 then 2 else 4)))
    case LDR_LIT_T2 | LDRB_LIT_T1 | LDRH_LIT_T1 | LDRSB_LIT_T1 | LDRSH_LIT_T1 =>
      Next(LoadInto(c, AccessOf(t), l / 0x1000, 0, Literal32(h, pc, l % 0x1000)))
  }

  /** The instructions whose meaning is given here, within what the architecture defines (no SP or PC where they are
      unpredictable): all but table branches and IT, of which the former are in ThumbTable. What is not rewritten must not
      use PC. */
  predicate Known(i: Instr) {
    match i
    case T16(h) =>
      && !IsThumb32(h) && !T16TypeOf(h).IT_T1? && (T16TypeOf(h).IGNORED16? ==> !UsesPc(Decode16(h)))
      && (T16TypeOf(h).ADD_REG_T2? ==> h / 0x80 % 2 * 8 + h % 8 < 15)
    case T32(h, l) =>
      var t := T32TypeOf(h, l);
      && IsThumb32(h) && !t.TBB_T1? && !t.TBH_T1? && (t.IGNORED32? ==> !UsesPc(Decode32(h, l)))
      && (t.ADR_T2? || t.ADR_T3? ==> l / 0x100 % 0x10 < 15)
      && (t in {LDR_LIT_T2, LDRB_LIT_T1, LDRD_LIT_T1, LDRH_LIT_T1, LDRSB_LIT_T1, LDRSH_LIT_T1} ==> l / 0x1000 < 15)
      && (t.LDRD_LIT_T1? ==> l / 0x100 % 0x10 < 15)
      && (t.VLDR_LIT_T1? ==> l / 0x100 % 4 != 0)
  }

  function Exec(sem: Sem, i: Instr, pc: Word32, c: Machine): Outcome<Rest>
    requires Known(i)
  {
    match i case T16(h) => Exec16(sem, h, pc, c) case T32(h, l) => Exec32(sem, h, l, pc, c)
  }
}
