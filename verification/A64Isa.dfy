/** The part of the A64 instruction set that a relocated window can meet or that the
    rewriter emits (Arm Architecture Reference Manual, DDI 0487, section C6.2).

    Every word outside that part is `Other`: its effect is a parameter `sem` of the machine.
    No such word reads the program counter, except that a call writes its return address;
    both are kept out of `sem` by the Outcome type. */
module A64Isa {
  import opened Words

  datatype Flags = Flags(n: bool, z: bool, c: bool, v: bool)

  type Regs = s: seq<Word64> | |s| == 31 witness seq(31, i => 0)
  datatype Vector = Vector(w0: bv32, w1: bv32, w2: bv32, w3: bv32)
  type Vectors = s: seq<Vector> | |s| == 32 witness seq(32, i => Vector(0, 0, 0, 0))

  /** Everything but the program counter. */
  datatype Core = Core(x: Regs, sp: Word64, nzcv: Flags, v: Vectors, mem: Memory)

  datatype State = State(pc: Word64, core: Core)

  datatype Outcome =
    | Next(core: Core)
    | Jump(core: Core, target: Word64)
    | Call(core: Core, target: Word64)  // the return address is written by the step

  type Semantics = (bv32, Core) -> Outcome

  datatype Width = W32 | X64 | SW32
  datatype VSize = S32 | D64 | Q128

  datatype Inst =
    | B(off: int)
    | BCond(cond: nat, off: int)
    | BL(off: int)
    | Adr(d: nat, off: int)
    | Adrp(d: nat, off: int)
    | LdrLit(t: nat, off: int, width: Width)
    | PrfmLit(off: int)
    | LdrVLit(t: nat, off: int, size: VSize)
    | Cbz(t: nat, off: int, is64: bool, nonzero: bool)
    | Tbz(t: nat, off: int, bit: nat, nonzero: bool)
    | Br(n: nat)
    | Blr(n: nat)
    | Ret(n: nat)
    | Ldr(t: nat, n: nat, width: Width)
    | Prfm(n: nat)
    | LdrV(t: nat, n: nat, size: VSize)
    | Stp(t: nat, t2: nat, n: nat, off: int)
    | StpPre(t: nat, t2: nat, n: nat, off: int)
    | Ldp(t: nat, t2: nat, n: nat, off: int)
    | Ldur(t: nat, n: nat, off: int)
    | Other(w: bv32)

  predicate IsPcRelative(i: Inst) {
    i.B? || i.BCond? || i.BL? || i.Adr? || i.Adrp? || i.LdrLit? || i.PrfmLit? || i.LdrVLit? || i.Cbz? || i.Tbz?
  }

  function Off26(w: bv32): int {
    4 * SignExtend(Imm26(w), 0x400_0000)
  }

  function Off19(w: bv32): int {
    4 * SignExtend(Imm19(w), 0x8_0000)
  }

  function Off14(w: bv32): int {
    4 * SignExtend(Imm14(w), 0x4000)
  }

  /** immhi:immlo of ADR and ADRP. */
  function OffAdr(w: bv32): int {
    SignExtend(Imm19(w) * 4 + ImmLo(w), 0x20_0000)
  }

  function Rd(w: bv32): nat {
    (w & 0x1F) as nat
  }

  function Cond(w: bv32): nat {
    (w & 0xF) as nat
  }

  /** b5:b40 of TBZ and TBNZ. */
  function BitNo(w: bv32): nat {
    (((w >> 26) & 0x20) | ((w >> 19) & 0x1F)) as nat
  }

  function Rn(w: bv32): nat {
    ((w >> 5) & 0x1F) as nat
  }

  function Rt2(w: bv32): nat {
    ((w >> 10) & 0x1F) as nat
  }

  function PairOff(w: bv32): int {
    8 * SignExtend(((w >> 15) & 0x7F) as int, 0x80)
  }

  function UnscaledOff(w: bv32): int {
    SignExtend(((w >> 12) & 0x1FF) as int, 0x200)
  }

  function Decode(w: bv32): (i: Inst) {
    if w & 0xFC00_0000 == 0x1400_0000 then B(Off26(w))
    else if w & 0xFC00_0000 == 0x9400_0000 then BL(Off26(w))
    else if w & 0xFF00_0010 == 0x5400_0000 then BCond(Cond(w), Off19(w))
    else if w & 0x9F00_0000 == 0x1000_0000 then Adr(Rd(w), OffAdr(w))
    else if w & 0x9F00_0000 == 0x9000_0000 then Adrp(Rd(w), 0x1000 * OffAdr(w))
    else if w & 0xFF00_0000 == 0x1800_0000 then LdrLit(Rd(w), Off19(w), W32)
    else if w & 0xFF00_0000 == 0x5800_0000 then LdrLit(Rd(w), Off19(w), X64)
    else if w & 0xFF00_0000 == 0x9800_0000 then LdrLit(Rd(w), Off19(w), SW32)
    else if w & 0xFF00_0000 == 0xD800_0000 then PrfmLit(Off19(w))
    else if w & 0xFF00_0000 == 0x1C00_0000 then LdrVLit(Rd(w), Off19(w), S32)
    else if w & 0xFF00_0000 == 0x5C00_0000 then LdrVLit(Rd(w), Off19(w), D64)
    else if w & 0xFF00_0000 == 0x9C00_0000 then LdrVLit(Rd(w), Off19(w), Q128)
    else if w & 0x7E00_0000 == 0x3400_0000 then
      Cbz(Rd(w), Off19(w), w & 0x8000_0000 != 0, w & 0x0100_0000 != 0)
    else if w & 0x7E00_0000 == 0x3600_0000 then
      Tbz(Rd(w), Off14(w), BitNo(w), w & 0x0100_0000 != 0)
    else DecodePlain(w)
  }

  function DecodePlain(w: bv32): (i: Inst)
    ensures !IsPcRelative(i)
  {
    if w & 0xFFFF_FC1F == 0xD61F_0000 then Br(Rn(w))
    else if w & 0xFFFF_FC1F == 0xD63F_0000 then Blr(Rn(w))
    else if w & 0xFFFF_FC1F == 0xD65F_0000 then Ret(Rn(w))
    else DecodeMemory(w)
  }

  function DecodeMemory(w: bv32): (i: Inst)
    ensures !IsPcRelative(i)
  {
    if w & 0xFFFF_FC00 == 0xB940_0000 then Ldr(Rd(w), Rn(w), W32)
    else if w & 0xFFFF_FC00 == 0xF940_0000 then Ldr(Rd(w), Rn(w), X64)
    else if w & 0xFFFF_FC00 == 0xB980_0000 then Ldr(Rd(w), Rn(w), SW32)
    else if w & 0xFFFF_FC00 == 0xF980_0000 then Prfm(Rn(w))
    else if w & 0xFFFF_FC00 == 0xBD40_0000 then LdrV(Rd(w), Rn(w), S32)
    else if w & 0xFFFF_FC00 == 0xFD40_0000 then LdrV(Rd(w), Rn(w), D64)
    else if w & 0xFFFF_FC00 == 0x3DC0_0000 then LdrV(Rd(w), Rn(w), Q128)
    else DecodePair(w)
  }

  function DecodePair(w: bv32): (i: Inst)
    ensures !IsPcRelative(i)
  {
    if w & 0xFFC0_0000 == 0xA900_0000 then Stp(Rd(w), Rt2(w), Rn(w), PairOff(w))
    else if w & 0xFFC0_0000 == 0xA980_0000 then StpPre(Rd(w), Rt2(w), Rn(w), PairOff(w))
    else if w & 0xFFC0_0000 == 0xA940_0000 then Ldp(Rd(w), Rt2(w), Rn(w), PairOff(w))
    else if w & 0xFFE0_0C00 == 0xF840_0000 then
      Ldur(Rd(w), Rn(w), UnscaledOff(w))
    else Other(w)
  }

  /** The instruction stored at an address. */
  function Fetch(m: Memory, a: int): Inst {
    Decode(Fetch32(m, a))
  }

  /** Register 31 reads as zero and ignores writes. */
  function Reg(c: Core, n: nat): Word64 {
    if n < 31 then c.x[n] else 0
  }

  function SetReg(c: Core, n: nat, v: Word64): Core {
    if n < 31 then c.(x := c.x[n := v]) else c
  }

  /** Register 31 is SP when it is a base. */
  function Base(c: Core, n: nat): Word64 {
    if n < 31 then c.x[n] else c.sp
  }

  function SetBase(c: Core, n: nat, v: Word64): Core {
    if n < 31 then SetReg(c, n, v) else c.(sp := v)
  }

  function SetV(c: Core, t: nat, v: Vector): Core {
    if t < 32 then c.(v := c.v[t := v]) else c
  }

  predicate CondHolds(cond: nat, f: Flags) {
    var base :=
      match cond / 2 % 8
      case 0 => f.z
      case 1 => f.c
      case 2 => f.n
      case 3 => f.v
      case 4 => f.c && !f.z
      case 5 => f.n == f.v
      case 6 => f.n == f.v && !f.z
      case _ => true;
    if cond % 2 == 1 && cond != 15 then !base else base
  }

  function LoadWidth(m: Memory, a: int, width: Width): Word64 {
    match width
    case W32 => Load32(m, a)
    case X64 => Load64(m, a)
    case SW32 => Wrap64(SignExtend(Load32(m, a), 0x1_0000_0000))
  }

  function LoadV(m: Memory, a: int, size: VSize): Vector {
    match size
    case S32 => Vector(Fetch32(m, a), 0, 0, 0)
    case D64 => Vector(Fetch32(m, a), Fetch32(m, a + 4), 0, 0)
    case Q128 => Vector(Fetch32(m, a), Fetch32(m, a + 4), Fetch32(m, a + 8), Fetch32(m, a + 12))
  }

  predicate CbzTaken(c: Core, t: nat, is64: bool, nonzero: bool) {
    var value := if is64 then Reg(c, t) else Reg(c, t) % 0x1_0000_0000;
    (value != 0) == nonzero
  }

  predicate TbzTaken(c: Core, t: nat, bit: nat, nonzero: bool) {
    TestBit(Reg(c, t), bit) == nonzero
  }

  /** The test that a branch makes. */
  predicate Taken(i: Inst, c: Core) {
    match i
    case BCond(cond, _) => CondHolds(cond, c.nzcv)
    case Cbz(t, _, is64, nonzero) => CbzTaken(c, t, is64, nonzero)
    case Tbz(t, _, bit, nonzero) => TbzTaken(c, t, bit, nonzero)
    case _ => true
  }

  /** Effect of an instruction that does not use the program counter. */
  function ExecPlain(sem: Semantics, i: Inst, c: Core): Outcome
    requires !IsPcRelative(i)
  {
    match i
    case Br(n) => Jump(c, Reg(c, n))
    case Ret(n) => Jump(c, Reg(c, n))
    case Blr(n) => Call(c, Reg(c, n))
    case Ldr(t, n, width) => Next(SetReg(c, t, LoadWidth(c.mem, Base(c, n), width)))
    case Prfm(n) => Next(c)
    case LdrV(t, n, size) => Next(SetV(c, t, LoadV(c.mem, Base(c, n), size)))
    case Stp(t, t2, n, off) =>
      var a := Wrap64(Base(c, n) + off);
      Next(c.(mem := Store64(Store64(c.mem, a, Reg(c, t)), a + 8, Reg(c, t2))))
    case StpPre(t, t2, n, off) =>
      var a := Wrap64(Base(c, n) + off);
      Next(SetBase(c.(mem := Store64(Store64(c.mem, a, Reg(c, t)), a + 8, Reg(c, t2))), n, a))
    case Ldp(t, t2, n, off) =>
      var a := Wrap64(Base(c, n) + off);
      Next(SetReg(SetReg(c, t, Load64(c.mem, a)), t2, Load64(c.mem, a + 8)))
    case Ldur(t, n, off) => Next(SetReg(c, t, Load64(c.mem, Wrap64(Base(c, n) + off))))
    case Other(w) => sem(w, c)
  }

  function PageOf(pc: Word64): Word64 {
    pc / 0x1000 * 0x1000
  }

  function Exec(sem: Semantics, i: Inst, pc: Word64, c: Core): Outcome {
    match i
    case B(off) => Jump(c, Wrap64(pc + off))
    case BCond(_, off) => if Taken(i, c) then Jump(c, Wrap64(pc + off)) else Next(c)
    case BL(off) => Call(c, Wrap64(pc + off))
    case Adr(d, off) => Next(SetReg(c, d, Wrap64(pc + off)))
    case Adrp(d, off) => Next(SetReg(c, d, Wrap64(PageOf(pc) + off)))
    case LdrLit(t, off, width) => Next(SetReg(c, t, LoadWidth(c.mem, Wrap64(pc + off), width)))
    case PrfmLit(off) => Next(c)
    case LdrVLit(t, off, size) => Next(SetV(c, t, LoadV(c.mem, Wrap64(pc + off), size)))
    case Cbz(_, off, _, _) => if Taken(i, c) then Jump(c, Wrap64(pc + off)) else Next(c)
    case Tbz(_, off, _, _) => if Taken(i, c) then Jump(c, Wrap64(pc + off)) else Next(c)
    case _ => ExecPlain(sem, i, c)
  }

  function After(o: Outcome, pc: Word64): State {
    match o
    case Next(c) => State(Wrap64(pc + 4), c)
    case Jump(c, target) => State(target, c)
    case Call(c, target) => State(target, SetReg(c, 30, Wrap64(pc + 4)))
  }

  /** One step: fetch, decode, execute. */
  function Step(sem: Semantics, s: State): State {
    After(Exec(sem, Fetch(s.core.mem, s.pc), s.pc, s.core), s.pc)
  }

  function Run(sem: Semantics, s: State, n: nat): State
    decreases n
  {
    if n == 0 then s else Run(sem, Step(sem, s), n - 1)
  }

  ghost predicate Reaches(sem: Semantics, s: State, t: State) {
    exists n: nat :: Run(sem, s, n) == t
  }

  lemma ReachesSelf(sem: Semantics, s: State)
    ensures Reaches(sem, s, s)
  {
    assert Run(sem, s, 0) == s;
  }

  lemma {:induction false} RunAppend(sem: Semantics, s: State, m: nat, n: nat)
    ensures Run(sem, s, m + n) == Run(sem, Run(sem, s, m), n)
    decreases m
  {
    hide Step;
    if m > 0 {
      RunAppend(sem, Step(sem, s), m - 1, n);
    }
  }

  lemma ReachesTransitive(sem: Semantics, s: State, t: State, u: State)
    requires Reaches(sem, s, t) && Reaches(sem, t, u)
    ensures Reaches(sem, s, u)
  {
    hide Step;
    var m: nat :| Run(sem, s, m) == t;
    var n: nat :| Run(sem, t, n) == u;
    RunAppend(sem, s, m, n);
  }

  /** Running on: if word `w` is at t.pc then its effect is one more step. */
  lemma Executes(sem: Semantics, s: State, t: State, w: bv32)
    requires Reaches(sem, s, t) && Fetch32(t.core.mem, t.pc) == w
    ensures Reaches(sem, s, After(Exec(sem, Decode(w), t.pc, t.core), t.pc))
  {
    hide Decode, Exec, Fetch32;
    assert Run(sem, t, 1) == Run(sem, Step(sem, t), 0);
    ReachesTransitive(sem, s, t, Step(sem, t));
  }
}
