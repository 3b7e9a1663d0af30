/** One Thumb instruction on both sides: the original machine executes it at its own address, the hooked one its image
    (arch/arm/sh_t16.c, sh_t32.c). */
module ThumbSteps {
  import opened Words
  import opened ThumbRewrite
  import opened ThumbArms
  import opened Sides
  import C = ThumbCpu
  import S = ThumbSim

  /** The bytes that an instruction which uses PC reads. */
  ghost function Reads(i: Instr, pc: Word32): set<int> {
    match i
    case T16(h) =>
      if T16TypeOf(h).LDR_LIT_T1? then Span(Wrap32(Align4(pc) + h % 0x100 * 4), 4) else {}
    case T32(h, l) =>
      var t := T32TypeOf(h, l);
      if S.IsPlainLoad(t) then Span(S.LoadedFrom(h, l, pc, t), Sides.Size(C.AccessOf(t)))
      else if t.LDR_LIT_PC_T2? then Span(C.Literal32(h, pc, l % 0x1000), 4)
      else if t.VLDR_LIT_T1? then Span(FpLiteral(h, l, pc), S.FpSize(l / 0x100 % 4))
      else {}
  }

  function FpLiteral(h: Half, l: Half, pc: Word32): Word32 {
    C.Literal32(h, pc, l % 0x100 * if l / 0x100 % 4 == 1 then 2 else 4)
  }

  /** What the rest of the program owes the engine when the original machine executes i in state `c`: the same effect in
      every state that may stand for `c`, reading nothing that may differ, and room below SP where a register is borrowed.
      `wrote` are the bytes that the instruction writes. */
  ghost predicate Relocatable(sem: C.Sem, i: Instr, pc: Word32, c: C.Machine, h: C.Machine, hidden: set<int>, wrote: set<int>,
                              code: set<int>)
    requires C.Known(i)
  {
    if S.IsPlain(i) then PlainAgrees(C.Exec(sem, i, pc, c), h, C.Exec(sem, i, pc, h), hidden - wrote, code)
    else
      && Reads(i, pc) !! hidden
      && (S.Borrows(i) ==> C.Sp(c) >= 8 && Below(C.Sp(c), 8) !! Reads(i, pc) + code)
  }

  /** The bytes that may differ afterwards. */
  ghost function HiddenAfter(i: Instr, c: C.Machine, hidden: set<int>, wrote: set<int>): set<int> {
    if S.IsPlain(i) then hidden - wrote
    else if S.Borrows(i) then hidden + Below(C.Sp(c), 8)
    else hidden
  }

  // The same effect on both sides.

  lemma SetAgrees(c: C.Machine, h: C.Machine, hidden: set<int>, n: nat, x: Word32)
    requires n < 15 && Agree(c, h, {}, hidden)
    ensures Agree(C.SetReg(c, n, x), C.SetReg(h, n, x), {}, hidden)
  {
  }

  lemma NextSame(t: C.Machine, e: C.Machine, hidden: set<int>)
    requires Agree(t, e, {}, hidden)
    ensures SameOutcome(Next(t), Next(e), hidden)
  {
    hide Agree;
  }

  lemma TakenSame(t: C.Machine, e: C.Machine, hidden: set<int>, dest: nat)
    requires Agree(t, e, {}, hidden)
    ensures SameOutcome(Taken(t, dest), Taken(e, dest), hidden)
  {
    hide Agree;
  }

  lemma SameView(c: C.Machine, h: C.Machine, hidden: set<int>)
    requires Agree(c, h, {}, hidden)
    ensures c.rest.r == h.rest.r && c.flags == h.flags && C.Sp(c) == C.Sp(h)
  {
    SameRegisters(c, h, hidden);
  }

  lemma Exec16Agrees(sem: C.Sem, half: Half, pc: Word32, c: C.Machine, h: C.Machine, hidden: set<int>)
    requires C.Known(T16(half)) && !S.IsPlain(T16(half)) && Agree(c, h, {}, hidden) && Reads(T16(half), pc) !! hidden
    ensures SameOutcome(C.Exec(sem, T16(half), pc, c), C.Exec(sem, T16(half), pc, h), hidden)
  {
    SameView(c, h, hidden);
    if T16TypeOf(half).LDR_LIT_T1? {
      Literal16Agrees(sem, half, pc, c, h, hidden);
    } else {
      hide T16TypeOf, CondHolds, SignExtend, SetBit0, Align4, Agree, C.WordFrom, SameOutcome, C.Decode16, C.Sum32;
      NextSame(c, h, hidden);
      if T16TypeOf(half) in {ADD_REG_T2, MOV_REG_T1, ADR_T1} {
        SetSame(sem, half, pc, c, h, hidden);
      } else {
        Branch16Agrees(sem, half, pc, c, h, hidden);
      }
    }
  }

  lemma Literal16Agrees(sem: C.Sem, half: Half, pc: Word32, c: C.Machine, h: C.Machine, hidden: set<int>)
    requires C.Known(T16(half)) && T16TypeOf(half).LDR_LIT_T1? && Agree(c, h, {}, hidden) && Reads(T16(half), pc) !! hidden
    ensures SameOutcome(C.Exec(sem, T16(half), pc, c), C.Exec(sem, T16(half), pc, h), hidden)
  {
    hide T16TypeOf, Agree, C.WordFrom, SameOutcome, Align4;
    var a := Wrap32(Align4(pc) + half % 0x100 * 4);
    WordAgrees(c, h, hidden, a);
    SetAgrees(c, h, hidden, half / 0x100 % 8, C.WordFrom(c.rest.mem, a));
    NextSame(C.SetReg(c, half / 0x100 % 8, C.WordFrom(c.rest.mem, a)), C.SetReg(h, half / 0x100 % 8, C.WordFrom(c.rest.mem, a)),
             hidden);
  }

  lemma WordAgrees(c: C.Machine, h: C.Machine, hidden: set<int>, a: int)
    requires Agree(c, h, {}, hidden) && Span(a, 4) !! hidden
    ensures C.WordFrom(c.rest.mem, a) == C.WordFrom(h.rest.mem, a)
  {
    hide C.WordFrom;
    SameWord(c.rest.mem, h.rest.mem, a);
  }

  lemma SetSame(sem: C.Sem, half: Half, pc: Word32, c: C.Machine, h: C.Machine, hidden: set<int>)
    requires C.Known(T16(half)) && T16TypeOf(half) in {ADD_REG_T2, MOV_REG_T1, ADR_T1}
    requires Agree(c, h, {}, hidden) && c.rest.r == h.rest.r
    ensures SameOutcome(C.Exec(sem, T16(half), pc, c), C.Exec(sem, T16(half), pc, h), hidden)
  {
    hide T16TypeOf, Agree, SameOutcome, SetBit0, Align4, C.Sum32;
    var n := if T16TypeOf(half).ADR_T1? then half / 0x100 % 8 else half / 0x80 % 2 * 8 + half % 8;
    if n == 15 {
      TakenSame(c, h, hidden, SetBit0(Wrap32(pc)));
    } else {
      var x := if T16TypeOf(half).ADR_T1? then Wrap32(Align4(pc) + half % 0x100 * 4)
               else if T16TypeOf(half).MOV_REG_T1? then pc
               else C.Sum32(c.rest.r[n], pc);
      SetAgrees(c, h, hidden, n, x);
      NextSame(C.SetReg(c, n, x), C.SetReg(h, n, x), hidden);
    }
  }

  lemma Branch16Agrees(sem: C.Sem, half: Half, pc: Word32, c: C.Machine, h: C.Machine, hidden: set<int>)
    requires C.Known(T16(half)) && T16TypeOf(half) in {B_T1, B_T2, BX_T1, CBZ_T1, CBNZ_T1}
    requires Agree(c, h, {}, hidden) && c.rest.r == h.rest.r && c.flags == h.flags
    ensures SameOutcome(C.Exec(sem, T16(half), pc, c), C.Exec(sem, T16(half), pc, h), hidden)
  {
    hide T16TypeOf, Agree, SetBit0, SignExtend, CondHolds;
  }

  lemma Exec32Agrees(sem: C.Sem, high: Half, low: Half, pc: Word32, c: C.Machine, h: C.Machine, hidden: set<int>)
    requires C.Known(T32(high, low)) && !S.IsPlain(T32(high, low)) && Agree(c, h, {}, hidden)
    requires Reads(T32(high, low), pc) !! hidden
    ensures SameOutcome(C.Exec(sem, T32(high, low), pc, c), C.Exec(sem, T32(high, low), pc, h), hidden)
  {
    hide T32TypeOf, Agree, SameOutcome, C.Exec, C.Literal32, S.LoadedFrom, S.SecondReg, FpLiteral, C.LoadInto, C.LoadFp,
         C.Decode32;
    SameView(c, h, hidden);
    var t := T32TypeOf(high, low);
    if S.IsPlainLoad(t) {
      S.Load32Exec(sem, high, low, pc, Info(0, 0, 0, 0, []), c);
      S.Load32Exec(sem, high, low, pc, Info(0, 0, 0, 0, []), h);
      var rt, rt2, a := low / 0x1000, S.SecondReg(low, t), S.LoadedFrom(high, low, pc, t);
      LoadAgrees(c, h, hidden, C.AccessOf(t), rt, rt2, a);
      NextSame(C.LoadInto(c, C.AccessOf(t), rt, rt2, a), C.LoadInto(h, C.AccessOf(t), rt, rt2, a), hidden);
    } else if t.LDR_LIT_PC_T2? {
      PcLoadAgrees(sem, high, low, pc, c, h, hidden);
    } else if t.VLDR_LIT_T1? {
      FpLoadAgrees(sem, high, low, pc, c, h, hidden);
    } else {
      Other32Agrees(sem, high, low, pc, c, h, hidden);
    }
  }

  lemma PcLoadAgrees(sem: C.Sem, high: Half, low: Half, pc: Word32, c: C.Machine, h: C.Machine, hidden: set<int>)
    requires C.Known(T32(high, low)) && T32TypeOf(high, low).LDR_LIT_PC_T2? && Agree(c, h, {}, hidden)
    requires Reads(T32(high, low), pc) !! hidden
    ensures SameOutcome(C.Exec(sem, T32(high, low), pc, c), C.Exec(sem, T32(high, low), pc, h), hidden)
  {
    hide T32TypeOf, Agree, SameOutcome, C.Literal32, C.WordFrom;
    var a := C.Literal32(high, pc, low % 0x1000);
    WordAgrees(c, h, hidden, a);
    TakenSame(c, h, hidden, C.WordFrom(c.rest.mem, a));
  }

  lemma FpLoadAgrees(sem: C.Sem, high: Half, low: Half, pc: Word32, c: C.Machine, h: C.Machine, hidden: set<int>)
    requires C.Known(T32(high, low)) && T32TypeOf(high, low).VLDR_LIT_T1? && Agree(c, h, {}, hidden)
    requires Reads(T32(high, low), pc) !! hidden
    ensures SameOutcome(C.Exec(sem, T32(high, low), pc, c), C.Exec(sem, T32(high, low), pc, h), hidden)
  {
    hide T32TypeOf, Agree, SameOutcome, C.Literal32, C.LoadFp;
    var size, d, vd, a := low / 0x100 % 4, high / 0x40 % 2, low / 0x1000, FpLiteral(high, low, pc);
    LoadFpAgrees(c, h, hidden, size, d, vd, a);
    NextSame(C.LoadFp(c, size, d, vd, a), C.LoadFp(h, size, d, vd, a), hidden);
  }

  lemma LoadFpAgrees(c: C.Machine, h: C.Machine, hidden: set<int>, size: nat, d: nat, vd: nat, a: int)
    requires 1 <= size <= 3 && d < 2 && vd < 16 && Agree(c, h, {}, hidden) && Span(a, S.FpSize(size)) !! hidden
    ensures Agree(C.LoadFp(c, size, d, vd, a), C.LoadFp(h, size, d, vd, a), {}, hidden)
  {
    FpReads(c.rest.mem, h.rest.mem, a, size, hidden);
    hide C.WordFrom, C.HalfAt;
  }

  lemma FpReads(m: C.Ram, m': C.Ram, a: int, size: nat, hidden: set<int>)
    requires 1 <= size <= 3 && Span(a, S.FpSize(size)) !! hidden && forall x | x !in hidden :: m(x) == m'(x)
    ensures if size == 1 then C.HalfAt(m, a) == C.HalfAt(m', a)
            else C.WordFrom(m, a) == C.WordFrom(m', a) && (size == 3 ==> C.WordFrom(m, a + 4) == C.WordFrom(m', a + 4))
  {
    assert forall x | a <= x < a + S.FpSize(size) :: x in Span(a, S.FpSize(size));
  }

  lemma Other32Agrees(sem: C.Sem, high: Half, low: Half, pc: Word32, c: C.Machine, h: C.Machine, hidden: set<int>)
    requires C.Known(T32(high, low)) && Agree(c, h, {}, hidden) && c.flags == h.flags
    requires T32TypeOf(high, low) in {B_T3, B_T4, BL_IMM_T1, BLX_IMM_T2, ADR_T2, ADR_T3, PLD_LIT_T1, PLI_LIT_T3}
    ensures SameOutcome(C.Exec(sem, T32(high, low), pc, c), C.Exec(sem, T32(high, low), pc, h), hidden)
  {
    hide T32TypeOf, Agree, SetBit0, CondHolds, C.FarOffset, C.NearOffset, Align4;
    SetAgrees(c, h, hidden, C.LR, SetBit0(pc));
    if T32TypeOf(high, low) in {ADR_T2, ADR_T3} {
      var imm := high / 0x400 % 2 * 0x800 + low / 0x1000 % 8 * 0x100 + low % 0x100;
      SetAgrees(c, h, hidden, low / 0x100 % 0x10,
                Wrap32(if T32TypeOf(high, low).ADR_T3? then Align4(pc) + imm else Align4(pc) - imm));
    }
  }

  lemma BothSides(sem: C.Sem, i: Instr, pc: Word32, c: C.Machine, h: C.Machine, hidden: set<int>, wrote: set<int>,
                  code: set<int>)
    requires C.Known(i) && Agree(c, h, {}, hidden) && Relocatable(sem, i, pc, c, h, hidden, wrote, code)
    ensures SameOutcome(C.Exec(sem, i, pc, c), C.Exec(sem, i, pc, h), if S.IsPlain(i) then hidden - wrote else hidden)
  {
    hide C.Exec, C.Known, S.IsPlain, Reads, SameOutcome, Agree;
    if !S.IsPlain(i) {
      match i
      case T16(half) => Exec16Agrees(sem, half, pc, c, h, hidden);
      case T32(high, low) => Exec32Agrees(sem, high, low, pc, c, h, hidden);
    }
  }

  // The image does it.

  /** State `e` of the hooked machine, whose image of i stands at p, is what the original one is after i: behind the image, or
      at the destination, which is fixed up unless it is computed. A call returns behind the image. */
  ghost predicate Arrives(sem: C.Sem, i: Instr, pc: Word32, info: Info, p: int, len: nat, c: C.Machine, from: C.Cpu,
                          e: C.Machine, hidden: set<int>)
    requires C.Known(i)
  {
    match C.Exec(sem, i, pc, c)
    case Next(t) => S.Reaches(sem, from, C.At(Wrap32(p + len), e)) && Agree(t, e, {}, hidden)
    case Taken(t, dest) =>
      && dest < 0x1_0000_0000 && Returns(i, t, e, S.ReturnTo(i, p, len), hidden)
      && S.Reaches(sem, from, C.Gone(if S.Computes(i) then dest else FixAddr(dest, info), e))
  }

  ghost predicate Returns(i: Instr, t: C.Machine, e: C.Machine, back: Word32, hidden: set<int>) {
    if S.Links(i) then Agree(t, e, {C.LR}, hidden) && e.rest.r[C.LR] == back else Agree(t, e, {}, hidden)
  }

  /** The image of i is at p, in the engine's own memory. */
  ghost predicate Stored(i: Instr, pc: Word32, info: Info, p: int, h: C.Machine, code: set<int>) {
    var words := Rewrite(i, pc, info);
    && words != [] && 0 <= p && p % 4 == 0 && p + 2 * |words| < S.CODE_END
    && C.CodeAt(h.rest.mem, p, words) && Span(p, 2 * |words|) <= code
  }

  lemma RoomIsReady(i: Instr, pc: Word32, p: int, len: nat, sp: Word32)
    requires len > 0
    requires S.Borrows(i) ==> sp >= 8 && Below(sp, 8) !! Span(p, len) && Below(sp, 8) !! Reads(i, pc)
    ensures S.StackReady(i, pc, p, len, sp)
  {
    hide T16TypeOf, T32TypeOf, C.Literal32, S.LoadedFrom;
    if S.Borrows(i) {
      OutOfTheWay(sp, 8, p, len);
      if i.T32? {
        var t := T32TypeOf(i.high, i.low);
        if t.LDR_LIT_PC_T2? {
          OutOfTheWay(sp, 8, C.Literal32(i.high, pc, i.low % 0x1000), 4);
        } else if t.VLDR_LIT_T1? {
          OutOfTheWay(sp, 8, FpLiteral(i.high, i.low, pc), S.FpSize(i.low / 0x100 % 4));
        }
      }
    }
  }

  lemma PlainBorrowsNot(i: Instr)
    ensures S.IsPlain(i) ==> !S.Borrows(i)
  {
    hide T16TypeOf, T32TypeOf;
  }

  lemma ImageIsReady(sem: C.Sem, i: Instr, pc: Word32, info: Info, p: int, c: C.Machine, h: C.Machine, hidden: set<int>,
                     wrote: set<int>, code: set<int>)
    requires C.Known(i) && Agree(c, h, {}, hidden) && Stored(i, pc, info, p, h, code)
    requires Relocatable(sem, i, pc, c, h, hidden, wrote, code)
    ensures var len := 2 * |Rewrite(i, pc, info)|;
            S.StackReady(i, pc, p, len, C.Sp(h)) && S.SparesImage(sem, i, pc, p, len, h)
  {
    hide C.Exec, C.Known, S.IsPlain, S.Borrows, Reads, SameOutcome, Agree, Rewrite, C.CodeAt, S.StackReady;
    SameView(c, h, hidden);
    PlainBorrowsNot(i);
    RoomIsReady(i, pc, p, 2 * |Rewrite(i, pc, info)|, C.Sp(h));
  }

  lemma ExecKeepsMem(sem: C.Sem, i: Instr, pc: Word32, c: C.Machine)
    requires C.Known(i) && !S.IsPlain(i)
    ensures C.Exec(sem, i, pc, c).core.rest.mem == c.rest.mem
  {
    hide T16TypeOf, T32TypeOf, C.LoadValue, C.WordFrom, C.HalfAt, CondHolds, SignExtend, C.Literal32, C.FarOffset, C.NearOffset,
         Align4, SetBit0, C.Decode16, C.Decode32;
  }

  lemma EndAgrees(i: Instr, t: C.Machine, t': C.Machine, e: C.Machine, sp: Word32, lost: set<nat>, hidden: set<int>,
                  wrote: set<int>, c: C.Machine)
    requires Agree(t, t', lost, if S.IsPlain(i) then hidden - wrote else hidden)
    requires S.Leaves(i, e, t', sp) && sp == C.Sp(c)
    ensures Agree(t, e, lost, HiddenAfter(i, c, hidden, wrote))
  {
    hide S.IsPlain, S.Borrows;
    PlainBorrowsNot(i);
    assert forall a | a !in Below(sp, 8) :: !(sp - 8 <= a < sp);
  }

  lemma KeepsCode(sem: C.Sem, i: Instr, pc: Word32, c: C.Machine, h: C.Machine, t': C.Machine, e: C.Machine, hidden: set<int>,
                  wrote: set<int>, code: set<int>)
    requires C.Known(i) && Relocatable(sem, i, pc, c, h, hidden, wrote, code) && C.Sp(c) == C.Sp(h)
    requires S.Leaves(i, e, t', C.Sp(h)) && t'.rest.mem == C.Exec(sem, i, pc, h).core.rest.mem
    ensures SameBytesIn(h.rest.mem, e.rest.mem, code)
  {
    hide C.Exec, C.Known, S.IsPlain, S.Borrows, Reads, SameOutcome;
    PlainBorrowsNot(i);
    if !S.IsPlain(i) {
      ExecKeepsMem(sem, i, pc, h);
    }
    assert forall a | C.Sp(h) - 8 <= a < C.Sp(h) :: a in Below(C.Sp(c), 8);
  }

  lemma LinkAgrees(t: C.Machine, t': C.Machine, x: Word32, hidden: set<int>)
    requires Agree(t, t', {}, hidden)
    ensures Agree(t, C.SetReg(t', C.LR, x), {C.LR}, hidden)
  {
  }

  lemma LeavesLink(i: Instr, e: C.Machine, t: C.Machine, x: Word32, sp: Word32)
    requires S.Leaves(i, e, C.SetReg(t, C.LR, x), sp)
    ensures e.rest.r[C.LR] == x
  {
    hide S.Borrows;
  }

  lemma StepEnds(sem: C.Sem, i: Instr, pc: Word32, info: Info, p: Word32, len: nat, c: C.Machine, h: C.Machine, e: C.Machine,
                 hidden: set<int>, wrote: set<int>, code: set<int>)
    requires C.Known(i) && p + len < S.CODE_END && C.Sp(c) == C.Sp(h)
    requires S.Ends(sem, i, pc, info, p, len, h, e) && Relocatable(sem, i, pc, c, h, hidden, wrote, code)
    requires SameOutcome(C.Exec(sem, i, pc, c), C.Exec(sem, i, pc, h), if S.IsPlain(i) then hidden - wrote else hidden)
    ensures Arrives(sem, i, pc, info, p, len, c, C.At(p, h), e, HiddenAfter(i, c, hidden, wrote))
    ensures SameBytesIn(h.rest.mem, e.rest.mem, code)
  {
    hide C.Exec, C.Known, S.IsPlain, S.Borrows, S.Leaves, S.Links, S.Computes, S.Reaches, Relocatable, HiddenAfter, Agree, FixAddr,
         S.ReturnTo, SameBytesIn;
    var o, o' := C.Exec(sem, i, pc, c), C.Exec(sem, i, pc, h);
    match o'
    case Next(t') =>
      EndAgrees(i, o.core, t', e, C.Sp(c), {}, hidden, wrote, c);
      KeepsCode(sem, i, pc, c, h, t', e, hidden, wrote, code);
    case Taken(t', dest) =>
      var back := S.ReturnTo(i, p, len);
      if S.Links(i) {
        LinkAgrees(o.core, t', back, if S.IsPlain(i) then hidden - wrote else hidden);
        EndAgrees(i, o.core, C.SetReg(t', C.LR, back), e, C.Sp(c), {C.LR}, hidden, wrote, c);
        KeepsCode(sem, i, pc, c, h, C.SetReg(t', C.LR, back), e, hidden, wrote, code);
        LeavesLink(i, e, t', back, C.Sp(c));
      } else {
        EndAgrees(i, o.core, t', e, C.Sp(c), {}, hidden, wrote, c);
        KeepsCode(sem, i, pc, c, h, t', e, hidden, wrote, code);
      }
  }

  /** One original instruction, one image. */
  lemma ImageStep(sem: C.Sem, i: Instr, pc: Word32, info: Info, p: Word32, c: C.Machine, h: C.Machine, hidden: set<int>,
                  wrote: set<int>, code: set<int>)
    returns (e: C.Machine)
    requires C.Known(i) && !S.IsMovPc(i) && Stored(i, pc, info, p, h, code) && Agree(c, h, {}, hidden)
    requires Relocatable(sem, i, pc, c, h, hidden, wrote, code)
    ensures Arrives(sem, i, pc, info, p, 2 * |Rewrite(i, pc, info)|, c, C.At(p, h), e, HiddenAfter(i, c, hidden, wrote))
    ensures SameBytesIn(h.rest.mem, e.rest.mem, code)
  {
    hide *;
    StoredTells(i, pc, info, p, h, code);
    SameView(c, h, hidden);
    ImageIsReady(sem, i, pc, info, p, c, h, hidden, wrote, code);
    e := S.ImageMeans(sem, i, pc, info, p, h);
    BothSides(sem, i, pc, c, h, hidden, wrote, code);
    StepEnds(sem, i, pc, info, p, 2 * |Rewrite(i, pc, info)|, c, h, e, hidden, wrote, code);
  }

  lemma StoredTells(i: Instr, pc: Word32, info: Info, p: int, h: C.Machine, code: set<int>)
    requires Stored(i, pc, info, p, h, code)
    ensures var words := Rewrite(i, pc, info);
            && words != [] && 0 <= p && p % 4 == 0 && p + 2 * |words| < S.CODE_END && C.CodeAt(h.rest.mem, p, words)
  {
    hide Rewrite, C.CodeAt;
  }
}
