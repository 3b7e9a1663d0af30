/** What the image of a Thumb instruction computes, against what the instruction computes where it was. */
module ThumbSim {
  import opened Words
  import opened Masks
  import opened ThumbRewrite
  import opened ThumbArms
  import opened ThumbCpu
  import opened ThumbTypes

  // Code stays below this address, so that no address in it wraps.
  const CODE_END := 0x1_0000_0000 - 0x40

  ghost predicate Reaches(sem: Sem, s: Cpu, t: Cpu) {
    exists n: nat :: ThumbCpu.Run(sem, s, n) == t
  }

  lemma {:induction false} OneMore(sem: Sem, s: Cpu, n: nat)
    ensures ThumbCpu.Run(sem, s, n + 1) == Step(sem, ThumbCpu.Run(sem, s, n))
    decreases n
  {
    hide Step;
    if n > 0 {
      OneMore(sem, Step(sem, s), n - 1);
    }
  }

  lemma ReachesSelf(sem: Sem, s: Cpu)
    ensures Reaches(sem, s, s)
  {
    assert ThumbCpu.Run(sem, s, 0) == s;
  }

  lemma Onward(sem: Sem, s: Cpu, t: Cpu)
    requires Reaches(sem, s, t)
    ensures Reaches(sem, s, Step(sem, t))
  {
    hide Step;
    var n: nat :| ThumbCpu.Run(sem, s, n) == t;
    OneMore(sem, s, n);
  }

  lemma {:induction false} RunAppend(sem: Sem, s: Cpu, n: nat, m: nat)
    ensures ThumbCpu.Run(sem, s, n + m) == ThumbCpu.Run(sem, ThumbCpu.Run(sem, s, n), m)
    decreases n
  {
    hide Step;
    if n > 0 {
      RunAppend(sem, Step(sem, s), n - 1, m);
    }
  }

  lemma ReachesOn(sem: Sem, s: Cpu, t: Cpu, u: Cpu)
    requires Reaches(sem, s, t) && Reaches(sem, t, u)
    ensures Reaches(sem, s, u)
  {
    hide Step;
    var n: nat :| ThumbCpu.Run(sem, s, n) == t;
    var m: nat :| ThumbCpu.Run(sem, t, m) == u;
    RunAppend(sem, s, n, m);
  }

  /** Word i of the code at p is executed; it is a 16-bit instruction. */
  lemma Executes16(sem: Sem, s: Cpu, p: Word32, words: seq<Half>, i: nat, c: Machine)
    requires CodeAt(c.rest.mem, p, words) && i < |words| && p + 2 * i < CODE_END
    requires Reaches(sem, s, At(p + 2 * i, c)) && !IsThumb32(words[i])
    ensures Reaches(sem, s, Execute(sem, T16(words[i]), Decode16(words[i]), p + 2 * i, p + 2 * (i + 1), c))
  {
    hide Execute, Decode16, Decode32, IsThumb32, HalfAt;
    Onward(sem, s, At(p + 2 * i, c));
  }

  /** Words i and i + 1 are; together they are a 32-bit instruction. */
  lemma Executes32(sem: Sem, s: Cpu, p: Word32, words: seq<Half>, i: nat, c: Machine)
    requires CodeAt(c.rest.mem, p, words) && i + 1 < |words| && p + 2 * i < CODE_END
    requires Reaches(sem, s, At(p + 2 * i, c)) && IsThumb32(words[i])
    ensures Reaches(sem, s, Execute(sem, T32(words[i], words[i + 1]), Decode32(words[i], words[i + 1]), p + 2 * i,
                                    p + 2 * (i + 2), c))
  {
    hide Execute, Decode16, Decode32, IsThumb32, HalfAt;
    assert p + 2 * i + 2 == p + 2 * (i + 1);
    Onward(sem, s, At(p + 2 * i, c));
  }

  /** An address that is kept in the code. */
  lemma AddressAt(m: Ram, p: int, words: seq<Half>, i: nat, addr: Word32)
    requires CodeAt(m, p, words) && i + 1 < |words| && words[i] == Low(addr) && words[i + 1] == High(addr)
    ensures WordFrom(m, p + 2 * i) == addr
  {
    hide HalfAt;
    assert p + 2 * i + 2 == p + 2 * (i + 1);
  }

  lemma AlignedAt(p: Word32, i: nat)
    requires p % 4 == 0 && i % 2 == 0 && p + 2 * i + 4 < 0x1_0000_0000
    ensures Align4(p + 2 * i + 4) == p + 2 * i + 4
  {
    assert p + 2 * i + 4 == 4 * (p / 4 + i / 2 + 1);
  }

  // Jumps.

  lemma JumpToRuns(sem: Sem, s: Cpu, p: Word32, words: seq<Half>, i: nat, addr: Word32, c: Machine)
    requires CodeAt(c.rest.mem, p, words) && i + 4 <= |words| && words[i..i + 4] == JumpTo(addr)
    requires p % 4 == 0 && i % 2 == 0 && p + 2 * i < CODE_END && Reaches(sem, s, At(p + 2 * i, c))
    ensures Reaches(sem, s, Gone(addr, c))
  {
    hide HalfAt, Low, High, Reaches, Decode32, IsThumb32, Align4, CodeAt, WordFrom;
    DecodeLdrPc(15, 0);
    var at := p + 2 * i;
    assert words[i] == words[i..i + 4][0] && words[i + 1] == words[i..i + 4][1];
    assert words[i + 2] == words[i..i + 4][2] && words[i + 3] == words[i..i + 4][3];
    Executes32(sem, s, p, words, i, c);
    AddressAt(c.rest.mem, p, words, i + 2, addr);
    AlignedAt(p, i);
  }

  lemma DecodeSkips(cond: nat)
    requires cond < 14
    ensures Decode16(0xD000 + cond * 0x100) == BCond(cond, 0) && !IsThumb32(0xD000 + cond * 0x100)
    ensures Decode16(0xE001) == B(2) && Decode16(0xE002) == B(4) && Decode16(0xE003) == B(6) && Decode16(NOP) == Nop
    ensures !IsThumb32(0xE001) && !IsThumb32(0xE002) && !IsThumb32(0xE003) && !IsThumb32(NOP)
  {
    hide Decode16, IsThumb32;
    Decodes16(0xD0 + cond, 0);
    Decodes16(0xE0, 1);
    Decodes16(0xE0, 2);
    Decodes16(0xE0, 3);
    Decodes16(0xBF, 0);
  }

  /** A conditional 16-bit branch over a branch over a jump. */
  lemma SkipRuns(sem: Sem, p: Word32, words: seq<Half>, taken: bool, addr: Word32, c: Machine)
    requires CodeAt(c.rest.mem, p, words) && p % 4 == 0 && p + 12 < CODE_END
    requires |words| == 6 && words == [words[0], 0xE003] + JumpTo(addr) && !IsThumb32(words[0])
    requires Execute(sem, T16(words[0]), Decode16(words[0]), p, p + 2, c) == At(if taken then p + 4 else p + 2, c)
    ensures Reaches(sem, At(p, c), if taken then Gone(addr, c) else At(p + 12, c))
  {
    hide HalfAt, JumpTo, Decode16, IsThumb32, CodeAt, Reaches;
    var s := At(p, c);
    ReachesSelf(sem, s);
    Executes16(sem, s, p, words, 0, c);
    if taken {
      assert words[2..6] == JumpTo(addr);
      JumpToRuns(sem, s, p, words, 2, addr, c);
    } else {
      DecodeSkips(0);
      Executes16(sem, s, p, words, 1, c);
    }
  }

  // What it means that an image does what its instruction does.

  /** Equal, but for what lies below the stack pointer. */
  ghost predicate SameAbove(a: Machine, b: Machine, sp: Word32) {
    && a.flags == b.flags && a.rest.r == b.rest.r && a.rest.fp == b.rest.fp
    && forall x | !(sp - 8 <= x < sp) :: a.rest.mem(x) == b.rest.mem(x)
  }

  /** The instructions whose images keep registers on the stack for a while. */
  predicate Borrows(i: Instr) {
    match i
    case T16(h) => T16TypeOf(h).ADD_REG_T2?
    case T32(h, l) => T32TypeOf(h, l) in {LDR_LIT_PC_T2, PLD_LIT_T1, PLI_LIT_T3, VLDR_LIT_T1}
  }

  /** State `e` is `t`, but for the bytes that were borrowed. */
  ghost predicate Leaves(i: Instr, e: Machine, t: Machine, sp: Word32) {
    if Borrows(i) then SameAbove(e, t, sp) else e == t
  }

  predicate IsPlain(i: Instr) {
    match i
    case T16(h) => T16TypeOf(h).IGNORED16?
    case T32(h, l) => T32TypeOf(h, l).IGNORED32?
  }

  predicate Links(i: Instr) {
    match i
    case T16(h) => T16TypeOf(h).IGNORED16? && Decode16(h).Blx?
    case T32(h, l) => T32TypeOf(h, l).BL_IMM_T1? || T32TypeOf(h, l).BLX_IMM_T2?
  }

  /** Where a call returns to: behind the call instruction of the image. */
  function ReturnTo(i: Instr, p: int, len: nat): Word32 {
    Wrap32(if i.T16? then p + 3 else p + len + 1)
  }

  /** Where the destination is computed or loaded; it is not subject to fix-up. */
  predicate Computes(i: Instr) {
    IsPlain(i) || (i.T32? && T32TypeOf(i.high, i.low).LDR_LIT_PC_T2?)
  }

  /** `e` is how the image at p, of `len` bytes, ends. A call returns behind the image. */
  ghost predicate Ends(sem: Sem, i: Instr, pc: Word32, info: Info, p: Word32, len: nat, c: Machine, e: Machine)
    requires Known(i) && p + len < CODE_END
  {
    match Exec(sem, i, pc, c)
    case Next(t) => Reaches(sem, At(p, c), At(p + len, e)) && Leaves(i, e, t, Sp(c))
    case Taken(t, dest) =>
      && dest < 0x1_0000_0000
      && Reaches(sem, At(p, c), Gone(if Computes(i) then dest else FixAddr(dest, info), e))
      && Leaves(i, e, if Links(i) then SetReg(t, LR, ReturnTo(i, p, len)) else t, Sp(c))
  }

  lemma Doubled(x: int, full: int)
    ensures SignExtend(x * 2, 2 * full) == 2 * SignExtend(x, full)
  {
  }

  /** Where a 16-bit branch goes, whether it is taken, and its image. */
  lemma B16Words(sem: Sem, h: Half, pc: Word32, info: Info, c: Machine) returns (dest: Word32, taken: bool)
    requires Known(T16(h)) && T16TypeOf(h) in {B_T1, B_T2, BX_T1}
    ensures Exec(sem, T16(h), pc, c) == if taken then Taken(c, dest) else Next(c)
    ensures if T16TypeOf(h).B_T1?
            then var cond := h / 0x100 % 0x10;
                 && cond < 14 && taken == CondHolds(cond, c.flags)
                 && RewriteT16(h, pc, info) == [0xD000 + cond * 0x100, 0xE003] + JumpTo(FixAddr(dest, info))
            else taken && RewriteT16(h, pc, info) == JumpTo(FixAddr(dest, info))
  {
    hide T16TypeOf, JumpTo, FixAddr, CondHolds, SignExtend, SetBit0;
    Doubled(h % 0x100, 0x100);
    Doubled(h % 0x800, 0x800);
    if T16TypeOf(h).B_T1? {
      B16Fields(h);
      taken := CondHolds(h / 0x100 % 0x10, c.flags);
      dest := SetBit0(Wrap32(pc + 2 * SignExtend(h % 0x100, 0x100)));
    } else {
      taken := true;
      dest := if T16TypeOf(h).B_T2? then SetBit0(Wrap32(pc + 2 * SignExtend(h % 0x800, 0x800))) else pc;
    }
  }

  lemma B16Ends(sem: Sem, h: Half, pc: Word32, info: Info, p: Word32, c: Machine)
    requires Known(T16(h)) && T16TypeOf(h) in {B_T1, B_T2, BX_T1}
    requires var words := RewriteT16(h, pc, info);
             CodeAt(c.rest.mem, p, words) && p % 4 == 0 && p + 2 * |words| < CODE_END
    ensures Ends(sem, T16(h), pc, info, p, 2 * |RewriteT16(h, pc, info)|, c, c)
  {
    hide T16TypeOf, JumpTo, FixAddr, CodeAt, Reaches, Decode16, IsThumb32, CondHolds, RewriteT16, Exec, Known;
    var words := RewriteT16(h, pc, info);
    var dest, taken := B16Words(sem, h, pc, info, c);
    var addr := FixAddr(dest, info);
    JumpToLength(addr);
    if T16TypeOf(h).B_T1? {
      DecodeSkips(h / 0x100 % 0x10);
      SkipRuns(sem, p, words, taken, addr, c);
    } else {
      ReachesSelf(sem, At(p, c));
      assert words[0..4] == words;
      JumpToRuns(sem, At(p, c), p, words, 0, addr, c);
    }
  }

  lemma JumpToLength(addr: Word32)
    ensures |JumpTo(addr)| == 4
  {
  }

  lemma CbEnds(sem: Sem, h: Half, pc: Word32, info: Info, p: Word32, c: Machine)
    requires Known(T16(h)) && T16TypeOf(h) in {CBZ_T1, CBNZ_T1}
    requires var words := RewriteT16(h, pc, info);
             CodeAt(c.rest.mem, p, words) && p % 4 == 0 && p + 2 * |words| < CODE_END
    ensures Ends(sem, T16(h), pc, info, p, 2 * |RewriteT16(h, pc, info)|, c, c)
  {
    hide T16TypeOf, JumpTo, FixAddr, CodeAt, Reaches, Decode16, IsThumb32, And, SetBit0;
    var words, ifZero := RewriteT16(h, pc, info), T16TypeOf(h).CBZ_T1?;
    var dest := SetBit0(Wrap32(pc + 2 * (h / 0x200 % 2 * 0x20 + h / 8 % 0x20)));
    assert 2 * (h / 0x200 % 2 * 0x20 + h / 8 % 0x20) == h / 0x200 % 2 * 0x40 + h / 8 % 0x20 * 2;
    CbFields(h);
    DecodeCb(h % 8);
    JumpToLength(FixAddr(dest, info));
    SkipRuns(sem, p, words, (c.rest.r[h % 8] == 0) == ifZero, FixAddr(dest, info), c);
  }

  lemma DecodeCb(rn: nat)
    requires rn < 8
    ensures Decode16(0xB100 + rn) == Cb(rn, true, 0) && Decode16(0xB900 + rn) == Cb(rn, false, 0)
    ensures !IsThumb32(0xB100 + rn) && !IsThumb32(0xB900 + rn)
  {
    hide Decode16, IsThumb32, DecodeBytes;
    CbBytes(rn);
    Decodes16(0xB1, rn);
    Decodes16(0xB9, rn);
  }

  lemma CbBytes(rn: nat)
    requires rn < 8
    ensures DecodeBytes(0xB1, rn) == Cb(rn, true, 0) && DecodeBytes(0xB9, rn) == Cb(rn, false, 0)
  {
    assert rn / 8 == 0 && rn % 8 == rn;
  }

  // 32-bit branches.

  lemma NearBranch(high: Half, low: Half, pc: Word32)
    ensures T32BranchAddr(high, low, pc, B_T3) == SetBit0(Wrap32(pc + 2 * NearOffset(high, low)))
  {
    hide SetBit0, Wrap32;
  }

  lemma FarBranch(high: Half, low: Half, pc: Word32, t: T32Type)
    requires t in {B_T4, BL_IMM_T1, BLX_IMM_T2}
    ensures T32BranchAddr(high, low, pc, t)
            == if t.BLX_IMM_T2? then Wrap32(Align4(pc) + 2 * (FarOffset(high, low) - low % 2))
               else SetBit0(Wrap32(pc + 2 * FarOffset(high, low)))
  {
    hide SetBit0, Wrap32, Align4;
  }

  /** Where a 32-bit branch goes, whether it is taken, and its image. */
  lemma B32Words(sem: Sem, high: Half, low: Half, pc: Word32, info: Info, c: Machine) returns (dest: Word32, taken: bool)
    requires Known(T32(high, low)) && T32TypeOf(high, low) in {B_T3, B_T4, BL_IMM_T1, BLX_IMM_T2}
    ensures Exec(sem, T32(high, low), pc, c)
            == if !taken then Next(c)
               else Taken(if Links(T32(high, low)) then SetReg(c, LR, SetBit0(pc)) else c, dest)
    ensures var words := RewriteT32(high, low, pc, info);
            if T32TypeOf(high, low).B_T3?
            then var cond := high / 0x40 % 0x10;
                 && cond < 14 && taken == CondHolds(cond, c.flags)
                 && words == [0xD000 + cond * 0x100, 0xE003] + JumpTo(FixAddr(dest, info))
            else taken && words == (if Links(T32(high, low)) then [0xF20F, 0x0E09] else []) + JumpTo(FixAddr(dest, info))
  {
    hide T32TypeOf, JumpTo, FixAddr, CondHolds, T32BranchAddr, SetBit0, FarOffset, NearOffset;
    var t := T32TypeOf(high, low);
    if t.B_T3? {
      B32Fields(high, low);
    }
    dest := T32BranchAddr(high, low, pc, t);
    taken := t.B_T3? ==> CondHolds(high / 0x40 % 0x10, c.flags);
    if t.B_T3? {
      NearBranch(high, low, pc);
    } else {
      FarBranch(high, low, pc, t);
    }
  }

  lemma DecodeAdrLr()
    ensures Decode32(0xF20F, 0x0E09) == AdrPc(LR, 9) && IsThumb32(0xF20F)
  {
    hide Decode32, IsThumb32;
    Decodes32(0xF20, 0xF, 0, 0xE09);
  }

  lemma B32Ends(sem: Sem, high: Half, low: Half, pc: Word32, info: Info, p: Word32, c: Machine) returns (e: Machine)
    requires Known(T32(high, low)) && T32TypeOf(high, low) in {B_T3, B_T4, BL_IMM_T1, BLX_IMM_T2}
    requires var words := RewriteT32(high, low, pc, info);
             CodeAt(c.rest.mem, p, words) && p % 4 == 0 && p + 2 * |words| < CODE_END
    ensures Ends(sem, T32(high, low), pc, info, p, 2 * |RewriteT32(high, low, pc, info)|, c, e)
  {
    hide T32TypeOf, JumpTo, FixAddr, CodeAt, Reaches, Decode16, Decode32, IsThumb32, CondHolds, RewriteT32, Exec, Known;
    var words := RewriteT32(high, low, pc, info);
    var dest, taken := B32Words(sem, high, low, pc, info, c);
    var addr := FixAddr(dest, info);
    JumpToLength(addr);
    e := c;
    ReachesSelf(sem, At(p, c));
    if T32TypeOf(high, low).B_T3? {
      DecodeSkips(high / 0x40 % 0x10);
      SkipRuns(sem, p, words, taken, addr, c);
    } else if Links(T32(high, low)) {
      e := SetReg(c, LR, p + 13);
      DecodeAdrLr();
      Executes32(sem, At(p, c), p, words, 0, c);
      AlignedAt(p, 0);
      assert words[2..6] == JumpTo(addr);
      JumpToRuns(sem, At(p, c), p, words, 2, addr, e);
      SetTwice(c, LR, SetBit0(pc), p + 13);
    } else {
      assert words[0..4] == words;
      JumpToRuns(sem, At(p, c), p, words, 0, addr, c);
    }
  }

  // Addresses and literals.

  lemma DecodeLdrPc(rt: nat, imm: nat)
    requires rt < 16 && imm < 0x1000
    ensures Decode32(0xF8DF, rt * 0x1000 + imm) == LdrPc(rt, imm) && IsThumb32(0xF8DF)
  {
    hide Decode32, IsThumb32;
    Decodes32(0xF8D, 0xF, rt, imm);
  }

  /** LDR Rt, [PC, #imm] at word i, when PC + imm is where an address is kept. */
  lemma LoadAddrStep(sem: Sem, s: Cpu, p: Word32, words: seq<Half>, i: nat, rt: nat, imm: nat, k: nat, addr: Word32, c: Machine)
    requires CodeAt(c.rest.mem, p, words) && p % 4 == 0 && i % 2 == 0 && p + 2 * |words| < CODE_END
    requires i + 1 < |words| && rt < 15 && imm < 0x1000 && words[i] == 0xF8DF && words[i + 1] == rt * 0x1000 + imm
    requires 2 * k == 2 * i + 4 + imm && k + 1 < |words| && words[k] == Low(addr) && words[k + 1] == High(addr)
    requires Reaches(sem, s, At(p + 2 * i, c))
    ensures Reaches(sem, s, At(p + 2 * (i + 2), SetReg(c, rt, addr)))
  {
    hide HalfAt, WordFrom, Reaches, Decode32, IsThumb32, Low, High, Align4;
    DecodeLdrPc(rt, imm);
    Executes32(sem, s, p, words, i, c);
    AddressAt(c.rest.mem, p, words, k, addr);
    AlignedAt(p, i);
  }

  lemma LoadAddrRuns(sem: Sem, s: Cpu, p: Word32, words: seq<Half>, rt: nat, addr: Word32, c: Machine)
    requires CodeAt(c.rest.mem, p, words) && p % 4 == 0 && p + 2 * |words| < CODE_END
    requires rt < 15 && LoadAddr(rt, addr) <= words && s == At(p, c)
    ensures Reaches(sem, s, At(p + 12, SetReg(c, rt, addr)))
  {
    hide HalfAt, Reaches, Decode16, IsThumb32, Low, High;
    ReachesSelf(sem, s);
    assert words[0] == LoadAddr(rt, addr)[0] && words[1] == LoadAddr(rt, addr)[1] && words[2] == LoadAddr(rt, addr)[2];
    assert words[4] == LoadAddr(rt, addr)[4] && words[5] == LoadAddr(rt, addr)[5];
    LoadAddrStep(sem, s, p, words, 0, rt, 4, 4, addr, c);
    DecodeSkips(0);
    Executes16(sem, s, p, words, 2, SetReg(c, rt, addr));
  }

  /** MOV Rd, PC. When Rd is PC itself the image loses the Thumb bit: see MovPcBreaks. */
  lemma MovEnds(sem: Sem, h: Half, pc: Word32, info: Info, p: Word32, c: Machine) returns (e: Machine)
    requires Known(T16(h)) && T16TypeOf(h).MOV_REG_T1? && h / 0x80 % 2 * 8 + h % 8 != 15
    requires var words := RewriteT16(h, pc, info);
             CodeAt(c.rest.mem, p, words) && p % 4 == 0 && p + 2 * |words| < CODE_END
    ensures Ends(sem, T16(h), pc, info, p, 2 * |RewriteT16(h, pc, info)|, c, e)
  {
    hide T16TypeOf, CodeAt, Reaches, Low, High;
    var rd := h / 0x80 % 2 * 8 + h % 8;
    e := SetReg(c, rd, pc);
    LoadAddrRuns(sem, At(p, c), p, RewriteT16(h, pc, info), rd, pc, c);
  }

  lemma DecodeLdrLow(r: nat, words: nat)
    requires r < 8 && words < 0x100
    ensures Decode16(0x4800 + r * 0x100 + words) == LdrPc(r, 4 * words) && !IsThumb32(0x4800 + r * 0x100 + words)
  {
    hide Decode16, IsThumb32;
    Decodes16(0x48 + r, words);
  }

  lemma DecodeLdrThrough(r: nat)
    requires r < 8
    ensures Decode16(0x6800 + r * 8 + r) == Load(W, r, 0, r) && !IsThumb32(0x6800 + r * 8 + r)
  {
    hide Decode16, IsThumb32;
    Decodes16(0x68, r * 8 + r);
  }

  /** LDR Rt, [PC]; B #2; <addr>. */
  lemma LowAddrRuns(sem: Sem, p: Word32, words: seq<Half>, r: nat, addr: Word32, c: Machine)
    requires CodeAt(c.rest.mem, p, words) && p % 4 == 0 && p + 2 * |words| < CODE_END
    requires r < 8 && [0x4800 + r * 0x100, 0xE001, Low(addr), High(addr)] <= words
    ensures Reaches(sem, At(p, c), At(p + 8, SetReg(c, r, addr)))
  {
    hide CodeAt, Reaches, Low, High, HalfAt, Decode16, IsThumb32, WordFrom;
    var front := [0x4800 + r * 0x100, 0xE001, Low(addr), High(addr)];
    assert words[0] == front[0] && words[1] == front[1] && words[2] == front[2] && words[3] == front[3];
    ReachesSelf(sem, At(p, c));
    DecodeLdrLow(r, 0);
    DecodeSkips(0);
    Executes16(sem, At(p, c), p, words, 0, c);
    AddressAt(c.rest.mem, p, words, 2, addr);
    AlignedAt(p, 0);
    Executes16(sem, At(p, c), p, words, 1, SetReg(c, r, addr));
  }

  lemma Adr16Ends(sem: Sem, h: Half, pc: Word32, info: Info, p: Word32, c: Machine) returns (e: Machine)
    requires Known(T16(h)) && T16TypeOf(h).ADR_T1? && RewriteT16(h, pc, info) != []
    requires var words := RewriteT16(h, pc, info);
             CodeAt(c.rest.mem, p, words) && p % 4 == 0 && p + 2 * |words| < CODE_END
    ensures Ends(sem, T16(h), pc, info, p, 2 * |RewriteT16(h, pc, info)|, c, e)
  {
    hide T16TypeOf, CodeAt, Reaches, Low, High;
    var addr := Wrap32(Align4(pc) + h % 0x100 * 4);
    e := SetReg(c, h / 0x100 % 8, addr);
    LowAddrRuns(sem, p, RewriteT16(h, pc, info), h / 0x100 % 8, addr, c);
  }

  lemma Ldr16Ends(sem: Sem, h: Half, pc: Word32, info: Info, p: Word32, c: Machine) returns (e: Machine)
    requires Known(T16(h)) && T16TypeOf(h).LDR_LIT_T1? && RewriteT16(h, pc, info) != []
    requires var words := RewriteT16(h, pc, info);
             CodeAt(c.rest.mem, p, words) && p % 4 == 0 && p + 2 * |words| < CODE_END
    ensures Ends(sem, T16(h), pc, info, p, 2 * |RewriteT16(h, pc, info)|, c, e)
  {
    hide T16TypeOf, CodeAt, Reaches, Low, High, Decode16, IsThumb32, WordFrom, Wrap32, Align4;
    var words, r := RewriteT16(h, pc, info), h / 0x100 % 8;
    var addr := Wrap32(Align4(pc) + h % 0x100 * 4);
    var mid := SetReg(c, r, addr);
    LowAddrRuns(sem, p, words, r, addr, c);
    DecodeLdrThrough(r);
    DecodeSkips(0);
    Executes16(sem, At(p, c), p, words, 4, mid);
    e := SetReg(mid, r, WordFrom(c.rest.mem, addr));
    Executes16(sem, At(p, c), p, words, 5, e);
    SetTwice(c, r, addr, WordFrom(c.rest.mem, addr));
  }

  lemma SetTwice(c: Machine, r: nat, a: Word32, b: Word32)
    requires r < 15
    ensures SetReg(SetReg(c, r, a), r, b) == SetReg(c, r, b)
  {
    assert c.rest.r[r := a][r := b] == c.rest.r[r := b];
  }

  lemma Adr32Ends(sem: Sem, high: Half, low: Half, pc: Word32, info: Info, p: Word32, c: Machine) returns (e: Machine)
    requires Known(T32(high, low)) && T32TypeOf(high, low) in {ADR_T2, ADR_T3} && RewriteT32(high, low, pc, info) != []
    requires var words := RewriteT32(high, low, pc, info);
             CodeAt(c.rest.mem, p, words) && p % 4 == 0 && p + 2 * |words| < CODE_END
    ensures Ends(sem, T32(high, low), pc, info, p, 2 * |RewriteT32(high, low, pc, info)|, c, e)
  {
    hide T32TypeOf, CodeAt, Reaches, Low, High;
    var imm32 := high / 0x400 % 2 * 0x800 + low / 0x1000 % 8 * 0x100 + low % 0x100;
    var addr := Wrap32(if T32TypeOf(high, low).ADR_T2? then Align4(pc) - imm32 else Align4(pc) + imm32);
    e := SetReg(c, low / 0x100 % 0x10, addr);
    LoadAddrRuns(sem, At(p, c), p, RewriteT32(high, low, pc, info), low / 0x100 % 0x10, addr, c);
  }

  function LoadBase(access: Access): nat {
    match access case W => 0xF8D case UB => 0xF89 case D => 0xE9D case UH => 0xF8B case SB => 0xF99 case SH => 0xF9B
  }

  function LoadWords(access: Access, rt: nat, rt2: nat): seq<Half>
    requires rt < 15 && rt2 < 15
  {
    [0x10 * LoadBase(access) + rt, rt * 0x1000 + rt2 * 0x100]
  }

  lemma DecodeLoad(access: Access, rt: nat, rt2: nat)
    requires rt < 15 && rt2 < 15 && (!access.D? ==> rt2 == 0)
    ensures var words := LoadWords(access, rt, rt2);
            Decode32(words[0], words[1]) == Load(access, rt, rt2, rt) && IsThumb32(words[0])
  {
    hide Decode32, IsThumb32, DecodeParts;
    LoadParts(access, rt, rt2);
    Decodes32(LoadBase(access), rt, rt, rt2 * 0x100);
  }

  lemma LoadParts(access: Access, rt: nat, rt2: nat)
    requires rt < 15 && rt2 < 15 && (!access.D? ==> rt2 == 0)
    ensures DecodeParts(LoadBase(access), rt, rt, rt2 * 0x100) == Load(access, rt, rt2, rt)
  {
    assert rt2 * 0x100 / 0x100 == rt2 && rt2 * 0x100 % 0x100 == 0;
  }

  lemma LiteralSame(high: Half, pc: Word32, imm: nat)
    ensures Literal(high, pc, imm) == Literal32(high, pc, imm)
  {
  }

  predicate IsPlainLoad(t: T32Type) {
    t in {LDR_LIT_T2, LDRB_LIT_T1, LDRD_LIT_T1, LDRH_LIT_T1, LDRSB_LIT_T1, LDRSH_LIT_T1}
  }

  function SecondReg(low: Half, t: T32Type): nat {
    if t.LDRD_LIT_T1? then low / 0x100 % 0x10 else 0
  }

  function LoadedFrom(high: Half, low: Half, pc: Word32, t: T32Type): Word32 {
    Literal32(high, pc, if t.LDRD_LIT_T1? then low % 0x100 * 4 else low % 0x1000)
  }

  lemma Load32Image(high: Half, low: Half, pc: Word32, t: T32Type, info: Info)
    requires IsPlainLoad(t) && low / 0x1000 < 15 && SecondReg(low, t) < 15 && RewriteT32Ldr(high, low, pc, t, info) != []
    ensures RewriteT32Ldr(high, low, pc, t, info)
            == LoadAddr(low / 0x1000, LoadedFrom(high, low, pc, t)) + LoadWords(AccessOf(t), low / 0x1000, SecondReg(low, t))
  {
    hide IsAddrNeedFix, LoadAddr, Literal, Literal32;
    LiteralSame(high, pc, if t.LDRD_LIT_T1? then low % 0x100 * 4 else low % 0x1000);
  }

  lemma Load32Exec(sem: Sem, high: Half, low: Half, pc: Word32, info: Info, c: Machine)
    requires Known(T32(high, low)) && IsPlainLoad(T32TypeOf(high, low))
    ensures var t, rt := T32TypeOf(high, low), low / 0x1000;
            && rt < 15 && SecondReg(low, t) < 15
            && Exec(sem, T32(high, low), pc, c)
               == Next(LoadInto(c, AccessOf(t), rt, SecondReg(low, t), LoadedFrom(high, low, pc, t)))
            && RewriteT32(high, low, pc, info) == RewriteT32Ldr(high, low, pc, t, info)
  {
    hide T32TypeOf, LoadInto, Literal32, RewriteT32Ldr;
  }

  lemma Load32Ends(sem: Sem, high: Half, low: Half, pc: Word32, info: Info, p: Word32, c: Machine) returns (e: Machine)
    requires Known(T32(high, low)) && RewriteT32(high, low, pc, info) != [] && IsPlainLoad(T32TypeOf(high, low))
    requires var words := RewriteT32(high, low, pc, info);
             CodeAt(c.rest.mem, p, words) && p % 4 == 0 && p + 2 * |words| < CODE_END
    ensures Ends(sem, T32(high, low), pc, info, p, 2 * |RewriteT32(high, low, pc, info)|, c, e)
  {
    hide T32TypeOf, CodeAt, Reaches, LoadAddr, Decode32, IsThumb32, RewriteT32, Exec, Known, LoadValue, WordFrom, LoadedFrom;
    hide RewriteT32Ldr, SecondReg;
    var words, rt, t := RewriteT32(high, low, pc, info), low / 0x1000, T32TypeOf(high, low);
    Load32Exec(sem, high, low, pc, info, c);
    Load32Image(high, low, pc, t, info);
    var access, rt2, addr := AccessOf(t), SecondReg(low, t), LoadedFrom(high, low, pc, t);
    LoadAddrLength(rt, addr);
    LoadAddrRuns(sem, At(p, c), p, words, rt, addr, c);
    NoSecondReg(low, t);
    DecodeLoad(access, rt, rt2);
    assert words[6] == LoadWords(access, rt, rt2)[0] && words[7] == LoadWords(access, rt, rt2)[1];
    Executes32(sem, At(p, c), p, words, 6, SetReg(c, rt, addr));
    e := LoadInto(SetReg(c, rt, addr), access, rt, rt2, addr);
    SetTwice(c, rt, addr, LoadValue(c.rest.mem, addr, access));
  }

  lemma NoSecondReg(low: Half, t: T32Type)
    requires IsPlainLoad(t)
    ensures !AccessOf(t).D? ==> SecondReg(low, t) == 0
  {
  }

  lemma LoadAddrLength(rt: nat, addr: Word32)
    requires rt < 16
    ensures |LoadAddr(rt, addr)| == 6
  {
  }

  // Images that borrow a register and keep it below the stack pointer.

  predicate StackApart(sp: Word32, p: int, len: nat) {
    8 <= sp && (sp <= p || p + len <= sp - 8)
  }

  lemma BytesOfWord(w: Word32)
    ensures w == w % 0x100 + 0x100 * (w / 0x100 % 0x100) + 0x1_0000 * (w / 0x1_0000 % 0x100 + 0x100 * (w / 0x100_0000))
    ensures w / 0x1_0000 % 0x100 + 0x100 * (w / 0x100_0000) == w / 0x1_0000
  {
    var a := w / 0x100;
    var b := a / 0x100;
    assert w / 0x1_0000 == b && w / 0x100_0000 == b / 0x100;
  }

  lemma WordKept(m: Ram, a: int, w: Word32, b: int)
    ensures WordFrom(PutWord(m, a, w), a) == w
    ensures b + 4 <= a || a + 4 <= b ==> WordFrom(PutWord(m, a, w), b) == WordFrom(m, b)
  {
    BytesOfWord(w);
    var n := PutWord(m, a, w);
    assert HalfAt(n, a) == w % 0x100 + 0x100 * (w / 0x100 % 0x100);
    assert HalfAt(n, a + 2) == w / 0x1_0000 % 0x100 + 0x100 * (w / 0x100_0000);
  }

  lemma CodeKept(m: Ram, a: int, w: Word32, p: int, words: seq<Half>)
    requires CodeAt(m, p, words) && (a + 4 <= p || p + 2 * |words| <= a)
    ensures CodeAt(PutWord(m, a, w), p, words)
  {
  }

  function Saved(c: Machine, rx: nat): Machine
    requires rx < 13 && Sp(c) >= 8
  {
    SetReg(SetMem(c, PutWord(c.rest.mem, Sp(c) - 4, c.rest.r[rx])), SP, Sp(c) - 4)
  }

  lemma DecodePush()
    ensures Decode16(0xB401) == Push([0]) && Decode16(0xB402) == Push([1]) && Decode16(0xB403) == Push([0, 1])
    ensures !IsThumb32(0xB401) && !IsThumb32(0xB402) && !IsThumb32(0xB403)
  {
    hide Decode16, IsThumb32;
    Decodes16(0xB4, 1);
    Decodes16(0xB4, 2);
    Decodes16(0xB4, 3);
  }

  lemma DecodePop()
    ensures Decode16(0xBC01) == Pop([0], false) && Decode16(0xBC02) == Pop([1], false)
    ensures Decode16(0xBD01) == Pop([0], true)
    ensures !IsThumb32(0xBC01) && !IsThumb32(0xBC02) && !IsThumb32(0xBD01)
  {
    hide Decode16, IsThumb32;
    Decodes16(0xBC, 1);
    Decodes16(0xBC, 2);
    Decodes16(0xBD, 1);
  }

  /** PUSH {Rx} as the first instruction. */
  lemma SaveRuns(sem: Sem, p: Word32, words: seq<Half>, rx: nat, c: Machine)
    requires CodeAt(c.rest.mem, p, words) && p + 2 * |words| < CODE_END && StackApart(Sp(c), p, 2 * |words|)
    requires rx < 2 && words != [] && words[0] == if rx == 0 then 0xB401 else 0xB402
    ensures Reaches(sem, At(p, c), At(p + 2, Saved(c, rx))) && CodeAt(Saved(c, rx).rest.mem, p, words)
  {
    hide CodeAt, Reaches, Decode16, IsThumb32;
    ReachesSelf(sem, At(p, c));
    DecodePush();
    Executes16(sem, At(p, c), p, words, 0, c);
    CodeKept(c.rest.mem, Sp(c) - 4, c.rest.r[rx], p, words);
    assert [rx][0] == rx;
  }

  /** POP {Rx} brings the register back, whatever was done to it and to others since. */
  lemma RestoreRuns(sem: Sem, s: Cpu, p: Word32, words: seq<Half>, i: nat, rx: nat, c: Machine, d: Machine)
    requires CodeAt(d.rest.mem, p, words) && p + 2 * |words| < CODE_END && Sp(c) >= 8
    requires rx < 2 && i < |words| && words[i] == if rx == 0 then 0xBC01 else 0xBC02
    requires d.rest.mem == Saved(c, rx).rest.mem && Sp(d) == Sp(c) - 4 && Reaches(sem, s, At(p + 2 * i, d))
    ensures Reaches(sem, s, At(p + 2 * (i + 1), SetReg(SetReg(d, rx, c.rest.r[rx]), SP, Sp(c))))
  {
    hide CodeAt, Reaches, Decode16, IsThumb32, WordFrom, PutWord;
    DecodePop();
    Executes16(sem, s, p, words, i, d);
    WordKept(c.rest.mem, Sp(c) - 4, c.rest.r[rx], 0);
    assert [rx][0] == rx;
  }

  lemma SavedIsBelow(c: Machine, rx: nat, a: int)
    requires rx < 13 && Sp(c) >= 8
    ensures !(Sp(c) - 8 <= a < Sp(c)) ==> Saved(c, rx).rest.mem(a) == c.rest.mem(a)
  {
  }

  lemma AddByte(dn: nat, rm: nat, low: nat)
    requires dn < 2 && rm < 8 && low < 8
    ensures var b := 0x80 * dn + 8 * rm + low; b < 0x100 && b / 0x80 == dn && b % 8 == low && b / 8 % 16 == rm
  {
    var b := 0x80 * dn + 8 * rm + low;
    assert b / 8 == 16 * dn + rm;
  }

  lemma DecodeAdd(dn: nat, rm: nat, low: nat)
    requires dn < 2 && rm < 8 && low < 8 && 8 * dn + low < 15
    ensures var h := 0x4400 + (0x80 * dn + 8 * rm + low);
            Decode16(h) == AddReg(8 * dn + low, rm) && !IsThumb32(h)
  {
    hide Decode16, IsThumb32;
    AddByte(dn, rm, low);
    Decodes16(0x44, 0x80 * dn + 8 * rm + low);
  }

  function AddCode(dn: nat, low: nat, rx: nat, pc: Word32): seq<Half>
    requires dn < 2 && low < 8 && rx < 2
  {
    [if rx == 0 then 0xB401 else 0xB402, 0x4800 + rx * 0x100 + 2, 0x4400 + (0x80 * dn + 8 * rx + low),
     if rx == 0 then 0xBC01 else 0xBC02, 0xE002, NOP, Low(pc), High(pc)]
  }

  /** The two instructions between saving and restoring the borrowed register. */
  lemma AddPcRuns(sem: Sem, s: Cpu, p: Word32, dn: nat, low: nat, rx: nat, pc: Word32, c: Machine)
    requires dn < 2 && low < 8 && rx < 2 && 8 * dn + low < 15 && 8 * dn + low != rx
    requires CodeAt(c.rest.mem, p, AddCode(dn, low, rx, pc)) && p % 4 == 0 && p + 16 < CODE_END && Reaches(sem, s, At(p + 2, c))
    ensures var rd := 8 * dn + low; Reaches(sem, s, At(p + 6, SetReg(SetReg(c, rx, pc), rd, Sum32(c.rest.r[rd], pc))))
  {
    hide CodeAt, Reaches, Low, High, Decode16, IsThumb32, HalfAt, WordFrom, Align4;
    var words := AddCode(dn, low, rx, pc);
    DecodeLdrLow(rx, 2);
    Executes16(sem, s, p, words, 1, c);
    AddressAt(c.rest.mem, p, words, 6, pc);
    AlignedUp(p);
    DecodeAdd(dn, rx, low);
    Executes16(sem, s, p, words, 2, SetReg(c, rx, pc));
  }

  /** What is left when the borrowed register is back: only Rd, if anything, has changed. */
  lemma BorrowedIsBack(c: Machine, d: Machine, rx: nat, borrowed: Word32, rd: nat, x: Word32)
    requires rx < 13 && rd < 15 && rd != SP && Sp(c) >= 8 && (rd == rx ==> x == c.rest.r[rx])
    requires d == SetReg(SetReg(Saved(c, rx), rx, borrowed), rd, x)
    ensures d.rest.mem == Saved(c, rx).rest.mem && Sp(d) == Sp(c) - 4
    ensures var e := SetReg(SetReg(d, rx, c.rest.r[rx]), SP, Sp(c));
            && e.flags == c.flags && e.rest.fp == c.rest.fp && e.rest.mem == Saved(c, rx).rest.mem
            && e.rest.r == c.rest.r[rd := x]
  {
    hide PutWord;
    var e := SetReg(SetReg(d, rx, c.rest.r[rx]), SP, Sp(c));
    assert e.rest.r == c.rest.r[rd := x];
  }

  lemma AllIsBack(c: Machine, d: Machine, rx: nat, borrowed: Word32)
    requires rx < 13 && Sp(c) >= 8 && d == SetReg(Saved(c, rx), rx, borrowed)
    ensures d.rest.mem == Saved(c, rx).rest.mem && Sp(d) == Sp(c) - 4
    ensures SetReg(SetReg(d, rx, c.rest.r[rx]), SP, Sp(c)) == SetMem(c, Saved(c, rx).rest.mem)
  {
    hide PutWord;
    assert SetReg(SetReg(d, rx, c.rest.r[rx]), SP, Sp(c)).rest.r == c.rest.r;
  }

  /** ADD Rd, PC with a borrowed register. */
  lemma AddRuns(sem: Sem, p: Word32, dn: nat, low: nat, rx: nat, pc: Word32, c: Machine) returns (e: Machine)
    requires dn < 2 && low < 8 && rx < 2 && 8 * dn + low < 15 && 8 * dn + low != SP && 8 * dn + low != rx
    requires CodeAt(c.rest.mem, p, AddCode(dn, low, rx, pc)) && p % 4 == 0 && p + 16 < CODE_END && StackApart(Sp(c), p, 16)
    ensures Reaches(sem, At(p, c), At(p + 16, e)) && e.rest.mem == Saved(c, rx).rest.mem
    ensures var rd := 8 * dn + low;
            && e.flags == c.flags && e.rest.fp == c.rest.fp
            && e.rest.r == c.rest.r[rd := Sum32(c.rest.r[rd], pc)]
  {
    hide CodeAt, Reaches, Low, High, Decode16, IsThumb32, HalfAt, WordFrom, PutWord, Align4, Saved, Sum32;
    var words, s := AddCode(dn, low, rx, pc), At(p, c);
    var rd := 8 * dn + low;
    var x := Sum32(c.rest.r[rd], pc);
    SaveRuns(sem, p, words, rx, c);
    var c1 := Saved(c, rx);
    SavedRegister(c, rx, rd);
    AddPcRuns(sem, s, p, dn, low, rx, pc, c1);
    var c3 := SetReg(SetReg(c1, rx, pc), rd, x);
    BorrowedIsBack(c, c3, rx, pc, rd, x);
    RestoreRuns(sem, s, p, words, 3, rx, c, c3);
    e := SetReg(SetReg(c3, rx, c.rest.r[rx]), SP, Sp(c));
    DecodeSkips(0);
    Executes16(sem, s, p, words, 4, e);
  }

  lemma SavedRegister(c: Machine, rx: nat, n: nat)
    requires rx < 13 && n < 15 && n != SP && Sp(c) >= 8
    ensures Saved(c, rx).rest.r[n] == c.rest.r[n]
  {
  }

  lemma AddWords(h: Half, pc: Word32, info: Info)
    requires T16TypeOf(h).ADD_REG_T2?
    ensures var dn, low := h / 0x80 % 2, h % 8;
            var rd := 8 * dn + low;
            rd != SP && RewriteT16(h, pc, info) == AddCode(dn, low, if rd == 0 then 1 else 0, pc)
  {
    hide Low, High, And;
    AddIsNotToSp(h);
    AddFields(h);
    hide T16TypeOf;
  }

  lemma AddCodeLength(dn: nat, low: nat, rx: nat, pc: Word32)
    requires dn < 2 && low < 8 && rx < 2
    ensures |AddCode(dn, low, rx, pc)| == 8
  {
  }

  lemma AddExec(sem: Sem, h: Half, pc: Word32, c: Machine)
    requires Known(T16(h)) && T16TypeOf(h).ADD_REG_T2?
    ensures var rd := h / 0x80 % 2 * 8 + h % 8;
            rd < 15 && Exec(sem, T16(h), pc, c) == Next(SetReg(c, rd, Sum32(c.rest.r[rd], pc)))
  {
    hide T16TypeOf, T32TypeOf;
  }

  lemma AddEnds(sem: Sem, h: Half, pc: Word32, info: Info, p: Word32, c: Machine) returns (e: Machine)
    requires Known(T16(h)) && T16TypeOf(h).ADD_REG_T2?
    requires var words := RewriteT16(h, pc, info);
             && CodeAt(c.rest.mem, p, words) && p % 4 == 0 && p + 2 * |words| < CODE_END
             && StackApart(Sp(c), p, 2 * |words|)
    ensures Ends(sem, T16(h), pc, info, p, 2 * |RewriteT16(h, pc, info)|, c, e)
  {
    AddExec(sem, h, pc, c);
    hide T16TypeOf, RewriteT16, CodeAt, Reaches, Saved, AddCode, Exec, Known, T32TypeOf, Sum32;
    var dn, low := h / 0x80 % 2, h % 8;
    var rx := if 8 * dn + low == 0 then 1 else 0;
    AddWords(h, pc, info);
    AddCodeLength(dn, low, rx, pc);
    e := AddRuns(sem, p, dn, low, rx, pc, c);
    forall a | !(Sp(c) - 8 <= a < Sp(c)) ensures e.rest.mem(a) == c.rest.mem(a) {
      SavedIsBelow(c, rx, a);
    }
  }

  /** A load relative to PC two bytes behind a multiple of four. */
  lemma AlignedUp(p: Word32)
    requires p % 4 == 0 && p + 6 < 0x1_0000_0000
    ensures Align4(p + 6) == p + 4
  {
  }

  function PlCode(data: bool, addr: Word32): seq<Half> {
    [0xB401, NOP, 0xF8DF, 0x0008, if data then 0xF890 else 0xF990, 0xF000, 0xBC01, 0xE001, Low(addr), High(addr)]
  }

  lemma PlRuns(sem: Sem, p: Word32, data: bool, addr: Word32, c: Machine) returns (e: Machine)
    requires CodeAt(c.rest.mem, p, PlCode(data, addr)) && p % 4 == 0 && p + 20 < CODE_END && StackApart(Sp(c), p, 20)
    ensures Reaches(sem, At(p, c), At(p + 20, e)) && e == SetMem(c, Saved(c, 0).rest.mem)
  {
    hide CodeAt, Reaches, Low, High, Decode16, Decode32, IsThumb32, HalfAt, WordFrom, PutWord, Align4, Saved;
    var words, s := PlCode(data, addr), At(p, c);
    SaveRuns(sem, p, words, 0, c);
    var c1 := Saved(c, 0);
    DecodeSkips(0);
    Executes16(sem, s, p, words, 1, c1);
    LoadAddrStep(sem, s, p, words, 2, 0, 8, 8, addr, c1);
    var c2 := SetReg(c1, 0, addr);
    DecodePreload();
    Executes32(sem, s, p, words, 4, c2);
    AllIsBack(c, c2, 0, addr);
    RestoreRuns(sem, s, p, words, 6, 0, c, c2);
    e := SetReg(SetReg(c2, 0, c.rest.r[0]), SP, Sp(c));
    Executes16(sem, s, p, words, 7, e);
  }

  lemma DecodePreload()
    ensures Decode32(0xF890, 0xF000) == Decode32(0xF990, 0xF000) == Preload && IsThumb32(0xF890) && IsThumb32(0xF990)
  {
    hide Decode32, IsThumb32;
    Decodes32(0xF89, 0, 0xF, 0);
    Decodes32(0xF99, 0, 0xF, 0);
  }

  lemma PlEnds(sem: Sem, high: Half, low: Half, pc: Word32, info: Info, p: Word32, c: Machine) returns (e: Machine)
    requires Known(T32(high, low)) && T32TypeOf(high, low) in {PLD_LIT_T1, PLI_LIT_T3}
    requires var words := RewriteT32(high, low, pc, info);
             && CodeAt(c.rest.mem, p, words) && p % 4 == 0 && p + 2 * |words| < CODE_END
             && StackApart(Sp(c), p, 2 * |words|)
    ensures Ends(sem, T32(high, low), pc, info, p, 2 * |RewriteT32(high, low, pc, info)|, c, e)
  {
    hide T32TypeOf, CodeAt, Reaches, Low, High, FixAddr, Literal, Saved;
    var addr := FixAddr(Literal(high, pc, low % 0x1000), info);
    e := PlRuns(sem, p, T32TypeOf(high, low).PLD_LIT_T1?, addr, c);
    forall a | !(Sp(c) - 8 <= a < Sp(c)) ensures e.rest.mem(a) == c.rest.mem(a) {
      SavedIsBelow(c, 0, a);
    }
  }

  /** What is read is not what the image keeps on the stack. */
  predicate LiteralApart(sp: Word32, addr: Word32, n: nat) {
    8 <= sp && (addr + n <= sp - 8 || sp <= addr)
  }

  function FpSize(size: nat): nat {
    if size == 1 then 2 else if size == 2 then 4 else 8
  }

  function VldrCode(size: nat, d: nat, vd: nat, addr: Word32): seq<Half>
    requires 1 <= size <= 3 && d < 2 && vd < 16
  {
    [0xB401, NOP, 0xF8DF, 0x0004, 0xE002, NOP, Low(addr), High(addr), 0xED90 + d * 0x40,
     vd * 0x1000 + 0x800 + size * 0x100, 0xBC01, NOP]
  }

  lemma DecodeVldr(size: nat, d: nat, vd: nat)
    requires 1 <= size <= 3 && d < 2 && vd < 16
    ensures var h := 0xED90 + d * 0x40;
            Decode32(h, vd * 0x1000 + 0x800 + size * 0x100) == Vldr(size, d, vd, 0) && IsThumb32(h)
  {
    hide Decode32, IsThumb32;
    Decodes32(0xED9 + 4 * d, 0, vd, 0x800 + size * 0x100);
  }

  /** What a load into a floating-point register reads was not touched by the saved register. */
  lemma FpReadsTheSame(c: Machine, size: nat, d: nat, vd: nat, addr: Word32, e: Machine)
    requires 1 <= size <= 3 && d < 2 && vd < 16 && LiteralApart(Sp(c), addr, FpSize(size))
    requires e.rest.mem == Saved(c, 0).rest.mem && e.rest.fp == c.rest.fp
    ensures LoadFp(e, size, d, vd, addr).rest.fp == LoadFp(c, size, d, vd, addr).rest.fp
  {
    hide PutWord;
    var a, w := Sp(c) - 4, c.rest.r[0];
    WordKept(c.rest.mem, a, w, addr);
    WordKept(c.rest.mem, a, w, addr + 4);
    HalfKept(c.rest.mem, a, w, addr);
    hide WordFrom, HalfAt;
  }

  lemma HalfKept(m: Ram, a: int, w: Word32, b: int)
    requires b + 2 <= a || a + 4 <= b
    ensures HalfAt(PutWord(m, a, w), b) == HalfAt(m, b)
  {
  }

  lemma VldrRuns(sem: Sem, p: Word32, size: nat, d: nat, vd: nat, addr: Word32, c: Machine) returns (e: Machine)
    requires 1 <= size <= 3 && d < 2 && vd < 16 && LiteralApart(Sp(c), addr, FpSize(size))
    requires CodeAt(c.rest.mem, p, VldrCode(size, d, vd, addr)) && p % 4 == 0 && p + 24 < CODE_END
    requires StackApart(Sp(c), p, 24)
    ensures Reaches(sem, At(p, c), At(p + 24, e)) && e == SetMem(LoadFp(c, size, d, vd, addr), Saved(c, 0).rest.mem)
  {
    hide CodeAt, Reaches, Low, High, Decode16, Decode32, IsThumb32, HalfAt, WordFrom, PutWord, Align4, LoadFp;
    var words, s := VldrCode(size, d, vd, addr), At(p, c);
    SaveRuns(sem, p, words, 0, c);
    var c1 := Saved(c, 0);
    DecodeSkips(0);
    Executes16(sem, s, p, words, 1, c1);
    LoadAddrStep(sem, s, p, words, 2, 0, 4, 6, addr, c1);
    var c2 := SetReg(c1, 0, addr);
    Executes16(sem, s, p, words, 4, c2);
    DecodeVldr(size, d, vd);
    Executes32(sem, s, p, words, 8, c2);
    var c3 := LoadFp(c2, size, d, vd, addr);
    FpReadsTheSame(c, size, d, vd, addr, c2);
    LoadFpFrame(c2, size, d, vd, addr);
    LoadFpFrame(c, size, d, vd, addr);
    RestoreRuns(sem, s, p, words, 10, 0, c, c3);
    e := SetReg(SetReg(c3, 0, c.rest.r[0]), SP, Sp(c));
    Executes16(sem, s, p, words, 11, e);
    assert e.rest.r == c.rest.r;
  }

  lemma LoadFpFrame(c: Machine, size: nat, d: nat, vd: nat, addr: Word32)
    requires 1 <= size <= 3 && d < 2 && vd < 16
    ensures var e := LoadFp(c, size, d, vd, addr); e == c.(rest := c.rest.(fp := e.rest.fp))
  {
    hide WordFrom, HalfAt;
  }

  lemma VldrEnds(sem: Sem, high: Half, low: Half, pc: Word32, info: Info, p: Word32, c: Machine) returns (e: Machine)
    requires Known(T32(high, low)) && T32TypeOf(high, low).VLDR_LIT_T1? && RewriteT32(high, low, pc, info) != []
    requires var words := RewriteT32(high, low, pc, info);
             && CodeAt(c.rest.mem, p, words) && p % 4 == 0 && p + 2 * |words| < CODE_END
             && StackApart(Sp(c), p, 2 * |words|)
    requires var size := low / 0x100 % 4;
             LiteralApart(Sp(c), Literal32(high, pc, low % 0x100 * if size == 1 then 2 else 4), FpSize(size))
    ensures Ends(sem, T32(high, low), pc, info, p, 2 * |RewriteT32(high, low, pc, info)|, c, e)
  {
    hide T32TypeOf, CodeAt, Reaches, Low, High, IsAddrNeedFix, Literal, Literal32, Saved, LoadFp, LiteralApart;
    var size, d, vd := low / 0x100 % 4, high / 0x40 % 2, low / 0x1000;
    LiteralSame(high, pc, low % 0x100 * if size == 1 then 2 else 4);
    var addr := Literal32(high, pc, low % 0x100 * if size == 1 then 2 else 4);
    e := VldrRuns(sem, p, size, d, vd, addr, c);
    LoadFpFrame(c, size, d, vd, addr);
    forall a | !(Sp(c) - 8 <= a < Sp(c)) ensures e.rest.mem(a) == c.rest.mem(a) {
      SavedIsBelow(c, 0, a);
    }
  }

  // LDR PC from a literal: two registers are saved, and the second one is traded for the address.

  function LdrPcCode(addr: Word32): seq<Half> {
    [0xB403, NOP, 0xF8DF, 0x0004, 0xE002, NOP, Low(addr), High(addr), 0xF8D0, 0x0000, 0x9001, 0xBD01]
  }

  function SavedTwo(c: Machine): Machine
    requires Sp(c) >= 8
  {
    var m := PutWord(PutWord(c.rest.mem, Sp(c) - 8, c.rest.r[0]), Sp(c) - 4, c.rest.r[1]);
    SetReg(SetMem(c, m), SP, Sp(c) - 8)
  }

  lemma SaveTwoRuns(sem: Sem, p: Word32, words: seq<Half>, c: Machine)
    requires CodeAt(c.rest.mem, p, words) && p + 2 * |words| < CODE_END && StackApart(Sp(c), p, 2 * |words|)
    requires words != [] && words[0] == 0xB403
    ensures Reaches(sem, At(p, c), At(p + 2, SavedTwo(c))) && CodeAt(SavedTwo(c).rest.mem, p, words)
  {
    hide CodeAt, Reaches, Decode16, IsThumb32, PutWord;
    ReachesSelf(sem, At(p, c));
    DecodePush();
    Executes16(sem, At(p, c), p, words, 0, c);
    CodeKept(c.rest.mem, Sp(c) - 8, c.rest.r[0], p, words);
    CodeKept(PutWord(c.rest.mem, Sp(c) - 8, c.rest.r[0]), Sp(c) - 4, c.rest.r[1], p, words);
    assert [0, 1][0] == 0 && [0, 1][1] == 1;
  }

  lemma ReadRuns(sem: Sem, s: Cpu, p: Word32, words: seq<Half>, i: nat, c: Machine)
    requires CodeAt(c.rest.mem, p, words) && p + 2 * |words| < CODE_END && i + 1 < |words|
    requires words[i] == 0xF8D0 && words[i + 1] == 0 && Reaches(sem, s, At(p + 2 * i, c))
    ensures Reaches(sem, s, At(p + 2 * (i + 2), SetReg(c, 0, WordFrom(c.rest.mem, c.rest.r[0]))))
  {
    hide CodeAt, Reaches, Decode32, IsThumb32, HalfAt, WordFrom;
    Decodes32(0xF8D, 0, 0, 0);
    assert Decode32(0xF8D0, 0) == Load(W, 0, 0, 0) && IsThumb32(0xF8D0);
    Executes32(sem, s, p, words, i, c);
  }

  lemma StoreRuns(sem: Sem, s: Cpu, p: Word32, words: seq<Half>, i: nat, c: Machine)
    requires CodeAt(c.rest.mem, p, words) && p + 2 * |words| < CODE_END && i < |words|
    requires words[i] == 0x9001 && Reaches(sem, s, At(p + 2 * i, c))
    ensures Reaches(sem, s, At(p + 2 * (i + 1), SetMem(c, PutWord(c.rest.mem, Sp(c) + 4, c.rest.r[0]))))
  {
    hide CodeAt, Reaches, Decode16, IsThumb32, PutWord;
    DecodeStr();
    Executes16(sem, s, p, words, i, c);
  }

  lemma PopPcRuns(sem: Sem, s: Cpu, p: Word32, words: seq<Half>, i: nat, c: Machine)
    requires CodeAt(c.rest.mem, p, words) && p + 2 * |words| < CODE_END && i < |words|
    requires words[i] == 0xBD01 && Reaches(sem, s, At(p + 2 * i, c)) && Sp(c) + 8 < 0x1_0000_0000
    ensures Reaches(sem, s, Gone(WordFrom(c.rest.mem, Sp(c) + 4), SetReg(SetReg(c, 0, WordFrom(c.rest.mem, Sp(c))), SP, Sp(c) + 8)))
  {
    hide CodeAt, Reaches, Decode16, IsThumb32, HalfAt, WordFrom;
    DecodePop();
    Executes16(sem, s, p, words, i, c);
    assert [0][0] == 0;
  }

  /** The literal is read, put over the saved R1, and popped into PC. */
  lemma TradeRuns(sem: Sem, s: Cpu, p: Word32, words: seq<Half>, d: Machine, value: Word32, r0: Word32) returns (e: Machine)
    requires CodeAt(d.rest.mem, p, words) && p + 24 < CODE_END && |words| == 12
    requires words[8] == 0xF8D0 && words[9] == 0 && words[10] == 0x9001 && words[11] == 0xBD01
    requires Sp(d) + 8 < 0x1_0000_0000 && (Sp(d) + 8 <= p || p + 24 <= Sp(d))
    requires Reaches(sem, s, At(p + 16, d)) && WordFrom(d.rest.mem, d.rest.r[0]) == value && WordFrom(d.rest.mem, Sp(d)) == r0
    ensures e == SetReg(SetReg(SetMem(d, PutWord(d.rest.mem, Sp(d) + 4, value)), 0, r0), SP, Sp(d) + 8)
    ensures Reaches(sem, s, Gone(value, e))
  {
    hide CodeAt, Reaches, HalfAt, WordFrom, PutWord;
    ReadRuns(sem, s, p, words, 8, d);
    var d1 := SetReg(d, 0, value);
    StoreRuns(sem, s, p, words, 10, d1);
    var m := PutWord(d.rest.mem, Sp(d) + 4, value);
    var d2 := SetMem(d1, m);
    WordKept(d.rest.mem, Sp(d) + 4, value, Sp(d));
    CodeKept(d.rest.mem, Sp(d) + 4, value, p, words);
    PopPcRuns(sem, s, p, words, 11, d2);
    e := SetReg(SetReg(d2, 0, r0), SP, Sp(d) + 8);
    SetTwice(SetMem(d, m), 0, value, r0);
  }

  lemma SavedTwoReads(c: Machine, addr: Word32)
    requires LiteralApart(Sp(c), addr, 4)
    ensures var m := SavedTwo(c).rest.mem;
            WordFrom(m, addr) == WordFrom(c.rest.mem, addr) && WordFrom(m, Sp(c) - 8) == c.rest.r[0]
  {
    hide WordFrom, PutWord;
    var sp := Sp(c);
    var m1 := PutWord(c.rest.mem, sp - 8, c.rest.r[0]);
    WordKept(c.rest.mem, sp - 8, c.rest.r[0], addr);
    WordKept(m1, sp - 4, c.rest.r[1], addr);
    WordKept(m1, sp - 4, c.rest.r[1], sp - 8);
  }

  lemma DecodeStr()
    ensures Decode16(0x9001) == StrSp(0, 4) && !IsThumb32(0x9001)
  {
    hide Decode16, IsThumb32;
    Decodes16(0x90, 1);
  }

  lemma LdrPcRuns(sem: Sem, p: Word32, addr: Word32, c: Machine) returns (e: Machine)
    requires LiteralApart(Sp(c), addr, 4) && CodeAt(c.rest.mem, p, LdrPcCode(addr)) && p % 4 == 0 && p + 24 < CODE_END
    requires StackApart(Sp(c), p, 24)
    ensures e.flags == c.flags && e.rest.r == c.rest.r && e.rest.fp == c.rest.fp
    ensures e.rest.mem == PutWord(SavedTwo(c).rest.mem, Sp(c) - 4, WordFrom(c.rest.mem, addr))
    ensures Reaches(sem, At(p, c), Gone(WordFrom(c.rest.mem, addr), e))
  {
    hide CodeAt, Reaches, Low, High, Decode16, Decode32, IsThumb32, HalfAt, WordFrom, PutWord, SavedTwo;
    var words, s := LdrPcCode(addr), At(p, c);
    SaveTwoRuns(sem, p, words, c);
    var c1 := SavedTwo(c);
    SavedTwoIs(c);
    DecodeSkips(0);
    Executes16(sem, s, p, words, 1, c1);
    LoadAddrStep(sem, s, p, words, 2, 0, 4, 6, addr, c1);
    var c2 := SetReg(c1, 0, addr);
    Executes16(sem, s, p, words, 4, c2);
    SavedTwoReads(c, addr);
    e := TradeRuns(sem, s, p, words, c2, WordFrom(c.rest.mem, addr), c.rest.r[0]);
    assert e.rest.r == c.rest.r;
  }

  lemma SavedTwoIs(c: Machine)
    requires Sp(c) >= 8
    ensures SavedTwo(c).rest.r == c.rest.r[SP := Sp(c) - 8] && SavedTwo(c).rest.fp == c.rest.fp
            && SavedTwo(c).flags == c.flags
  {
  }

  lemma LdrPcEnds(sem: Sem, high: Half, low: Half, pc: Word32, info: Info, p: Word32, c: Machine) returns (e: Machine)
    requires Known(T32(high, low)) && T32TypeOf(high, low).LDR_LIT_PC_T2? && RewriteT32(high, low, pc, info) != []
    requires var words := RewriteT32(high, low, pc, info);
             && CodeAt(c.rest.mem, p, words) && p % 4 == 0 && p + 2 * |words| < CODE_END
             && StackApart(Sp(c), p, 2 * |words|)
    requires LiteralApart(Sp(c), Literal32(high, pc, low % 0x1000), 4)
    ensures Ends(sem, T32(high, low), pc, info, p, 2 * |RewriteT32(high, low, pc, info)|, c, e)
  {
    hide T32TypeOf, CodeAt, Reaches, Low, High, IsAddrNeedFix, Literal, Literal32, LiteralApart, WordFrom;
    LiteralSame(high, pc, low % 0x1000);
    var addr := Literal32(high, pc, low % 0x1000);
    PcLoadType(high, low);
    LoadsPc(high, low);
    e := LdrPcRuns(sem, p, addr, c);
  }

  // All classes together.

  /** The literal of a load, if the instruction is one that needs the stack to load it. */
  predicate StackLoadApart(i: Instr, pc: Word32, sp: Word32) {
    i.T32? ==>
      var t := T32TypeOf(i.high, i.low);
      && (t.LDR_LIT_PC_T2? ==> LiteralApart(sp, Literal32(i.high, pc, i.low % 0x1000), 4))
      && (t.VLDR_LIT_T1? ==>
            LiteralApart(sp, Literal32(i.high, pc, i.low % 0x100 * if i.low / 0x100 % 4 == 1 then 2 else 4),
                         FpSize(i.low / 0x100 % 4)))
  }

  predicate IsMovPc(i: Instr) {
    i.T16? && T16TypeOf(i.inst).MOV_REG_T1? && i.inst / 0x80 % 2 * 8 + i.inst % 8 == 15
  }

  /** Only a call uses the address of its successor. */
  lemma PlainEffect(sem: Sem, i: Instr, op: Op, next: Word32, next': Word32, c: Machine)
    requires Fits(op) && !UsesPc(op) && !op.Blx?
    ensures Effect(sem, i, op, next, c) == Effect(sem, i, op, next', c)
  {
    hide LoadInto, LoadFp, WordFrom, PutWord, Sum32;
  }

  lemma NoCall32(high: Half, low: Half)
    ensures !Decode32(high, low).Blx?
  {
  }

  lemma HalfOf(k: nat)
    ensures 2 * k / 2 == k
  {
  }

  lemma ReturnsOdd(p: Word32)
    requires p % 4 == 0 && p + 3 < 0x1_0000_0000
    ensures SetBit0(p + 2) == p + 3
  {
    var q := p / 4;
    HalfOf(2 * q + 1);
    assert p + 2 == 2 * (2 * q + 1);
  }

  /** An instruction that is not rewritten must not write over its image: a 16-bit one has a NOP behind it. */
  ghost predicate SparesImage(sem: Sem, i: Instr, pc: Word32, p: int, len: nat, c: Machine)
    requires Known(i)
  {
    IsPlain(i) ==> forall a | p <= a < p + len :: Exec(sem, i, pc, c).core.rest.mem(a) == c.rest.mem(a)
  }

  /** What is not rewritten does at its new place what it did at the old one. */
  lemma Plain16Ends(sem: Sem, h: Half, pc: Word32, info: Info, p: Word32, c: Machine) returns (e: Machine)
    requires Known(T16(h)) && T16TypeOf(h).IGNORED16? && SparesImage(sem, T16(h), pc, p, 4, c)
    requires var words := RewriteT16(h, pc, info); CodeAt(c.rest.mem, p, words) && p % 4 == 0 && p + 2 * |words| < CODE_END
    ensures Ends(sem, T16(h), pc, info, p, 2 * |RewriteT16(h, pc, info)|, c, e)
  {
    hide T16TypeOf, CodeAt, Reaches, Decode16, IsThumb32, SetBit0, Effect;
    var words, op := [h, NOP], Decode16(h);
    ReachesSelf(sem, At(p, c));
    Executes16(sem, At(p, c), p, words, 0, c);
    if op.Blx? {
      ReturnsOdd(p);
      CallEffect(sem, T16(h), op, p + 2, c);
      CallEffect(sem, T16(h), op, Wrap32(pc - 2), c);
      e := SetReg(c, LR, p + 3);
      SetTwice(c, LR, SetBit0(Wrap32(pc - 2)), p + 3);
    } else {
      PlainEffect(sem, T16(h), op, Wrap32(pc - 2), p + 2, c);
      var o := Effect(sem, T16(h), op, p + 2, c);
      e := o.core;
      if o.Next? {
        DecodeSkips(0);
        BytesAreCode(c.rest.mem, e.rest.mem, p, words);
        Executes16(sem, At(p, c), p, words, 1, e);
        NopEffect(sem, p + 4, e);
      }
    }
  }

  lemma BytesAreCode(m: Ram, m': Ram, p: int, words: seq<Half>)
    requires CodeAt(m, p, words) && forall a | p <= a < p + 2 * |words| :: m'(a) == m(a)
    ensures CodeAt(m', p, words)
  {
  }

  lemma CallEffect(sem: Sem, i: Instr, op: Op, next: Word32, c: Machine)
    requires Fits(op) && op.Blx?
    ensures Effect(sem, i, op, next, c) == Taken(SetReg(c, LR, SetBit0(next)), c.rest.r[op.rm])
  {
  }

  lemma NopEffect(sem: Sem, next: Word32, c: Machine)
    ensures Effect(sem, T16(NOP), Nop, next, c) == Next(c)
  {
  }

  lemma Plain32Ends(sem: Sem, high: Half, low: Half, pc: Word32, info: Info, p: Word32, c: Machine) returns (e: Machine)
    requires Known(T32(high, low)) && T32TypeOf(high, low).IGNORED32?
    requires var words := RewriteT32(high, low, pc, info);
             CodeAt(c.rest.mem, p, words) && p % 4 == 0 && p + 2 * |words| < CODE_END
    ensures Ends(sem, T32(high, low), pc, info, p, 2 * |RewriteT32(high, low, pc, info)|, c, e)
  {
    hide T32TypeOf, CodeAt, Reaches, Decode32, IsThumb32, Effect;
    var op := Decode32(high, low);
    NoCall32(high, low);
    ReachesSelf(sem, At(p, c));
    Executes32(sem, At(p, c), p, [high, low], 0, c);
    PlainEffect(sem, T32(high, low), op, pc, p + 4, c);
    e := Effect(sem, T32(high, low), op, p + 4, c).core;
  }

  /** The stack has room below SP, away from the image, and what is loaded lies elsewhere. */
  predicate StackReady(i: Instr, pc: Word32, p: int, len: nat, sp: Word32) {
    (Borrows(i) ==> StackApart(sp, p, len)) && StackLoadApart(i, pc, sp)
  }

  lemma PlainLength(h: Half, pc: Word32, info: Info)
    ensures T16TypeOf(h).IGNORED16? ==> |RewriteT16(h, pc, info)| == 2
  {
    hide T16TypeOf;
  }

  lemma ImageEnds16(sem: Sem, h: Half, pc: Word32, info: Info, p: Word32, c: Machine) returns (e: Machine)
    requires Known(T16(h)) && !IsMovPc(T16(h)) && RewriteT16(h, pc, info) != []
    requires var words := RewriteT16(h, pc, info);
             && CodeAt(c.rest.mem, p, words) && p % 4 == 0 && p + 2 * |words| < CODE_END
             && StackReady(T16(h), pc, p, 2 * |words|, Sp(c)) && SparesImage(sem, T16(h), pc, p, 2 * |words|, c)
    ensures Ends(sem, T16(h), pc, info, p, 2 * |RewriteT16(h, pc, info)|, c, e)
  {
    hide T16TypeOf, CodeAt, RewriteT16, Ends, StackApart, SparesImage;
    PlainLength(h, pc, info);
    e := c;
    match T16TypeOf(h)
    case IGNORED16 => e := Plain16Ends(sem, h, pc, info, p, c);
    case B_T1 | B_T2 | BX_T1 => B16Ends(sem, h, pc, info, p, c);
    case CBZ_T1 | CBNZ_T1 => CbEnds(sem, h, pc, info, p, c);
    case ADD_REG_T2 => e := AddEnds(sem, h, pc, info, p, c);
    case MOV_REG_T1 => e := MovEnds(sem, h, pc, info, p, c);
    case ADR_T1 => e := Adr16Ends(sem, h, pc, info, p, c);
    case LDR_LIT_T1 => e := Ldr16Ends(sem, h, pc, info, p, c);
  }

  lemma ImageEnds32(sem: Sem, high: Half, low: Half, pc: Word32, info: Info, p: Word32, c: Machine) returns (e: Machine)
    requires Known(T32(high, low)) && RewriteT32(high, low, pc, info) != []
    requires var words := RewriteT32(high, low, pc, info);
             && CodeAt(c.rest.mem, p, words) && p % 4 == 0 && p + 2 * |words| < CODE_END
             && StackReady(T32(high, low), pc, p, 2 * |words|, Sp(c))
    ensures Ends(sem, T32(high, low), pc, info, p, 2 * |RewriteT32(high, low, pc, info)|, c, e)
  {
    hide T32TypeOf, CodeAt, RewriteT32, Ends, StackApart, LiteralApart, Literal32;
    match T32TypeOf(high, low)
    case IGNORED32 => e := Plain32Ends(sem, high, low, pc, info, p, c);
    case B_T3 | B_T4 | BL_IMM_T1 | BLX_IMM_T2 => e := B32Ends(sem, high, low, pc, info, p, c);
    case ADR_T2 | ADR_T3 => e := Adr32Ends(sem, high, low, pc, info, p, c);
    case LDR_LIT_T2 | LDRB_LIT_T1 | LDRD_LIT_T1 | LDRH_LIT_T1 | LDRSB_LIT_T1 | LDRSH_LIT_T1 =>
      e := Load32Ends(sem, high, low, pc, info, p, c);
    case LDR_LIT_PC_T2 => e := LdrPcEnds(sem, high, low, pc, info, p, c);
    case PLD_LIT_T1 | PLI_LIT_T3 => e := PlEnds(sem, high, low, pc, info, p, c);
    case VLDR_LIT_T1 => e := VldrEnds(sem, high, low, pc, info, p, c);
  }

  /** Wherever its image is placed, at a multiple of four, an instruction does what it did where it was: the same
      registers, flags and memory (but for what lies below the stack pointer, where the image borrows a register), the same
      successor or branch target (fixed up when it lies in the window), and a link register that points behind the image. */
  lemma ImageMeans(sem: Sem, i: Instr, pc: Word32, info: Info, p: Word32, c: Machine) returns (e: Machine)
    requires Known(i) && !IsMovPc(i) && Rewrite(i, pc, info) != []
    requires var words := Rewrite(i, pc, info);
             && CodeAt(c.rest.mem, p, words) && p % 4 == 0 && p + 2 * |words| < CODE_END
             && StackReady(i, pc, p, 2 * |words|, Sp(c)) && SparesImage(sem, i, pc, p, 2 * |words|, c)
    ensures Ends(sem, i, pc, info, p, 2 * |Rewrite(i, pc, info)|, c, e)
  {
    hide CodeAt, RewriteT16, RewriteT32, Ends, StackReady, Known, IsMovPc, SparesImage;
    match i
    case T16(h) => e := ImageEnds16(sem, h, pc, info, p, c);
    case T32(high, low) => e := ImageEnds32(sem, high, low, pc, info, p, c);
  }

  /** MOV PC, PC is the exception: it goes on four bytes later in Thumb code, but its image goes there in Arm code. */
  lemma MovPcBreaks(sem: Sem, h: Half, pc: Word32, info: Info, p: Word32, c: Machine)
    requires Known(T16(h)) && IsMovPc(T16(h)) && pc % 2 == 0
    requires CodeAt(c.rest.mem, p, RewriteT16(h, pc, info)) && p % 4 == 0 && p + 12 < CODE_END
    ensures Reaches(sem, At(p, c), Gone(pc, c)) && Exec(sem, T16(h), pc, c) == Taken(c, pc + 1)
  {
    hide T16TypeOf, CodeAt, Reaches, Low, High, HalfAt, WordFrom, Decode32, IsThumb32, Align4;
    var words := RewriteT16(h, pc, info);
    ReachesSelf(sem, At(p, c));
    DecodeLdrPc(15, 4);
    Executes32(sem, At(p, c), p, words, 0, c);
    AddressAt(c.rest.mem, p, words, 4, pc);
    AlignedAt(p, 0);
  }
}
