/** Re-encoding of Arm (A32) instructions and moving a window of one or two of them (arch/arm/sh_a32.c and
    sh_inst_arm_rewrite in arch/arm/sh_inst.c).

    Instructions are integers. A mask is written as the fields that it selects. */
module A32Rewrite {
  import opened Words
  import opened Layout

  function Cond(w: Word32): nat { w / 0x1000_0000 }
  function Op(w: Word32): nat { w / 0x10_0000 % 0x100 }  // bits 27 to 20
  function Rn(w: Word32): nat { w / 0x1_0000 % 0x10 }
  function Rd(w: Word32): nat { w / 0x1000 % 0x10 }
  function Shift(w: Word32): nat { w / 0x10 % 0x100 }    // bits 11 to 4
  function Rm(w: Word32): nat { w % 0x10 }

  function Compose(cond: nat, op: nat, rn: nat, rd: nat, shift: nat, rm: nat): Word32
    requires cond < 16 && op < 256 && rn < 16 && rd < 16 && shift < 256 && rm < 16
  {
    cond * 0x1000_0000 + op * 0x10_0000 + rn * 0x1_0000 + rd * 0x1000 + shift * 0x10 + rm
  }

  datatype Type =
    | IGNORED
    | B_A1 | BX_A1 | BL_IMM_A1 | BLX_IMM_A2
    | ADD_REG_A1 | ADD_REG_PC_A1 | SUB_REG_A1 | SUB_REG_PC_A1
    | ADR_A1 | ADR_A2
    | MOV_REG_A1 | MOV_REG_PC_A1
    | LDR_LIT_A1 | LDR_LIT_PC_A1 | LDRB_LIT_A1 | LDRD_LIT_A1 | LDRH_LIT_A1 | LDRSB_LIT_A1 | LDRSH_LIT_A1
    | LDR_REG_A1 | LDR_REG_PC_A1 | LDRB_REG_A1 | LDRD_REG_A1 | LDRH_REG_A1 | LDRSB_REG_A1 | LDRSH_REG_A1

  /** Bits 24, 22 and 21 of the operation. */
  function BitP(op: nat): nat { op / 0x10 % 2 }
  function BitB(op: nat): nat { op / 4 % 2 }
  function BitW(op: nat): nat { op / 2 % 2 }

  predicate IsAddOrSub(w: Word32, op: nat) {
    && Op(w) / 2 == op && Shift(w) % 2 == 0 && Cond(w) != 15 && !(Op(w) % 2 == 1 && Rd(w) == 15) && Rn(w) != 13
    && (Rn(w) == 15 || Rm(w) == 15)
  }

  /** A load of class 010 (an immediate) relative to PC, pre-indexed and without write-back: bits 27 to 24, 22 to 20. */
  predicate IsLiteral(w: Word32, byte: nat) {
    Op(w) / 0x10 == 5 && BitB(Op(w)) == byte && Op(w) % 4 == 1 && Rn(w) == 15
  }

  /** The same for the short forms of class 000, by bit 20 and bits 7 to 4. */
  predicate IsShortLiteral(w: Word32, bit20: nat, bits: nat) {
    Op(w) / 0x10 == 1 && BitB(Op(w)) == 1 && Op(w) % 4 == bit20 && Rn(w) == 15 && Shift(w) % 0x10 == bits
  }

  /** A load of class 011 (a register) relative to PC. */
  predicate IsRegister(w: Word32, byte: nat) {
    && Op(w) / 0x20 == 3 && BitB(Op(w)) == byte && Op(w) % 2 == 1 && Rn(w) == 15 && Shift(w) % 2 == 0
    && !(BitP(Op(w)) == 0 && BitW(Op(w)) == 1)
  }

  predicate IsShortRegister(w: Word32, bit20: nat, bits: nat) {
    && Op(w) / 0x20 == 0 && BitB(Op(w)) == 0 && Op(w) % 2 == bit20 && Rn(w) == 15 && Shift(w) == bits
    && !(BitP(Op(w)) == 0 && BitW(Op(w)) == 1)
  }

  /** sh_a32_get_type */
  function GetType(w: Word32): Type {
    var plain := Cond(w) != 15;
    if Op(w) / 0x10 == 0xA && plain then B_A1
    else if w % 0x1000_0000 == 0x012F_FF1F && plain then BX_A1
    else if Op(w) / 0x10 == 0xB && plain then BL_IMM_A1
    else if w / 0x200_0000 == 0x7D then BLX_IMM_A2
    else if IsAddOrSub(w, 4) then (if Rd(w) == 15 then ADD_REG_PC_A1 else ADD_REG_A1)
    else if IsAddOrSub(w, 2) then (if Rd(w) == 15 then SUB_REG_PC_A1 else SUB_REG_A1)
    else if Op(w) == 0x28 && Rn(w) == 15 && plain then ADR_A1
    else if Op(w) == 0x24 && Rn(w) == 15 && plain then ADR_A2
    else if Op(w) / 2 == 0x0D && Rn(w) == 0 && Shift(w) % 2 == 0 && Rm(w) == 15 && plain
            && !(Op(w) % 2 == 1 && Rd(w) == 15) && !(Rd(w) == 15 && Shift(w) != 0) then
      (if Rd(w) == 15 then MOV_REG_PC_A1 else MOV_REG_A1)
    else if IsLiteral(w, 0) && plain then (if Rd(w) == 15 then LDR_LIT_PC_A1 else LDR_LIT_A1)
    else if IsLiteral(w, 1) && plain then LDRB_LIT_A1
    else if IsShortLiteral(w, 0, 0xD) && plain then LDRD_LIT_A1
    else if IsShortLiteral(w, 1, 0xB) && plain then LDRH_LIT_A1
    else if IsShortLiteral(w, 1, 0xD) && plain then LDRSB_LIT_A1
    else if IsShortLiteral(w, 1, 0xF) && plain then LDRSH_LIT_A1
    else if IsRegister(w, 0) && plain then (if Rd(w) == 15 then LDR_REG_PC_A1 else LDR_REG_A1)
    else if IsRegister(w, 1) && plain then LDRB_REG_A1
    else if IsShortRegister(w, 0, 0xD) && plain then LDRD_REG_A1
    else if IsShortRegister(w, 1, 0xB) && plain then LDRH_REG_A1
    else if IsShortRegister(w, 1, 0xD) && plain then LDRSB_REG_A1
    else if IsShortRegister(w, 1, 0xF) && plain then LDRSH_REG_A1
    else IGNORED
  }

  /** The length table of sh_a32_get_rewrite_inst_len, in bytes. */
  function RewriteLen(w: Word32): nat {
    match GetType(w)
    case IGNORED => 4
    case B_A1 | BX_A1 => 12
    case BL_IMM_A1 | BLX_IMM_A2 => 16
    case ADD_REG_A1 | ADD_REG_PC_A1 | SUB_REG_A1 | SUB_REG_PC_A1 => 32
    case ADR_A1 | ADR_A2 => 12
    case MOV_REG_A1 => 32
    case MOV_REG_PC_A1 => 12
    case LDR_LIT_A1 => 24
    case LDR_LIT_PC_A1 => 36
    case LDRB_LIT_A1 | LDRD_LIT_A1 | LDRH_LIT_A1 | LDRSB_LIT_A1 | LDRSH_LIT_A1 => 24
    case LDR_REG_A1 => 32
    case LDR_REG_PC_A1 => 36
    case LDRB_REG_A1 | LDRD_REG_A1 | LDRH_REG_A1 | LDRSB_REG_A1 | LDRSH_REG_A1 => 32
  }

  /** sh_a32_rewrite_info_t. */
  datatype Info = Info(startAddr: Word32, endAddr: int, buf: Word32, prologLen: nat, instLens: seq<nat>)

  predicate IsAddrNeedFix(addr: Word32, info: Info) {
    info.startAddr <= addr < info.endAddr
  }

  /** Number of instructions that start below `addr`, capped by the table. */
  function InstsBelow(addr: int, info: Info): nat
    requires info.startAddr <= addr
  {
    var n := (addr - info.startAddr + 3) / 4;
    if n <= |info.instLens| then n else |info.instLens|
  }

  function FixAddr(addr: Word32, info: Info): Word32 {
    if IsAddrNeedFix(addr, info) then Wrap32(info.buf + info.prologLen + Sum(info.instLens[..InstsBelow(addr, info)]))
    else addr
  }

  /** sh_a32_fix_addr */
  method ComputeFixAddr(addr: Word32, info: Info) returns (fixed: Word32)
    ensures fixed == FixAddr(addr, info)
  {
    if info.startAddr <= addr < info.endAddr {
      var cursor: int := info.startAddr;
      var offset := 0;
      var i := 0;
      while i < |info.instLens| && cursor < addr
        invariant 0 <= i <= |info.instLens|
        invariant cursor == info.startAddr + 4 * i
        invariant offset == Sum(info.instLens[..i])
        invariant i <= InstsBelow(addr, info)
      {
        SumSnoc(info.instLens, i);
        cursor := cursor + 4;
        offset := offset + info.instLens[i];
        i := i + 1;
      }
      assert i == InstsBelow(addr, info);
      return Wrap32(info.buf + info.prologLen + offset);
    }
    return addr;
  }

  // B #4 * n: skips n words behind the next one.
  function Skip(n: nat): Word32
    requires n < 0x80_0000
  {
    0xEA00_0000 + n
  }

  /** B<c> #0: if the condition holds, over the next word. */
  function SkipIf(cond: nat): Word32
    requires cond < 16
  {
    cond * 0x1000_0000 + 0x0A00_0000
  }

  /** LDR<c> Rt, [PC]; B #0; <addr>. */
  function LoadAddr(cond: nat, rt: nat, addr: Word32): seq<Word32>
    requires cond < 16 && rt < 16
  {
    [cond * 0x1000_0000 + 0x059F_0000 + rt * 0x1000, Skip(0), addr]
  }

  /** Where a branch goes. */
  function BranchAddr(w: Word32, pc: Word32, t: Type): Word32 {
    if t.BX_A1? then pc
    else if t.BLX_IMM_A2? then
      SetBit0(Wrap32(pc + SignExtend(w % 0x100_0000 * 4 + w / 0x100_0000 % 2 * 2, 0x400_0000)))
    else Wrap32(pc + SignExtend(w % 0x100_0000 * 4, 0x400_0000))
  }

  function RewriteB(w: Word32, pc: Word32, t: Type, info: Info): seq<Word32> {
    var cond := if t.BLX_IMM_A2? then 0xE else Cond(w);
    (if t.BL_IMM_A1? || t.BLX_IMM_A2? then [cond * 0x1000_0000 + 0x028F_E008] else [])
    + LoadAddr(cond, 15, FixAddr(BranchAddr(w, pc, t), info))
  }

  /** The instruction without its condition, and with other registers. */
  function With(w: Word32, rn: nat, rd: nat, rm: nat): Word32
    requires rn < 16 && rd < 16 && rm < 16
  {
    Compose(0xE, Op(w), rn, rd, Shift(w), rm)
  }

  function RewriteAddOrSub(w: Word32, pc: Word32): seq<Word32> {
    var used := {Rn(w), Rm(w), Rd(w)};
    var rx := Spare(used, 3);
    if Rd(w) == 15 then
      var ry := Spare(used + {rx}, 4);
      [SkipIf(Cond(w)), Skip(5), 0xE92D_8000 + RegBit(rx) + RegBit(ry), 0xE59F_0008 + rx * 0x1000,
       if Rn(w) == 15 then With(w, rx, ry, Rm(w)) else With(w, Rn(w), ry, rx),
       0xE58D_0008 + ry * 0x1000, 0xE8BD_8000 + RegBit(rx) + RegBit(ry), pc]
    else
      [SkipIf(Cond(w)), Skip(5), 0xE52D_0004 + rx * 0x1000, 0xE59F_0008 + rx * 0x1000,
       if Rn(w) == 15 then With(w, rx, Rd(w), Rm(w)) else With(w, Rn(w), Rd(w), rx),
       0xE49D_0004 + rx * 0x1000, Skip(0), pc]
  }

  /** sh_util_arm_expand_imm: the low byte, rotated right. */
  function ExpandImm(w: Word32): Word32 {
    var imm, amount := w % 0x100, 2 * (w / 0x100 % 0x10);
    Rotate(imm, amount)
  }

  function Rotate(x: Word32, amount: nat): Word32
    decreases amount
  {
    if amount == 0 then x else Rotate(x / 2 + x % 2 * 0x8000_0000, amount - 1)
  }

  function AdrAddr(w: Word32, pc: Word32, t: Type): Word32 {
    Wrap32(if t.ADR_A1? then Align4(pc) + ExpandImm(w) else Align4(pc) - ExpandImm(w))
  }

  function RewriteAdr(w: Word32, pc: Word32, t: Type, info: Info): seq<Word32> {
    var addr := AdrAddr(w, pc, t);
    if IsAddrNeedFix(addr, info) then [] else LoadAddr(Cond(w), Rd(w), addr)
  }

  function RewriteMov(w: Word32, pc: Word32): seq<Word32> {
    var rx := if Rd(w) == 0 then 1 else 0;
    if Rd(w) == 15 then LoadAddr(Cond(w), 15, pc)
    else
      [SkipIf(Cond(w)), Skip(5), 0xE52D_0004 + rx * 0x1000, 0xE59F_0008 + rx * 0x1000, With(w, Rn(w), Rd(w), rx),
       0xE49D_0004 + rx * 0x1000, Skip(0), pc]
  }

  function Literal(w: Word32, pc: Word32, t: Type): Word32 {
    var imm := if t.LDR_LIT_A1? || t.LDR_LIT_PC_A1? || t.LDRB_LIT_A1? then w % 0x1000 else w / 0x100 % 0x10 * 0x10 + w % 0x10;
    Wrap32(if w / 0x80_0000 % 2 == 1 then Align4(pc) + imm else Align4(pc) - imm)
  }

  /** LDR{B,D,H,SB,SH} Rt, [Rt]. */
  function LoadThrough(t: Type, rt: nat): Word32
    requires rt < 16
  {
    (match t
     case LDRB_LIT_A1 => 0xE5D0_0000
     case LDRD_LIT_A1 => 0xE1C0_00D0
     case LDRH_LIT_A1 => 0xE1D0_00B0
     case LDRSB_LIT_A1 => 0xE1D0_00D0
     case LDRSH_LIT_A1 => 0xE1D0_00F0
     case _ => 0xE590_0000) + rt * 0x1_0000 + rt * 0x1000
  }

  function RewriteLiteral(w: Word32, pc: Word32, t: Type, info: Info): seq<Word32> {
    var addr := Literal(w, pc, t);
    if IsAddrNeedFix(addr, info) then []
    else if t.LDR_LIT_PC_A1? && Rd(w) == 15 then
      [SkipIf(Cond(w)), Skip(6), 0xE92D_0003, 0xE59F_0000, Skip(0), addr, 0xE590_0000, 0xE58D_0004, 0xE8BD_8001]
    else [SkipIf(Cond(w)), Skip(3)] + LoadAddr(0xE, Rd(w), addr) + [LoadThrough(t, Rd(w))]
  }

  function RewriteRegister(w: Word32, pc: Word32, t: Type): seq<Word32> {
    var used := {Rd(w), Rd(w) + 1, Rm(w)};
    var rx := Spare(used, 3);
    if t.LDR_REG_PC_A1? && Rd(w) == 15 then
      var ry := Spare(used + {rx}, 4);
      [SkipIf(Cond(w)), Skip(6), 0xE92D_8000 + RegBit(rx) + RegBit(ry), 0xE59F_0000 + rx * 0x1000, Skip(0), pc,
       With(w, rx, ry, Rm(w)), 0xE58D_0008 + ry * 0x1000, 0xE8BD_8000 + RegBit(rx) + RegBit(ry)]
    else
      [SkipIf(Cond(w)), Skip(5), 0xE52D_0004 + rx * 0x1000, 0xE59F_0000 + rx * 0x1000, Skip(0), pc,
       With(w, rx, Rd(w), Rm(w)), 0xE49D_0004 + rx * 0x1000]
  }

  /** sh_a32_rewrite; nothing at all means that the instruction cannot be rewritten. */
  function Rewrite(w: Word32, pc: Word32, info: Info): seq<Word32> {
    match GetType(w)
    case B_A1 | BX_A1 | BL_IMM_A1 | BLX_IMM_A2 => RewriteB(w, pc, GetType(w), info)
    case ADD_REG_A1 | ADD_REG_PC_A1 | SUB_REG_A1 | SUB_REG_PC_A1 => RewriteAddOrSub(w, pc)
    case ADR_A1 | ADR_A2 => RewriteAdr(w, pc, GetType(w), info)
    case MOV_REG_A1 | MOV_REG_PC_A1 => RewriteMov(w, pc)
    case LDR_LIT_A1 | LDR_LIT_PC_A1 | LDRB_LIT_A1 | LDRD_LIT_A1 | LDRH_LIT_A1 | LDRSB_LIT_A1 | LDRSH_LIT_A1 =>
      RewriteLiteral(w, pc, GetType(w), info)
    case LDR_REG_A1 | LDR_REG_PC_A1 | LDRB_REG_A1 | LDRD_REG_A1 | LDRH_REG_A1 | LDRSB_REG_A1 | LDRSH_REG_A1 =>
      RewriteRegister(w, pc, GetType(w))
    case IGNORED => [w]
  }

  /** The length of the code is what the table says. */
  lemma EmittedLenIsTableLen(w: Word32, pc: Word32, info: Info)
    requires Rewrite(w, pc, info) != []
    ensures 4 * |Rewrite(w, pc, info)| == RewriteLen(w)
  {
    hide FixAddr, IsAddrNeedFix, Spare, Rotate, Literal, BranchAddr, AdrAddr, With, Cond, Op, Rn, Rm, Shift, LoadThrough, RegBit;
    hide IsAddOrSub, IsLiteral, IsShortLiteral, IsRegister, IsShortRegister;
  }
}
