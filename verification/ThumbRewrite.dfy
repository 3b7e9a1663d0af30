/** Re-encoding of single Thumb instructions (arch/arm/sh_t16.c, sh_t32.c, sh_txx.c).

    Halfwords are integers. Masks are as in the original; fields that do not overlap are put together by addition. */
module ThumbRewrite {
  import opened Words
  import opened Layout
  import opened Masks

  type Half = h: int | 0 <= h < 0x1_0000

  function Low(x: Word32): Half {
    x % 0x1_0000
  }

  function High(x: Word32): Half {
    x / 0x1_0000
  }

  datatype T16Type =
    | IGNORED16
    | IT_T1
    | B_T1 | B_T2 | BX_T1
    | ADD_REG_T2 | MOV_REG_T1 | ADR_T1 | LDR_LIT_T1
    | CBZ_T1 | CBNZ_T1

  function T16TypeOf(inst: Half): T16Type {
    if And(inst, 0xFF00) == 0xBF00 && And(inst, 0x000F) != 0 && And(inst, 0x00F0) != 0x00F0 then IT_T1
    else if And(inst, 0xF000) == 0xD000 && And(inst, 0x0F00) != 0x0F00 && And(inst, 0x0F00) != 0x0E00 then B_T1
    else if And(inst, 0xF800) == 0xE000 then B_T2
    else if And(inst, 0xFFF8) == 0x4778 then BX_T1
    else if And(inst, 0xFF78) == 0x4478 && And(inst, 0x0087) != 0x0085 then ADD_REG_T2
    else if And(inst, 0xFF78) == 0x4678 then MOV_REG_T1
    else if And(inst, 0xF800) == 0xA000 then ADR_T1
    else if And(inst, 0xF800) == 0x4800 then LDR_LIT_T1
    else if And(inst, 0xFD00) == 0xB100 then CBZ_T1
    else if And(inst, 0xFD00) == 0xB900 then CBNZ_T1
    else IGNORED16
  }

  function T16Len(inst: Half): nat {
    match T16TypeOf(inst)
    case IGNORED16 => 4
    case IT_T1 => 0
    case B_T1 => 12
    case B_T2 => 8
    case BX_T1 => 8
    case ADD_REG_T2 => 16
    case MOV_REG_T1 => 12
    case ADR_T1 => 8
    case LDR_LIT_T1 => 12
    case CBZ_T1 => 12
    case CBNZ_T1 => 12
  }

  datatype T32Type =
    | IGNORED32
    | B_T3 | B_T4 | BL_IMM_T1 | BLX_IMM_T2
    | ADR_T2 | ADR_T3
    | LDR_LIT_T2 | LDR_LIT_PC_T2 | LDRB_LIT_T1 | LDRD_LIT_T1 | LDRH_LIT_T1 | LDRSB_LIT_T1 | LDRSH_LIT_T1
    | PLD_LIT_T1 | PLI_LIT_T3
    | TBB_T1 | TBH_T1
    | VLDR_LIT_T1

  function T32TypeOf(high: Half, low: Half): T32Type {
    var inst: nat := high * 0x1_0000 + low;
    if And(inst, 0xF800_D000) == 0xF000_8000 && And(inst, 0x0380_0000) != 0x0380_0000 then B_T3
    else if And(inst, 0xF800_D000) == 0xF000_9000 then B_T4
    else if And(inst, 0xF800_D000) == 0xF000_D000 then BL_IMM_T1
    else if And(inst, 0xF800_D000) == 0xF000_C000 then BLX_IMM_T2
    else if And(inst, 0xFBFF_8000) == 0xF2AF_0000 then ADR_T2
    else if And(inst, 0xFBFF_8000) == 0xF20F_0000 then ADR_T3
    else if And(inst, 0xFF7F_0000) == 0xF85F_0000 then
      if And(inst, 0xF000) == 0xF000 then LDR_LIT_PC_T2 else LDR_LIT_T2
    else if And(inst, 0xFF7F_0000) == 0xF81F_0000 && And(inst, 0xF000) != 0xF000 then LDRB_LIT_T1
    else if And(inst, 0xFF7F_0000) == 0xE95F_0000 then LDRD_LIT_T1
    else if And(inst, 0xFF7F_0000) == 0xF83F_0000 && And(inst, 0xF000) != 0xF000 then LDRH_LIT_T1
    else if And(inst, 0xFF7F_0000) == 0xF91F_0000 && And(inst, 0xF000) != 0xF000 then LDRSB_LIT_T1
    else if And(inst, 0xFF7F_0000) == 0xF93F_0000 && And(inst, 0xF000) != 0xF000 then LDRSH_LIT_T1
    else if And(inst, 0xFF7F_F000) == 0xF81F_F000 then PLD_LIT_T1
    else if And(inst, 0xFF7F_F000) == 0xF91F_F000 then PLI_LIT_T3
    else if And(inst, 0xFFF0_FFF0) == 0xE8D0_F000 then TBB_T1
    else if And(inst, 0xFFF0_FFF0) == 0xE8D0_F010 then TBH_T1
    else if And(inst, 0xFF3F_0C00) == 0xED1F_0800 then VLDR_LIT_T1
    else IGNORED32
  }

  function T32Len(high: Half, low: Half): nat {
    match T32TypeOf(high, low)
    case IGNORED32 => 4
    case B_T3 => 12
    case B_T4 => 8
    case BL_IMM_T1 => 12
    case BLX_IMM_T2 => 12
    case ADR_T2 => 12
    case ADR_T3 => 12
    case LDR_LIT_T2 => 16
    case LDR_LIT_PC_T2 => 24
    case LDRB_LIT_T1 => 16
    case LDRD_LIT_T1 => 16
    case LDRH_LIT_T1 => 16
    case LDRSB_LIT_T1 => 16
    case LDRSH_LIT_T1 => 16
    case PLD_LIT_T1 => 20
    case PLI_LIT_T3 => 20
    case TBB_T1 => 32
    case TBH_T1 => 32
    case VLDR_LIT_T1 => 24
  }

  /** sh_txx_rewrite_info_t. */
  datatype Info = Info(startAddr: Word32, endAddr: int, buf: Word32, prologLen: nat, instLens: seq<nat>)

  predicate IsAddrNeedFix(addr: Word32, info: Info) {
    info.startAddr <= addr < info.endAddr
  }

  /** Number of halfwords that start below `addr`, capped by the table. */
  function HalvesBelow(addr: int, info: Info): nat
    requires info.startAddr <= addr
  {
    var n := (addr - info.startAddr + 1) / 2;
    if n <= |info.instLens| then n else |info.instLens|
  }

  /** sh_txx_fix_addr: the Thumb bit is kept. */
  function FixAddr(addr: Word32, info: Info): Word32 {
    var even := addr / 2 * 2;
    if IsAddrNeedFix(even, info) then
      var fixed := Wrap32(info.buf + info.prologLen + Sum(info.instLens[..HalvesBelow(even, info)]));
      if addr % 2 == 1 then SetBit0(fixed) else fixed
    else addr
  }

  method ComputeFixAddr(addr: Word32, info: Info) returns (fixed: Word32)
    ensures fixed == FixAddr(addr, info)
  {
    var isThumb := addr % 2 == 1;
    var even := if isThumb then addr / 2 * 2 else addr;
    if info.startAddr <= even < info.endAddr {
      var cursor: int := info.startAddr;
      var offset := 0;
      var i := 0;
      while i < |info.instLens| && cursor < even
        invariant 0 <= i <= |info.instLens|
        invariant cursor == info.startAddr + 2 * i
        invariant offset == Sum(info.instLens[..i])
        invariant i <= HalvesBelow(even, info)
      {
        assert info.instLens[..i + 1][..i] == info.instLens[..i];
        cursor := cursor + 2;
        offset := offset + info.instLens[i];
        i := i + 1;
      }
      assert i == HalvesBelow(even, info);
      fixed := Wrap32(info.buf + info.prologLen + offset);
      if isThumb {
        fixed := SetBit0(fixed);
      }
      return;
    }
    fixed := if isThumb then SetBit0(even) else even;
  }

  const NOP: Half := 0xBF00

  /** LDR.W PC, [PC]; <addr>. */
  function JumpTo(addr: Word32): seq<Half> {
    [0xF8DF, 0xF000, Low(addr), High(addr)]
  }

  /** LDR.W Rt, [PC, #4]; B #4; NOP; <addr>. */
  function LoadAddr(rt: nat, addr: Word32): seq<Half>
    requires rt < 16
  {
    [0xF8DF, rt * 0x1000 + 4, 0xE002, NOP, Low(addr), High(addr)]
  }

  // 16-bit instructions.

  function RewriteT16B(inst: Half, pc: Word32, t: T16Type, info: Info): seq<Half>
    requires t in {B_T1, B_T2, BX_T1}
  {
    var addr := FixAddr(
      if t.B_T1? then SetBit0(Wrap32(pc + SignExtend(inst % 0x100 * 2, 0x200)))
      else if t.B_T2? then SetBit0(Wrap32(pc + SignExtend(inst % 0x800 * 2, 0x1000)))
      else pc, info);
    (if t.B_T1? then [inst / 0x100 * 0x100, 0xE003] else []) + JumpTo(addr)
  }

  function RewriteT16Add(inst: Half, pc: Word32): seq<Half> {
    var rd := inst / 0x80 % 2 * 8 + inst % 8;
    var rx := if rd == 0 then 1 else 0;
    [0xB400 + (if rx == 0 then 1 else 2), 0x4802 + rx * 0x100, And(inst, 0xFF87) + rx * 8,
     0xBC00 + (if rx == 0 then 1 else 2), 0xE002, NOP, Low(pc), High(pc)]
  }

  function RewriteT16Mov(inst: Half, pc: Word32): seq<Half> {
    LoadAddr(inst / 0x80 % 2 * 8 + inst % 8, pc)
  }

  function RewriteT16Literal(inst: Half, pc: Word32, t: T16Type, info: Info): seq<Half> {
    var r := inst / 0x100 % 8;
    var addr := Wrap32(Align4(pc) + inst % 0x100 * 4);
    if IsAddrNeedFix(addr, info) then []
    else
      [0x4800 + r * 0x100, 0xE001, Low(addr), High(addr)]
      + if t.LDR_LIT_T1? then [0x6800 + r * 8 + r, NOP] else []
  }

  function RewriteT16Cb(inst: Half, pc: Word32, info: Info): seq<Half> {
    var imm32 := inst / 0x200 % 2 * 0x40 + inst / 8 % 0x20 * 2;
    [And(inst, 0xFD07), 0xE003] + JumpTo(FixAddr(SetBit0(Wrap32(pc + imm32)), info))
  }

  /** sh_t16_rewrite; no halfword at all means the rewrite failed. */
  function RewriteT16(inst: Half, pc: Word32, info: Info): seq<Half> {
    match T16TypeOf(inst)
    case B_T1 | B_T2 | BX_T1 => RewriteT16B(inst, pc, T16TypeOf(inst), info)
    case ADD_REG_T2 => RewriteT16Add(inst, pc)
    case MOV_REG_T1 => RewriteT16Mov(inst, pc)
    case ADR_T1 | LDR_LIT_T1 => RewriteT16Literal(inst, pc, T16TypeOf(inst), info)
    case CBZ_T1 | CBNZ_T1 => RewriteT16Cb(inst, pc, info)
    case _ => [inst, NOP]
  }

  // 32-bit instructions.

  function Flip(a: nat, b: nat): nat {
    if a == b then 1 else 0
  }

  function T32BranchAddr(high: Half, low: Half, pc: Word32, t: T32Type): Word32 {
    var j1, j2, s := low / 0x2000 % 2, low / 0x800 % 2, high / 0x400 % 2;
    if t.B_T3? then
      var x := s * 0x10_0000 + j2 * 0x8_0000 + j1 * 0x4_0000 + high % 0x40 * 0x1000 + low % 0x800 * 2;
      SetBit0(Wrap32(pc + SignExtend(x, 0x20_0000)))
    else
      var top := s * 0x100_0000 + Flip(j1, s) * 0x80_0000 + Flip(j2, s) * 0x40_0000 + high % 0x400 * 0x1000;
      if t.BLX_IMM_T2? then Wrap32(Align4(pc) + SignExtend(top + low % 0x800 / 2 * 4, 0x200_0000))
      else SetBit0(Wrap32(pc + SignExtend(top + low % 0x800 * 2, 0x200_0000)))
  }

  function RewriteT32B(high: Half, low: Half, pc: Word32, t: T32Type, info: Info): seq<Half> {
    (if t.B_T3? then [0xD000 + high / 0x40 % 0x10 * 0x100, 0xE003]
     else if t.BL_IMM_T1? || t.BLX_IMM_T2? then [0xF20F, 0x0E09]
     else [])
    + JumpTo(FixAddr(T32BranchAddr(high, low, pc, t), info))
  }

  function RewriteT32Adr(high: Half, low: Half, pc: Word32, t: T32Type, info: Info): seq<Half> {
    var imm32 := high / 0x400 % 2 * 0x800 + low / 0x1000 % 8 * 0x100 + low % 0x100;
    var addr := Wrap32(if t.ADR_T2? then Align4(pc) - imm32 else Align4(pc) + imm32);
    if IsAddrNeedFix(addr, info) then [] else LoadAddr(low / 0x100 % 0x10, addr)
  }

  function Literal(high: Half, pc: Word32, imm: nat): Word32 {
    Wrap32(if high / 0x80 % 2 == 1 then Align4(pc) + imm else Align4(pc) - imm)
  }

  function RewriteT32Ldr(high: Half, low: Half, pc: Word32, t: T32Type, info: Info): seq<Half> {
    var rt := low / 0x1000;
    var rt2 := if t.LDRD_LIT_T1? then low / 0x100 % 0x10 else 0;
    var addr := Literal(high, pc, if t.LDRD_LIT_T1? then low % 0x100 * 4 else low % 0x1000);
    if IsAddrNeedFix(addr, info) then []
    else if t.LDR_LIT_PC_T2? && rt == 0xF then
      [0xB403, NOP, 0xF8DF, 0x0004, 0xE002, NOP, Low(addr), High(addr), 0xF8D0, 0x0000, 0x9001, 0xBD01]
    else
      var base :=
        if t.LDR_LIT_T2? then 0xF8D0
        else if t.LDRB_LIT_T1? then 0xF890
        else if t.LDRD_LIT_T1? then 0xE9D0
        else if t.LDRH_LIT_T1? then 0xF8B0
        else if t.LDRSB_LIT_T1? then 0xF990
        else 0xF9B0;
      LoadAddr(rt, addr) + [base + rt, rt * 0x1000 + rt2 * 0x100]
  }

  function RewriteT32Pl(high: Half, low: Half, pc: Word32, t: T32Type, info: Info): seq<Half> {
    var addr := FixAddr(Literal(high, pc, low % 0x1000), info);
    [0xB401, NOP, 0xF8DF, 0x0008, if t.PLD_LIT_T1? then 0xF890 else 0xF990, 0xF000, 0xBC01, 0xE001, Low(addr), High(addr)]
  }

  function RewriteT32Tb(high: Half, low: Half, pc: Word32, t: T32Type, info: Info): seq<Half> {
    // A table branch must be the last instruction of the window.
    if (pc - 4) / 2 * 2 + 4 != info.endAddr then []
    else
      var rn, rm := high % 0x10, low % 0x10;
      var rx := Spare({rn, rm}, 7);
      var ry := Spare({rn, rm, rx}, 7);
      [0xB500 + RegBit(rx) + RegBit(ry), NOP, 0xF8DF, rx * 0x1000 + 20, 0xEB00 + (if rn == 0xF then rx else rn),
       (if t.TBB_T1? then 0 else 0x40) + ry * 0x100 + rm, (if t.TBB_T1? then 0x7800 else 0x8800) + ry * 8 + ry, NOP,
       0xEB00 + rx, 0x40 + rx * 0x100 + ry, 0x3001 + rx * 0x100, 0x9002 + rx * 0x100, 0xBD00 + RegBit(rx) + RegBit(ry), NOP,
       Low(pc), High(pc)]
  }

  function RewriteT32Vldr(high: Half, low: Half, pc: Word32, info: Info): seq<Half> {
    var size := low / 0x100 % 4;
    var addr := Literal(high, pc, low % 0x100 * (if size == 1 then 2 else 4));
    if IsAddrNeedFix(addr, info) then []
    else
      [0xB401, NOP, 0xF8DF, 0x0004, 0xE002, NOP, Low(addr), High(addr), 0xED90 + high / 0x40 % 2 * 0x40,
       low / 0x1000 * 0x1000 + 0x800 + size * 0x100, 0xBC01, NOP]
  }

  function RewriteT32(high: Half, low: Half, pc: Word32, info: Info): seq<Half> {
    var t := T32TypeOf(high, low);
    match t
    case B_T3 | B_T4 | BL_IMM_T1 | BLX_IMM_T2 => RewriteT32B(high, low, pc, t, info)
    case ADR_T2 | ADR_T3 => RewriteT32Adr(high, low, pc, t, info)
    case LDR_LIT_T2 | LDR_LIT_PC_T2 | LDRB_LIT_T1 | LDRD_LIT_T1 | LDRH_LIT_T1 | LDRSB_LIT_T1 | LDRSH_LIT_T1 =>
      RewriteT32Ldr(high, low, pc, t, info)
    case PLD_LIT_T1 | PLI_LIT_T3 => RewriteT32Pl(high, low, pc, t, info)
    case TBB_T1 | TBH_T1 => RewriteT32Tb(high, low, pc, t, info)
    case VLDR_LIT_T1 => RewriteT32Vldr(high, low, pc, info)
    case IGNORED32 => [high, low]
  }

  // One instruction of either size.

  datatype Instr = T16(inst: Half) | T32(high: Half, low: Half)

  /** sh_util_is_thumb32 */
  predicate IsThumb32(h: Half) {
    h / 0x800 in {0x1D, 0x1E, 0x1F}
  }

  function Size(i: Instr): nat {
    if i.T16? then 1 else 2
  }

  /** The two length tables. */
  function TableLen(i: Instr): nat {
    match i case T16(h) => T16Len(h) case T32(h, l) => T32Len(h, l)
  }

  function Rewrite(i: Instr, pc: Word32, info: Info): seq<Half> {
    match i case T16(h) => RewriteT16(h, pc, info) case T32(h, l) => RewriteT32(h, l, pc, info)
  }

  predicate IsIt(i: Instr) {
    i.T16? && T16TypeOf(i.inst).IT_T1?
  }

  /** A load that is typed as a load of PC has register 15, which selects the longer rewrite. */
  lemma LoadsPc(high: Half, low: Half)
    requires And(high * 0x1_0000 + low, 0xF000) == 0xF000
    ensures low / 0x1000 == 0xF
  {
    hide And;
    var inst := high * 0x1_0000 + low;
    AndDigit3(inst);
    assert inst / 0x1000 == high * 16 + low / 0x1000;
  }

  lemma PcLoadType(high: Half, low: Half)
    requires T32TypeOf(high, low).LDR_LIT_PC_T2?
    ensures And(high * 0x1_0000 + low, 0xF000) == 0xF000
  {
    hide And;
  }

  /** The table and the emitter agree, so fix-up addresses can be computed before anything is emitted. */
  lemma EmittedLenIsTableLen(i: Instr, pc: Word32, info: Info)
    requires Rewrite(i, pc, info) != [] && !IsIt(i)
    ensures 2 * |Rewrite(i, pc, info)| == TableLen(i)
  {
    hide And, FixAddr, IsAddrNeedFix, T16TypeOf, T32TypeOf, Low, High, Spare;
    if i.T32? && T32TypeOf(i.high, i.low).LDR_LIT_PC_T2? {
      PcLoadType(i.high, i.low);
      LoadsPc(i.high, i.low);
    }
  }

  lemma TableLenIsAligned(i: Instr)
    ensures TableLen(i) % 4 == 0 && TableLen(i) <= 32
  {
    hide T16TypeOf, T32TypeOf;
  }
}
