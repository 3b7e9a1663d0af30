/** What the instruction set makes of the words that the rewriter reads and writes. */
module A64Decode {
  import opened Words
  import I = A64Isa
  import opened A64Rewrite

  /** The instruction of class `t` in word `w`, with `off` as its offset. */
  function InstOf(w: bv32, t: Type, off: int): I.Inst {
    match t
    case IGNORED => I.Decode(w)
    case B => I.B(off)
    case B_COND => I.BCond(I.Cond(w), off)
    case BL => I.BL(off)
    case ADR => I.Adr(I.Rd(w), off)
    case ADRP => I.Adrp(I.Rd(w), off)
    case LDR_LIT_32 => I.LdrLit(I.Rd(w), off, I.W32)
    case LDR_LIT_64 => I.LdrLit(I.Rd(w), off, I.X64)
    case LDRSW_LIT => I.LdrLit(I.Rd(w), off, I.SW32)
    case PRFM_LIT => I.PrfmLit(off)
    case LDR_SIMD_LIT_32 => I.LdrVLit(I.Rd(w), off, I.S32)
    case LDR_SIMD_LIT_64 => I.LdrVLit(I.Rd(w), off, I.D64)
    case LDR_SIMD_LIT_128 => I.LdrVLit(I.Rd(w), off, I.Q128)
    case CBZ | CBNZ => I.Cbz(I.Rd(w), off, w & 0x8000_0000 != 0, t.CBNZ?)
    case TBZ | TBNZ => I.Tbz(I.Rd(w), off, I.BitNo(w), t.TBNZ?)
  }

  function OffOf(w: bv32): int {
    match GetType(w)
    case B | BL => I.Off26(w)
    case TBZ | TBNZ => I.Off14(w)
    case ADR => I.OffAdr(w)
    case ADRP => 0x1000 * I.OffAdr(w)
    case _ => I.Off19(w)
  }

  /** sh_a64_get_type finds exactly the PC-relative instructions, and of each the right kind. */
  lemma GetTypeMatchesIsa(w: bv32)
    ensures I.Decode(w) == InstOf(w, GetType(w), OffOf(w))
    ensures I.IsPcRelative(I.Decode(w)) == !GetType(w).IGNORED?
  {
    hide I.Off26, I.Off19, I.Off14, I.OffAdr, I.Rd, I.Cond, I.BitNo, I.DecodePlain;
  }

  lemma BranchOffsetsAreAligned(w: bv32)
    requires GetType(w) in {B, BL, B_COND, CBZ, CBNZ, TBZ, TBNZ}
    ensures OffOf(w) % 4 == 0
  {
    hide GetType, Imm26, Imm19, Imm14, SignExtend;
  }

  lemma ScaledSignExtend(x: int, full: int)
    ensures 4 * SignExtend(x, full) == SignExtend(x * 4, full * 4)
    ensures 0x1000 * SignExtend(x, full) == SignExtend(x * 0x1000, full * 0x1000)
  {
  }

  /** The address a rewriter computes is the one the instruction names. */
  lemma NamedAddrMatchesIsa(w: bv32, pc: Word64)
    requires !GetType(w).IGNORED?
    ensures NamedAddr(w, pc) == Wrap64((if GetType(w).ADRP? then I.PageOf(pc) else pc) + OffOf(w))
  {
    hide GetType, Wrap64, SignExtend, Imm26, Imm19, Imm14, ImmLo;
    ScaledSignExtend(Imm26(w), 0x400_0000);
    ScaledSignExtend(Imm19(w), 0x8_0000);
    ScaledSignExtend(Imm14(w), 0x4000);
    ScaledSignExtend(Imm19(w) * 4 + ImmLo(w), 0x20_0000);
  }

  lemma DecodeB(w: bv32)
    requires w & 0xFC00_0000 == 0x1400_0000
    ensures I.Decode(w) == I.B(4 * SignExtend(Word(w & 0x03FF_FFFF), 0x400_0000))
  {
    hide Word, I.DecodePlain;
  }

  lemma DecodeShortBranches()
    ensures I.Decode(0x1400_0003) == I.B(12)
    ensures I.Decode(0x1400_0005) == I.B(20)
    ensures I.Decode(0x1400_0006) == I.B(24)
    ensures I.Decode(0x1400_0007) == I.B(28)
  {
    hide Word, I.Decode;
    SmallWord(3, 3);
    SmallWord(5, 5);
    SmallWord(6, 6);
    SmallWord(7, 7);
    DecodeB(0x1400_0003);
    DecodeB(0x1400_0005);
    DecodeB(0x1400_0006);
    DecodeB(0x1400_0007);
  }

  lemma DecodeRegisterBranches()
    ensures I.Decode(0xD61F_0220) == I.Br(17)
    ensures I.Decode(0xD61F_0200) == I.Br(16)
    ensures I.Decode(0xD63F_0220) == I.Blr(17)
    ensures I.Decode(0xD65F_0200) == I.Ret(16)
    ensures I.Decode(0xD65F_0220) == I.Ret(17)
  {
    hide Word;
  }

  lemma DecodeIpLoads()
    ensures I.Decode(0x5800_0051) == I.LdrLit(17, 8, I.X64)
    ensures I.Decode(0x5800_0050) == I.LdrLit(16, 8, I.X64)
    ensures I.Decode(0x5800_0091) == I.LdrLit(17, 16, I.X64)
    ensures I.Decode(0xF85F_83F1) == I.Ldur(17, 31, -8)
    ensures I.Decode(STP_IP) == I.Stp(16, 17, 31, -16)
    ensures I.Decode(LDP_IP) == I.Ldp(16, 17, 31, -16)
  {
  }

  /** The conditional branches keep what they test and skip the next instruction. */
  lemma DecodeHead19(w: bv32)
    requires GetType(w) in {B_COND, CBZ, CBNZ}
    ensures I.Decode(Head19(w)) == InstOf(w, GetType(w), 8)
  {
  }

  lemma DecodeHead14(w: bv32)
    requires GetType(w) in {TBZ, TBNZ}
    ensures I.Decode(Head14(w)) == InstOf(w, GetType(w), 8)
  {
  }

  lemma DecodeTemporaryLoads(w: bv32)
    ensures I.Decode(LoadAt8(w)) == I.LdrLit(I.Rd(w), 8, I.X64)
    ensures I.Decode(LoadAt12(w)) == I.LdrLit(I.Rd(w), 12, I.X64)
  {
  }

  lemma DecodeLoadThrough(w: bv32, t: Type)
    requires t in {LDR_LIT_32, LDR_LIT_64, LDRSW_LIT}
    ensures I.Decode(LoadThrough(w, t))
            == I.Ldr(I.Rd(w), I.Rd(w), if t.LDR_LIT_32? then I.W32 else if t.LDR_LIT_64? then I.X64 else I.SW32)
  {
  }

  lemma DecodeUseX17(w: bv32, t: Type)
    requires t in {PRFM_LIT, LDR_SIMD_LIT_32, LDR_SIMD_LIT_64, LDR_SIMD_LIT_128}
    ensures t.PRFM_LIT? ==> I.Decode(UseX17(w, t)) == I.Prfm(17)
    ensures t.LDR_SIMD_LIT_32? ==> I.Decode(UseX17(w, t)) == I.LdrV(I.Rd(w), 17, I.S32)
    ensures t.LDR_SIMD_LIT_64? ==> I.Decode(UseX17(w, t)) == I.LdrV(I.Rd(w), 17, I.D64)
    ensures t.LDR_SIMD_LIT_128? ==> I.Decode(UseX17(w, t)) == I.LdrV(I.Rd(w), 17, I.Q128)
  {
  }

  lemma JumpBits(b0: bv8, b1: bv8, b2: bv8, b3: bv8)
    requires b3 & 0xFC == 0
    ensures var b := 0x1400_0000 | Join(b0, b1, b2, b3);
            b & 0x03FF_FFFF == Join(b0, b1, b2, b3) && b & 0xFC00_0000 == 0x1400_0000
  {
  }

  lemma TopByteSmall(n: Byte)
    requires n < 4
    ensures Bits8(n) & 0xFC == 0
  {
  }

  lemma JumpField(n: Word32)
    requires n < 0x400_0000
    ensures I.Decode(0x1400_0000 | Bits(n)) == I.B(4 * SignExtend(n, 0x400_0000))
  {
    hide Join, Bits8, Word, I.Decode, SignExtend;
    WordOfBits(n);
    TopByteSmall(n / 0x100_0000);
    JumpBits(Bits8(n % 0x100), Bits8(n / 0x100 % 0x100), Bits8(n / 0x1_0000 % 0x100), Bits8(n / 0x100_0000));
    DecodeB(0x1400_0000 | Bits(n));
  }

  /** The distance from `pc` to `addr`, around the end of the address space if need be. */
  function Distance(addr: Word64, pc: Word64): int {
    SignExtend(Wrap64(addr - pc), 0x1_0000_0000_0000_0000)
  }

  /** A jump that fits in 26 bits of words reaches its destination. */
  lemma RelativeJumpLands(addr: Word64, pc: Word64)
    requires -0x800_0000 <= Distance(addr, pc) < 0x800_0000 && Distance(addr, pc) % 4 == 0
    ensures I.Decode(RelativeJump(addr, pc)) == I.B(Distance(addr, pc))
    ensures Wrap64(pc + Distance(addr, pc)) == addr
  {
    hide Bits, I.Decode;
    JumpField(Wrap64(addr - pc) % 0x1000_0000 / 4);
  }
}
