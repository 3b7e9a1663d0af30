/** Branch ranges: an island anywhere in the range that is asked of the allocator can be reached by the
    single branch that must reach it, and comes back by the one that must come back. */
module Reach {
  import opened Words
  import opened Layout
  import opened Arith
  import opened Masks
  import R = A64Rewrite
  import T = ThumbRewrite
  import A = A32Rewrite
  import D = A64Decode
  import I = A64Isa

  const UINTPTR_MAX: Word64 := 0xFFFF_FFFF_FFFF_FFFF

  // B: [-128M, +128M - 4]
  const A64_B_LOW: Word64 := 134217728
  const A64_B_HIGH: Word64 := 134217724

  /** pc > dist ? pc - dist : 0 */
  function Below(pc: Word64, dist: Word64): Word64 {
    if pc > dist then pc - dist else 0
  }

  /** UINTPTR_MAX - pc > dist ? pc + dist : UINTPTR_MAX */
  function Above(pc: Word64, dist: Word64): Word64 {
    if UINTPTR_MAX - pc > dist then pc + dist else UINTPTR_MAX
  }

  /** A branch at `from` reaches `to`. */
  predicate InBranchRange(from: int, to: int) {
    -0x800_0000 <= to - from < 0x800_0000 && (to - from) % 4 == 0
  }

  /** The repository's own decoder sends the emitted branch to `addr`. */
  ghost predicate Jumps(pc: Word64, addr: Word64) {
    var w := R.RelativeJump(addr, pc);
    R.GetType(w).B? && R.NamedAddr(w, pc) == addr
  }

  lemma JumpsWhenNear(pc: Word64, addr: Word64)
    requires -0x800_0000 <= D.Distance(addr, pc) < 0x800_0000 && D.Distance(addr, pc) % 4 == 0
    ensures Jumps(pc, addr) && I.Decode(R.RelativeJump(addr, pc)) == I.B(D.Distance(addr, pc))
  {
    hide I.Decode, R.GetType, R.NamedAddr, R.RelativeJump, Imm26, Imm19, Imm14;
    D.RelativeJumpLands(addr, pc);
    var w := R.RelativeJump(addr, pc);
    D.GetTypeMatchesIsa(w);
    D.NamedAddrMatchesIsa(w, pc);
  }

  lemma JumpsBy(pc: Word64, addr: Word64, off: int)
    requires -0x800_0000 <= off < 0x800_0000 && off % 4 == 0 && Wrap64(pc + off) == addr
    ensures Jumps(pc, addr)
  {
    hide Jumps;
    assert D.Distance(addr, pc) == off;
    JumpsWhenNear(pc, addr);
  }

  /** sh_inst_reloc_with_island: from the patched target to the exit island. */
  lemma A64ExitReachable(pc: Word64, island: Word64)
    requires pc % 4 == 0 && island % 4 == 0
    requires Below(pc, A64_B_LOW) <= island <= Above(pc, A64_B_HIGH)
    ensures Jumps(pc, island)
  {
    hide Jumps;
    JumpsBy(pc, island, island - pc);
  }

  /** sh_inst_rewrite_with_island: from word 1 of the enter island to the instruction after the target. */
  lemma A64EnterReachable(pc: Word64, island: Word64)
    requires pc % 4 == 0 && island % 4 == 0
    requires Below(pc, A64_B_HIGH) <= island <= Above(pc, A64_B_LOW)
    ensures InBranchRange(island + 4, pc + 4) && Jumps(Wrap64(island + 4), Wrap64(pc + 4))
  {
    hide Jumps;
    JumpsBy(Wrap64(island + 4), Wrap64(pc + 4), pc - island);
  }

  /** sh_a64_build_island_rewrite: from word 1 of the branch island to the branch target. */
  lemma A64RewriteReachable(addr: Word64, island: Word64)
    requires addr % 4 == 0 && island % 4 == 0
    requires Below(addr, A64_B_HIGH + 4) <= island <= Above(addr, A64_B_LOW - 4)
    ensures InBranchRange(island + 4, addr) && Jumps(Wrap64(island + 4), addr)
  {
    hide Jumps;
    JumpsBy(Wrap64(island + 4), addr, addr - island - 4);
  }

  /** The ranges are not wasteful: away from the ends of the address space, the word just outside is too far. */
  lemma A64ExitRangeIsTight(pc: Word64, island: Word64)
    requires pc % 4 == 0 && island % 4 == 0 && A64_B_LOW < pc < UINTPTR_MAX - A64_B_HIGH
    requires Jumps(pc, island)
    ensures Below(pc, A64_B_LOW) <= island <= Above(pc, A64_B_HIGH)
  {
    hide R.GetType, R.RelativeJump, Word;
    var w := R.RelativeJump(island, pc);
    assert Imm26(w) < 0x400_0000 by {
      ImmBound(w);
    }
  }

  lemma ImmBound(w: bv32)
    ensures Imm26(w) < 0x400_0000
  {
    hide Nat8;
    ByteBound(Byte3(w & 0x03FF_FFFF));
  }

  lemma ByteBound(b: bv8)
    requires b <= 3
    ensures Nat8(b) <= 3
  {
  }

  // The 32-bit targets. PC reads as the address plus 4 (Thumb) or plus 8 (Arm).

  const UINTPTR_MAX_32: Word32 := 0xFFFF_FFFF
  const T32_B_LOW: Word32 := 16777216
  const T32_B_HIGH: Word32 := 16777214
  const A32_B_LOW: Word32 := 33554432
  const A32_B_HIGH: Word32 := 33554428

  predicate InRange32(pc: Word32, addr: Word32, low: Word32, high: Word32) {
    && (if pc > low then pc - low else 0) <= addr
    && addr <= (if UINTPTR_MAX_32 - pc > high then pc + high else UINTPTR_MAX_32)
  }

  type Bit = b: int | 0 <= b < 2

  function Not(b: Bit): Bit {
    1 - b
  }

  function Xor(a: Bit, b: Bit): Bit {
    if a == b then 0 else 1
  }

  /** sh_t32_relative_jump. */
  function T32RelativeJump(addr: Word32, pc: Word32): (T.Half, T.Half) {
    var imm32 := Wrap32(addr - pc);
    var s := imm32 / 0x100_0000 % 2;
    var i1 := imm32 / 0x80_0000 % 2;
    var i2 := imm32 / 0x40_0000 % 2;
    var imm10 := imm32 / 0x1000 % 0x400;
    var imm11 := imm32 / 2 % 0x800;
    var j1 := Xor(Not(i1), s);
    var j2 := Xor(Not(i2), s);
    (0xF000 + s * 0x400 + imm10, 0x9000 + j1 * 0x2000 + j2 * 0x800 + imm11)
  }

  /** 11110xxx xxxxxxxx 10x1xxxx xxxxxxxx */
  predicate LooksLikeBT4(high: T.Half, low: T.Half) {
    high / 0x800 == 0x1E && low / 0x4000 == 2 && low / 0x1000 % 2 == 1
  }

  /** The mask of sh_t32_get_type for branches. */
  lemma BranchMask(high: T.Half, low: T.Half)
    ensures And(high * 0x1_0000 + low, 0xF800_D000)
            == high / 0x800 * 0x800_0000 + low / 0x4000 * 0x4000 + low / 0x1000 % 2 * 0x1000
  {
    hide And;
    var inst: nat := high * 0x1_0000 + low;
    var n := low / 0x1000;
    var y := high * 16 + n;
    AndBy4096(inst, 0xF_800D);
    assert inst / 0x1000 == y;
    LowNibble(high, n);
    AndOdd(y, 0xF_800D);
    AndEven(y / 2, 0x3_E003);
    AndOdd(y / 2 / 2, 0x3_E003);
    AndOdd(y / 2 / 2 / 2, 0x1_F001);
    TopFive(high);
    assert n / 4 == low / 0x4000 && n / 4 == n / 8 * 2 + n / 4 % 2;
  }

  lemma AndBy4096(x: nat, b: nat)
    ensures And(x, 0x1000 * b) == 0x1000 * And(x / 0x1000, b)
  {
    hide And;
    AndBy16(x, 0x100 * b);
    AndBy16(x / 16, 0x10 * b);
    AndBy16(x / 16 / 16, b);
    assert x / 16 / 16 / 16 == x / 0x1000;
  }

  lemma TopFive(high: T.Half)
    ensures And(high, 0xF800) == high / 0x800 * 0x800
  {
    hide And;
    AndBy16(high, 0xF80);
    AndBy16(high / 16, 0xF8);
    AndLow3(high / 16 / 16, 0x1F);
    var z := high / 16 / 16 / 8;
    assert z == high / 0x800;
    AndLow4More(z, 1);
    AndOdd(z / 16, 1);
    NoBits(z / 16 / 2);
  }

  lemma LowNibble(high: nat, n: nat)
    requires n < 16
    ensures var y := high * 16 + n;
            y / 2 / 2 % 2 == n / 4 % 2 && y / 2 / 2 / 2 % 2 == n / 8 && y % 2 == n % 2 && y / 2 / 2 / 2 / 2 == high
  {
    var y := high * 16 + n;
    assert y / 2 == high * 8 + n / 2;
    assert y / 2 / 2 == high * 4 + n / 4;
    assert y / 2 / 2 / 2 == high * 2 + n / 8;
  }

  lemma BT4ByMask(high: T.Half, low: T.Half)
    requires LooksLikeBT4(high, low)
    ensures T.T32TypeOf(high, low).B_T4?
  {
    hide And;
    BranchMask(high, low);
  }

  lemma ThreeBits(c: nat)
    ensures c % 8 == c / 4 % 2 * 4 + c / 2 % 2 * 2 + c % 2 && c / 2 / 2 == c / 4
  {
    var c1 := c / 2;
    var c2 := c1 / 2;
    var c3 := c2 / 2;
    QuotientIs(c, 4, c2, c1 % 2 * 2 + c % 2);
    QuotientIs(c, 8, c3, c2 % 2 * 4 + c1 % 2 * 2 + c % 2);
  }

  lemma T32Fields(imm32: Word32)
    requires imm32 % 2 == 0
    ensures imm32 % 0x200_0000
            == imm32 / 0x100_0000 % 2 * 0x100_0000 + imm32 / 0x80_0000 % 2 * 0x80_0000 + imm32 / 0x40_0000 % 2 * 0x40_0000
               + imm32 / 0x1000 % 0x400 * 0x1000 + imm32 / 2 % 0x800 * 2
  {
    var a := imm32 / 2;
    var b := a / 0x800;
    var c := b / 0x400;
    var low := b % 0x400 * 0x1000 + a % 0x800 * 2;
    QuotientIs(imm32, 0x1000, b, a % 0x800 * 2);
    QuotientIs(imm32, 0x40_0000, c, low);
    QuotientIs(imm32, 0x80_0000, c / 2, c % 2 * 0x40_0000 + low);
    QuotientIs(imm32, 0x100_0000, c / 2 / 2, c / 2 % 2 * 0x80_0000 + c % 2 * 0x40_0000 + low);
    ThreeBits(c);
    QuotientIs(imm32, 0x200_0000, c / 8, c % 8 * 0x40_0000 + low);
  }

  lemma T32FieldsKept(s: Bit, i1: Bit, i2: Bit, imm10: nat, imm11: nat, pc: Word32)
    requires imm10 < 0x400 && imm11 < 0x800
    ensures var high := 0xF000 + s * 0x400 + imm10;
            var low := 0x9000 + Xor(Not(i1), s) * 0x2000 + Xor(Not(i2), s) * 0x800 + imm11;
            && LooksLikeBT4(high, low)
            && T.T32BranchAddr(high, low, pc, T.B_T4)
               == SetBit0(Wrap32(pc + SignExtend(
                    s * 0x100_0000 + i1 * 0x80_0000 + i2 * 0x40_0000 + imm10 * 0x1000 + imm11 * 2, 0x200_0000)))
  {
    hide Wrap32, SignExtend, SetBit0;
  }

  /** A small distance survives being cut to a field and sign-extended. */
  lemma FieldKeeps(d: int, full: int)
    requires full > 0 && full % 2 == 0 && -(full / 2) <= d < full / 2
    ensures SignExtend(d % full, full) == d
  {
    if d < 0 {
      QuotientIs(d, full, -1, d + full);
    } else {
      QuotientIs(d, full, 0, d);
    }
  }

  lemma CutTwice(d: int)
    ensures Wrap32(d) % 0x200_0000 == d % 0x200_0000 && Wrap32(d) % 0x400_0000 == d % 0x400_0000
  {
    var q, w := d / 0x1_0000_0000, Wrap32(d);
    assert d == q * 0x1_0000_0000 + w;
    QuotientIs(d, 0x200_0000, 0x80 * q + w / 0x200_0000, w % 0x200_0000);
    QuotientIs(d, 0x400_0000, 0x40 * q + w / 0x400_0000, w % 0x400_0000);
  }

  lemma T32Lands(pc: Word32, island: Word32)
    requires pc % 2 == 0 && island % 2 == 0 && InRange32(pc, island, T32_B_LOW, T32_B_HIGH)
    ensures Wrap32(island - pc) % 2 == 0
    ensures Wrap32(pc + SignExtend(Wrap32(island - pc) % 0x200_0000, 0x200_0000)) == island
  {
    hide SignExtend;
    var d: int := island - pc;
    assert -0x100_0000 <= d <= 0xFF_FFFE;
    CutTwice(d);
    FieldKeeps(d, 0x200_0000);
  }

  /** sh_inst_thumb_reloc_with_island: an even island in range is where the repository's decoder finds the jump going. */
  lemma T32ExitReachable(pc: Word32, island: Word32)
    requires pc % 2 == 0 && island % 2 == 0
    requires InRange32(pc, island, T32_B_LOW, T32_B_HIGH)
    ensures var (high, low) := T32RelativeJump(island, pc);
            T.T32TypeOf(high, low).B_T4? && T.T32BranchAddr(high, low, pc, T.B_T4) == SetBit0(island)
  {
    hide LooksLikeBT4, T.T32BranchAddr, T.T32TypeOf, Xor, Not, Wrap32, SignExtend, InRange32, SetBit0;
    T32Lands(pc, island);
    var imm32 := Wrap32(island - pc);
    T32Fields(imm32);
    T32FieldsKept(imm32 / 0x100_0000 % 2, imm32 / 0x80_0000 % 2, imm32 / 0x40_0000 % 2, imm32 / 0x1000 % 0x400,
                  imm32 / 2 % 0x800, pc);
    var (high, low) := T32RelativeJump(island, pc);
    BT4ByMask(high, low);
  }

  /** sh_a32_relative_jump. */
  function A32RelativeJump(addr: Word32, pc: Word32): Word32 {
    0xEA00_0000 + Wrap32(addr - pc) % 0x400_0000 / 4
  }

  lemma A32Lands(pc: Word32, island: Word32)
    requires pc % 4 == 0 && island % 4 == 0 && InRange32(pc, island, A32_B_LOW, A32_B_HIGH)
    ensures Wrap32(pc + SignExtend(Wrap32(island - pc) % 0x400_0000 / 4 * 4, 0x400_0000)) == island
  {
    hide SignExtend;
    var d: int := island - pc;
    assert -0x200_0000 <= d <= 0x1FF_FFFC;
    CutTwice(d);
    FieldKeeps(d, 0x400_0000);
  }

  /** sh_inst_arm_reloc_with_island. */
  lemma A32ExitReachable(pc: Word32, island: Word32)
    requires pc % 4 == 0 && island % 4 == 0
    requires InRange32(pc, island, A32_B_LOW, A32_B_HIGH)
    ensures var w := A32RelativeJump(island, pc);
            A.GetType(w).B_A1? && A.BranchAddr(w, pc, A.B_A1) == island
  {
    hide InRange32, SignExtend;
    var n := Wrap32(island - pc) % 0x400_0000 / 4;
    A32Lands(pc, island);
    assert A32RelativeJump(island, pc) % 0x100_0000 == n;
  }

  /** What is emitted for a window of one instruction fits in one enter slot. */
  lemma A64EnterFits(win: R.Window)
    requires |win.insts| == 1
    ensures 4 * |R.EnterWords(win)| <= ENTER_SIZE
  {
    hide R.GetType, Bits, R.FixAddr, R.NamedAddr, R.IsAddrNeedFix, R.ResumeX16;
    var image := R.Image(win, 0);
    assert R.Images(win) == [image];
    assert R.Images(win)[..0] == [];
    assert |image| <= 8;
    assert Concat([image]) == [] + image by {
      assert [image][..0] == [];
    }
  }
}
