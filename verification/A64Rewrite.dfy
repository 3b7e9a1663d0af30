/** Re-encoding of a window of A64 instructions at another address
    (arch/arm64/sh_a64.c and sh_inst_rewrite of arch/arm64/sh_inst.c). */
module A64Rewrite {
  import opened Words
  import opened Layout

  datatype Type =
    | IGNORED
    | B | B_COND | BL
    | ADR | ADRP
    | LDR_LIT_32 | LDR_LIT_64 | LDRSW_LIT | PRFM_LIT
    | LDR_SIMD_LIT_32 | LDR_SIMD_LIT_64 | LDR_SIMD_LIT_128
    | CBZ | CBNZ | TBZ | TBNZ

  function GetType(w: bv32): Type {
    if w & 0xFC00_0000 == 0x1400_0000 then B
    else if w & 0xFF00_0010 == 0x5400_0000 then B_COND
    else if w & 0xFC00_0000 == 0x9400_0000 then BL
    else if w & 0x9F00_0000 == 0x1000_0000 then ADR
    else if w & 0x9F00_0000 == 0x9000_0000 then ADRP
    else if w & 0xFF00_0000 == 0x1800_0000 then LDR_LIT_32
    else if w & 0xFF00_0000 == 0x5800_0000 then LDR_LIT_64
    else if w & 0xFF00_0000 == 0x9800_0000 then LDRSW_LIT
    else if w & 0xFF00_0000 == 0xD800_0000 then PRFM_LIT
    else if w & 0xFF00_0000 == 0x1C00_0000 then LDR_SIMD_LIT_32
    else if w & 0xFF00_0000 == 0x5C00_0000 then LDR_SIMD_LIT_64
    else if w & 0xFF00_0000 == 0x9C00_0000 then LDR_SIMD_LIT_128
    else if w & 0x7F00_0000 == 0x3400_0000 then CBZ
    else if w & 0x7F00_0000 == 0x3500_0000 then CBNZ
    else if w & 0x7F00_0000 == 0x3600_0000 then TBZ
    else if w & 0x7F00_0000 == 0x3700_0000 then TBNZ
    else IGNORED
  }

  /** The two length tables, in bytes. */
  function RewriteLen(w: bv32, useIsland: bool): nat {
    match GetType(w)
    case IGNORED => 4
    case B => if useIsland then 24 else 20
    case B_COND => if useIsland then 32 else 28
    case BL => if useIsland then 24 else 20
    case ADR => 16
    case ADRP => 16
    case LDR_LIT_32 => 20
    case LDR_LIT_64 => 20
    case LDRSW_LIT => 20
    case PRFM_LIT => 28
    case LDR_SIMD_LIT_32 => 28
    case LDR_SIMD_LIT_64 => 28
    case LDR_SIMD_LIT_128 => 28
    case CBZ => if useIsland then 28 else 24
    case CBNZ => if useIsland then 28 else 24
    case TBZ => if useIsland then 28 else 24
    case TBNZ => if useIsland then 28 else 24
  }

  datatype RewriteInfo = RewriteInfo(
    startAddr: Word64,
    endAddr: int,
    buf: Word64,
    prologLen: nat,
    instLens: seq<nat>)

  predicate IsAddrNeedFix(addr: Word64, info: RewriteInfo) {
    info.startAddr <= addr < info.endAddr
  }

  /** Number of whole instructions that start below `addr`, capped by the table. */
  function InstsBelow(addr: int, info: RewriteInfo): nat
    requires info.startAddr <= addr
  {
    var n := (addr - info.startAddr + 3) / 4;
    if n <= |info.instLens| then n else |info.instLens|
  }

  function FixAddr(addr: Word64, info: RewriteInfo): Word64 {
    if IsAddrNeedFix(addr, info)
    then Wrap64(info.buf + info.prologLen + Sum(info.instLens[..InstsBelow(addr, info)]))
    else addr
  }

  /** The cursor loop of sh_a64_fix_addr. */
  method ComputeFixAddr(addr: Word64, info: RewriteInfo) returns (fixed: Word64)
    ensures fixed == FixAddr(addr, info)
  {
    if !IsAddrNeedFix(addr, info) {
      return addr;
    }
    var cursor: int := info.startAddr;
    var offset := 0;
    var i := 0;
    while i < |info.instLens| && cursor < addr
      invariant 0 <= i <= |info.instLens|
      invariant cursor == info.startAddr + 4 * i
      invariant offset == Sum(info.instLens[..i])
      invariant i <= InstsBelow(addr, info)
    {
      assert info.instLens[..i + 1][..i] == info.instLens[..i];
      cursor := cursor + 4;
      offset := offset + info.instLens[i];
      i := i + 1;
    }
    assert i == InstsBelow(addr, info);
    return Wrap64(info.buf + info.prologLen + offset);
  }

  /** The address a PC-relative instruction names, as each rewriter computes it. */
  function NamedAddr(w: bv32, pc: Word64): Word64 {
    var imm19 := Imm19(w);
    match GetType(w)
    case B | BL => Wrap64(pc + SignExtend(Imm26(w) * 4, 0x1000_0000))
    case TBZ | TBNZ => Wrap64(pc + SignExtend(Imm14(w) * 4, 0x1_0000))
    case ADR => Wrap64(pc + SignExtend(imm19 * 4 + ImmLo(w), 0x20_0000))
    case ADRP =>
      Wrap64(pc / 0x1000 * 0x1000 + SignExtend(imm19 * 0x4000 + ImmLo(w) * 0x1000, 0x2_0000_0000))
    case _ => Wrap64(pc + SignExtend(imm19 * 4, 0x20_0000))
  }

  // The island-rewrite of a mid-function window; its address is 0 when allocation failed.
  datatype Island = NoIsland | At(addr: Word64)

  const LDR_X17_8: bv32 := 0x5800_0051
  const STP_IP: bv32 := 0xA93F_47F0
  const LDP_IP: bv32 := 0xA97F_47F0

  /** B.<cond>, CBZ, CBNZ: the same test, branching to #8. */
  function Head19(w: bv32): bv32 {
    (w & 0xFF00_001F) | 0x40
  }

  /** TBZ, TBNZ: the same test, branching to #8. */
  function Head14(w: bv32): bv32 {
    (w & 0xFFF8_001F) | 0x40
  }

  /** LDR Xt, #8. */
  function LoadAt8(w: bv32): bv32 {
    0x5800_0040 | (w & 0x1F)
  }

  /** LDR Xt, #12. */
  function LoadAt12(w: bv32): bv32 {
    0x5800_0060 | (w & 0x1F)
  }

  /** LDR <t>, [Xt]. */
  function LoadThrough(w: bv32, t: Type): bv32 {
    var rt := w & 0x1F;
    if t.LDR_LIT_32? then 0xB940_0000 | rt | (rt << 5)
    else if t.LDR_LIT_64? then 0xF940_0000 | rt | (rt << 5)
    else 0xB980_0000 | rt | (rt << 5)
  }

  /** PRFM or LDR <St|Dt|Qt>, [X17]. */
  function UseX17(w: bv32, t: Type): bv32 {
    var rt := w & 0x1F;
    if t.PRFM_LIT? then 0xF980_0220 | rt
    else if t.LDR_SIMD_LIT_32? then 0xBD40_0220 | rt
    else if t.LDR_SIMD_LIT_64? then 0xFD40_0220 | rt
    else 0x3DC0_0220 | rt
  }

  /** STP X16, X17 when an island follows; LDR X17, #8; B #12; <addr>; BR or BLR X17. */
  function RewriteB(addr: Word64, useIsland: bool, link: bool): (words: seq<bv32>)
    ensures |words| == if useIsland then 6 else 5
  {
    (if useIsland then [STP_IP] else [])
    + [LDR_X17_8, 0x1400_0003, Low32(addr), High32(addr),
       if link then 0xD63F_0220 else 0xD61F_0220]
  }

  function RewriteBCond(head: bv32, addr: Word64, useIsland: bool): (words: seq<bv32>)
    ensures |words| == if useIsland then 8 else 7
  {
    [head, if useIsland then 0x1400_0007 else 0x1400_0006] + RewriteB(addr, useIsland, false)
  }

  /** CBZ, CBNZ, TBZ and TBNZ. */
  function RewriteTestBranch(head: bv32, addr: Word64, useIsland: bool): (words: seq<bv32>)
    ensures |words| == if useIsland then 7 else 6
  {
    (if useIsland then [head, 0x1400_0006, STP_IP] else [head, 0x1400_0005])
    + [LDR_X17_8, 0xD61F_0220, Low32(addr), High32(addr)]
  }

  function RewriteAdr(load: bv32, addr: Word64): (words: seq<bv32>)
    ensures |words| == 4
  {
    [load, 0x1400_0003, Low32(addr), High32(addr)]
  }

  function RewriteLdr(load: bv32, through: bv32, addr: Word64): (words: seq<bv32>)
    ensures |words| == 5
  {
    [load, through, 0x1400_0003, Low32(addr), High32(addr)]
  }

  /** PRFM and the SIMD loads borrow X17 and give it back. */
  function RewriteViaX17(use: bv32, addr: Word64): (words: seq<bv32>)
    ensures |words| == 7
  {
    [STP_IP, 0x5800_0091, use, 0xF85F_83F1, 0x1400_0003, Low32(addr), High32(addr)]
  }

  /** sh_a64_relative_jump: B <addr> for an instruction at `pc`. */
  function RelativeJump(addr: Word64, pc: Word64): bv32 {
    0x1400_0000 | Bits(Wrap64(addr - pc) % 0x1000_0000 / 4)
  }

  /** sh_a64_rewrite: the words that replace `w`; no word at all means the rewrite failed. */
  function Rewrite(w: bv32, pc: Word64, info: RewriteInfo, island: Island): seq<bv32> {
    RewriteAs(GetType(w), w, NamedAddr(w, pc), info, island)
  }

  function RewriteAs(t: Type, w: bv32, named: Word64, info: RewriteInfo, island: Island): seq<bv32> {
    var goes := if island.At? then island.addr else FixAddr(named, info);
    match t
    case IGNORED => [w]
    case B | BL => if island == At(0) then [] else RewriteB(goes, island.At?, t.BL?)
    case B_COND => if island == At(0) then [] else RewriteBCond(Head19(w), goes, island.At?)
    case CBZ | CBNZ => if island == At(0) then [] else RewriteTestBranch(Head19(w), goes, island.At?)
    case TBZ | TBNZ => if island == At(0) then [] else RewriteTestBranch(Head14(w), goes, island.At?)
    case ADR | ADRP => if IsAddrNeedFix(named, info) then [] else RewriteAdr(LoadAt8(w), named)
    case LDR_LIT_32 | LDR_LIT_64 | LDRSW_LIT =>
      if IsAddrNeedFix(named, info) then [] else RewriteLdr(LoadAt12(w), LoadThrough(w, t), named)
    case PRFM_LIT => RewriteViaX17(UseX17(w, t), FixAddr(named, info))
    case _ => if IsAddrNeedFix(named, info) then [] else RewriteViaX17(UseX17(w, t), named)
  }

  /** ADRP or 64-bit LDR literal into X17 makes the resume jump use X16. */
  predicate ResumesThroughX16(w: bv32) {
    w & 0x1F == 17 && (GetType(w).ADRP? || GetType(w).LDR_LIT_64?)
  }

  /** The table and the emitter agree, so FixAddr can run before anything is emitted. */
  lemma RewriteLenIsEmittedLen(w: bv32, pc: Word64, info: RewriteInfo, island: Island)
    requires Rewrite(w, pc, info, island) != []
    ensures 4 * |Rewrite(w, pc, info, island)| == RewriteLen(w, island.At?)
  {
    hide Bits, GetType, NamedAddr, FixAddr, IsAddrNeedFix;
  }

  /** One call of sh_inst_rewrite: `insts` at `target` move into `enter` and jump back to `resume`. */
  datatype Window = Window(
    target: Word64,
    insts: seq<bv32>,
    enter: Word64,
    procStart: bool,
    island: Island,
    resume: Word64)

  function PrologWords(win: Window): seq<bv32> {
    if win.procStart then [] else [LDP_IP]
  }

  function InfoOf(win: Window): RewriteInfo {
    RewriteInfo(win.target, win.target + 4 * |win.insts|, win.enter, 4 * |PrologWords(win)|,
                seq(|win.insts|, (i: nat) requires i < |win.insts| => RewriteLen(win.insts[i], win.island.At?)))
  }

  function PcOf(win: Window, k: nat): Word64 {
    Wrap64(win.target + 4 * k)
  }

  function Image(win: Window, k: nat): seq<bv32>
    requires k < |win.insts|
  {
    Rewrite(win.insts[k], PcOf(win, k), InfoOf(win), win.island)
  }

  function Images(win: Window): (images: seq<seq<bv32>>)
    ensures |images| == |win.insts|
  {
    seq(|win.insts|, (k: nat) requires k < |win.insts| => Image(win, k))
  }

  predicate Rewritable(win: Window) {
    [] !in Images(win)
  }

  predicate ResumeX16(insts: seq<bv32>) {
    exists w | w in insts :: ResumesThroughX16(w)
  }

  /** sh_a64_absolute_jump_with_ret_ip. */
  function RetIp(throughX16: bool, addr: Word64): (words: seq<bv32>)
    ensures |words| == 4
  {
    [if throughX16 then 0x5800_0050 else 0x5800_0051, if throughX16 then 0xD65F_0200 else 0xD65F_0220,
     Low32(addr), High32(addr)]
  }

  /** sh_a64_absolute_jump_with_br_ip. */
  function BrIp(addr: Word64): (words: seq<bv32>)
    ensures |words| == 4
  {
    [LDR_X17_8, 0xD61F_0220, Low32(addr), High32(addr)]
  }

  /** sh_a64_absolute_jump_with_br_rx. */
  function BrRx(addr: Word64): (words: seq<bv32>)
    ensures |words| == 5
  {
    [STP_IP, 0x5800_0050, 0xD61F_0200, Low32(addr), High32(addr)]
  }

  /** What sh_inst_reloc_with_island writes into the exit island. */
  function ExitIsland(procStart: bool, toInterceptor: bool, addr: Word64): seq<bv32> {
    if !procStart || toInterceptor then BrRx(addr) else BrIp(addr)
  }

  /** sh_a64_absolute_jump_with_ret_rx. */
  function RetRx(addr: Word64): (words: seq<bv32>)
    ensures |words| == 5
  {
    [STP_IP, 0x5800_0050, 0xD65F_0200, Low32(addr), High32(addr)]
  }

  function ResumeJump(win: Window): seq<bv32> {
    if win.procStart then RetIp(ResumeX16(win.insts), win.resume) else RetRx(win.resume)
  }

  function EnterWords(win: Window): seq<bv32> {
    PrologWords(win) + Concat(Images(win)) + ResumeJump(win)
  }

  /** Word index in the enter buffer at which the image of instruction k starts. */
  function ImageIndex(win: Window, k: nat): nat
    requires k <= |win.insts|
  {
    |PrologWords(win)| + |Concat(Images(win)[..k])|
  }

  function ImageAddr(win: Window, k: nat): int
    requires k <= |win.insts|
  {
    win.enter + 4 * ImageIndex(win, k)
  }

  predicate PieceAt(words: seq<bv32>, at: nat, piece: seq<bv32>) {
    at + |piece| <= |words| && words[at..at + |piece|] == piece
  }

  lemma PieceInside(prolog: seq<bv32>, parts: seq<seq<bv32>>, jump: seq<bv32>, k: nat)
    requires k < |parts|
    ensures PieceAt(prolog + Concat(parts) + jump, |prolog| + |Concat(parts[..k])|, parts[k])
    ensures |Concat(parts[..k + 1])| == |Concat(parts[..k])| + |parts[k]|
  {
    PartAt(parts, k);
    var all := prolog + Concat(parts) + jump;
    var at := |Concat(parts[..k])|;
    assert all[|prolog| + at..|prolog| + at + |parts[k]|] == Concat(parts)[at..at + |parts[k]|];
  }

  /** The image of instruction k is in the buffer at ImageIndex. */
  lemma ImageInEnter(win: Window, k: nat)
    requires k < |win.insts|
    ensures PieceAt(EnterWords(win), ImageIndex(win, k), Images(win)[k])
    ensures ImageIndex(win, k + 1) == ImageIndex(win, k) + |Images(win)[k]|
  {
    hide Bits, Images, PrologWords, ResumeJump, PieceAt;
    PieceInside(PrologWords(win), Images(win), ResumeJump(win), k);
  }

  /** The resume jump follows the last image. */
  lemma ResumeInEnter(win: Window)
    ensures PieceAt(EnterWords(win), ImageIndex(win, |win.insts|), ResumeJump(win))
  {
    hide Bits, Images, PrologWords, ResumeJump;
    assert Images(win)[..|win.insts|] == Images(win);
  }

  lemma ImageLen(win: Window, k: nat)
    requires Rewritable(win) && k < |win.insts|
    ensures 4 * |Images(win)[k]| == InfoOf(win).instLens[k]
  {
    hide Bits, Rewrite, RewriteLen;
    assert Images(win)[k] in Images(win);
    RewriteLenIsEmittedLen(win.insts[k], PcOf(win, k), InfoOf(win), win.island);
  }

  lemma ImageOffsetIsTableSum(win: Window, j: nat)
    requires Rewritable(win) && j <= |win.insts|
    ensures 4 * |Concat(Images(win)[..j])| == Sum(InfoOf(win).instLens[..j])
  {
    hide Bits, Rewrite, RewriteLen, Image;
    forall k | 0 <= k < j ensures 4 * |Images(win)[..j][k]| == InfoOf(win).instLens[..j][k] {
      ImageLen(win, k);
    }
    ConcatLength(Images(win)[..j], InfoOf(win).instLens[..j], 4);
  }

  /** A branch to instruction j of the window is sent to the address where its image is written. */
  lemma FixAddrIsImageAddr(win: Window, j: nat)
    requires Rewritable(win) && j < |win.insts|
    requires win.target + 4 * |win.insts| <= 0x1_0000_0000_0000_0000
    ensures FixAddr(PcOf(win, j), InfoOf(win)) == Wrap64(ImageAddr(win, j))
  {
    hide Bits, Rewrite, RewriteLen, Image;
    ImageOffsetIsTableSum(win, j);
  }

  /** What has been emitted when the first k instructions are done. */
  function Emitted(win: Window, k: nat): seq<bv32>
    requires k <= |win.insts|
  {
    Concat(Images(win)[..k])
  }

  lemma EmittedStep(win: Window, k: nat)
    requires k < |win.insts|
    ensures var words := Rewrite(win.insts[k], PcOf(win, k), InfoOf(win), win.island);
            && Emitted(win, k + 1) == Emitted(win, k) + words
            && |Emitted(win, k + 1)| <= |Emitted(win, |win.insts|)|
            && (words == [] ==> !Rewritable(win))
            && ([] !in Images(win)[..k] && words != [] ==> [] !in Images(win)[..k + 1])
    ensures ResumeX16(win.insts[..k + 1]) == (ResumeX16(win.insts[..k]) || ResumesThroughX16(win.insts[k]))
  {
    hide Bits, Rewrite, RewriteLen, ResumesThroughX16;
    var images := Images(win);
    assert images[..|win.insts|] == images && images[k] in images;
    assert images[..k + 1] == images[..k] + [images[k]];
    assert win.insts[..k + 1] == win.insts[..k] + [win.insts[k]];
    ConcatSnoc(images, k);
    ConcatTake(images, k + 1);
  }

  lemma EmittedEnds(win: Window)
    ensures Emitted(win, 0) == [] && Emitted(win, |win.insts|) == Concat(Images(win))
  {
    hide Bits, Image;
    assert Images(win)[..|win.insts|] == Images(win);
  }

  /** The loop of sh_inst_rewrite over the window. */
  method EmitImages(win: Window, buf: array<bv32>, at: nat, ghost end: nat)
    returns (ok: bool, len: nat, resumeX16: bool)
    requires at + |Concat(Images(win))| <= end <= buf.Length
    modifies buf
    ensures ok == Rewritable(win)
    ensures ok ==>
              && len == at + |Concat(Images(win))|
              && buf[..len] == old(buf[..at]) + Concat(Images(win))
              && resumeX16 == ResumeX16(win.insts)
    ensures buf[end..] == old(buf[end..])
  {
    hide Bits, Rewrite, Image, ResumeX16, ResumesThroughX16, RewriteLen, Emitted;
    EmittedEnds(win);
    var info := InfoOf(win);
    ok, len, resumeX16 := true, at, false;
    assert !ResumeX16(win.insts[..0]) by {
      NothingResumesThroughX16(win.insts[..0]);
    }
    var i := 0;
    while ok && i < |win.insts|
      invariant 0 <= i <= |win.insts|
      invariant len == at + |Emitted(win, i)| <= end
      invariant buf[..len] == old(buf[..at]) + Emitted(win, i)
      invariant if ok then [] !in Images(win)[..i] else !Rewritable(win)
      invariant resumeX16 == ResumeX16(win.insts[..i])
      invariant buf[end..] == old(buf[end..])
      decreases |win.insts| - i, ok
    {
      var words := Rewrite(win.insts[i], PcOf(win, i), info, win.island);
      EmittedStep(win, i);
      if words == [] {
        ok := false;
      } else {
        resumeX16 := resumeX16 || ResumesThroughX16(win.insts[i]);
        Append(buf, len, words, end);
        len := len + |words|;
        i := i + 1;
      }
    }
    assert win.insts[..|win.insts|] == win.insts && Images(win)[..|win.insts|] == Images(win);
  }

  lemma NothingResumesThroughX16(insts: seq<bv32>)
    requires insts == []
    ensures !ResumeX16(insts)
  {
  }

  /** sh_inst_rewrite: keeps the original instructions, fills the enter buffer and hands out its address, or fails at the
      first instruction it cannot rewrite, and then hands out none. */
  method RewriteWindow(win: Window, buf: array<bv32>, backup: array<bv32>)
    returns (ok: bool, len: nat, origAddr: seq<Word64>)
    requires buf.Length >= |EnterWords(win)| && backup.Length >= |win.insts| && backup != buf
    modifies buf, backup
    ensures ok == Rewritable(win)
    ensures ok ==> len == |EnterWords(win)| && buf[..len] == EnterWords(win)
    ensures buf[|EnterWords(win)|..] == old(buf[|EnterWords(win)|..])
    ensures backup[..|win.insts|] == win.insts && backup[|win.insts|..] == old(backup[|win.insts|..])
    ensures origAddr == if ok then [win.enter] else []
  {
    hide Bits, Images, ResumeX16;
    Append(backup, 0, win.insts, |win.insts|);
    origAddr := [];
    ghost var end := |EnterWords(win)|;
    len := 0;
    if !win.procStart {
      Append(buf, 0, [LDP_IP], end);
      len := 1;
    }
    assert buf[..len] == PrologWords(win);
    var resumeX16;
    ok, len, resumeX16 := EmitImages(win, buf, len, end);
    if ok {
      var jump := RetIp(resumeX16, win.resume);
      if !win.procStart {
        jump := RetRx(win.resume);
      }
      Append(buf, len, jump, end);
      len := len + |jump|;
      origAddr := [win.enter];
    }
  }
}
