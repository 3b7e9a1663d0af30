/** What the images of Arm instructions compute, alone and in a moved window. */
module A32Sim {
  import opened Words
  import opened Layout
  import opened A32Rewrite
  import opened ThumbArms
  import opened A32Cpu
  import opened A32Data
  import C = ThumbCpu

  lemma Doubled(x: int, h: nat, full: int)
    requires 0 <= h < 4 && 0 <= x < full && full % 2 == 0
    ensures SignExtend(x * 4 + h, 4 * full) == 4 * SignExtend(x, full) + h
  {
  }

  lemma BranchGoes(sem: Sem, w: Word32, pc: Word32, c: C.Machine)
    requires Known(w) && IsBranch(GetType(w)) && Holds(w, c)
    ensures Exec(sem, w, pc, c) == Taken(if Links(w) then C.SetReg(c, C.LR, Wrap32(pc - 4)) else c, BranchAddr(w, pc, GetType(w)))
  {
    hide GetType, Cond, CondHolds, SetBit0, SignExtend;
    Doubled(w % 0x100_0000, 0, 0x100_0000);
    Doubled(w % 0x100_0000, w / 0x100_0000 % 2 * 2, 0x100_0000);
  }

  lemma BranchEnds(sem: Sem, w: Word32, pc: Word32, info: Info, p: Word32, c: C.Machine) returns (e: C.Machine)
    requires Known(w) && IsBranch(GetType(w))
    requires var words := Rewrite(w, pc, info); CodeAt(c.rest.mem, p, words) && p % 4 == 0 && p + 4 * |words| < CODE_END
    ensures Ends(sem, w, pc, info, p, 4 * |Rewrite(w, pc, info)|, c, e)
  {
    hide GetType, Cond, CodeAt, Reaches, FixAddr, CondHolds, BranchAddr, Decode, Exec, Known;
    var t, words := GetType(w), Rewrite(w, pc, info);
    var cond := if t.BLX_IMM_A2? then 14 else Cond(w);
    var addr := FixAddr(BranchAddr(w, pc, t), info);
    ImageCond(w);
    AlwaysHolds(c.flags);
    ReachesSelf(sem, At(p, c));
    StaysIfNot(sem, w, pc, c);
    if Holds(w, c) {
      BranchGoes(sem, w, pc, c);
    }
    if Links(w) {
      DecodeAdrLr(cond);
      Executes(sem, At(p, c), p, words, 0, c);
      assert Align4(p + 8) == p + 8;
      assert words[1..4] == LoadAddr(cond, 15, addr);
      LoadAddrRuns(sem, At(p, c), p, words, 1, cond, 15, addr, if Holds(w, c) then C.SetReg(c, C.LR, p + 16) else c);
    } else {
      assert words[0..3] == LoadAddr(cond, 15, addr);
      LoadAddrRuns(sem, At(p, c), p, words, 0, cond, 15, addr, c);
    }
    SetLrTwice(c, Wrap32(pc - 4), p + 16);
    e := if Links(w) && Holds(w, c) then C.SetReg(c, C.LR, p + 16) else c;
  }

  lemma SetLrTwice(c: C.Machine, a: Word32, b: Word32)
    ensures C.SetReg(C.SetReg(c, C.LR, a), C.LR, b) == C.SetReg(c, C.LR, b)
  {
    assert c.rest.r[C.LR := a][C.LR := b] == c.rest.r[C.LR := b];
  }

  /** ADR, and MOV PC, PC; the window is too short for PC to lie in it. */
  lemma AddressEnds(sem: Sem, w: Word32, pc: Word32, info: Info, p: Word32, c: C.Machine) returns (e: C.Machine)
    requires Known(w) && GetType(w) in {ADR_A1, ADR_A2, MOV_REG_PC_A1} && !IsAddrNeedFix(pc, info) && Rewrite(w, pc, info) != []
    requires var words := Rewrite(w, pc, info); CodeAt(c.rest.mem, p, words) && p % 4 == 0 && p + 4 * |words| < CODE_END
    ensures Ends(sem, w, pc, info, p, 4 * |Rewrite(w, pc, info)|, c, e)
  {
    hide Cond, CodeAt, Reaches, CondHolds, AdrAddr, Decode, Op, Rn, Shift, Rm, Sum;
    var t, words := GetType(w), Rewrite(w, pc, info);
    if t.MOV_REG_PC_A1? {
      MovPcIs15(w);
    }
    ImageCond(w);
    hide GetType;
    ReachesSelf(sem, At(p, c));
    assert words[0..3] == words;
    var addr := if t.MOV_REG_PC_A1? then pc else AdrAddr(w, pc, t);
    LoadAddrRuns(sem, At(p, c), p, words, 0, Cond(w), Rd(w), addr, c);
    e := if CondHolds(Cond(w), c.flags) && Rd(w) != 15 then C.SetReg(c, Rd(w), addr) else c;
  }

  lemma MovPcIs15(w: Word32)
    requires GetType(w).MOV_REG_PC_A1?
    ensures Rd(w) == 15
  {
    hide Cond, Op, Rn, Shift, Rm;
  }

  lemma LoadExec(sem: Sem, w: Word32, pc: Word32, c: C.Machine)
    requires Known(w) && IsLoad(GetType(w)) && Holds(w, c)
    ensures var t, rt := GetType(w), Rd(w);
            && rt < (if AccessOf(t).D? then 14 else 15)
            && Exec(sem, w, pc, c)
               == Next(C.LoadInto(c, AccessOf(t), rt, if AccessOf(t).D? then rt + 1 else 0, Literal(w, pc, t)))
  {
    hide GetType, Cond, C.LoadInto, Literal;
  }

  lemma LoadImage(w: Word32, pc: Word32, info: Info)
    requires IsLoad(GetType(w)) && Rewrite(w, pc, info) != []
    ensures var t := GetType(w);
            Rewrite(w, pc, info)
            == [SkipIf(Cond(w)), Skip(3)] + LoadAddr(0xE, Rd(w), Literal(w, pc, t)) + [LoadThrough(t, Rd(w))]
  {
    hide GetType, Cond, LoadAddr, Literal, IsAddrNeedFix, LoadThrough, SkipIf;
  }

  lemma LoadEnds(sem: Sem, w: Word32, pc: Word32, info: Info, p: Word32, c: C.Machine) returns (e: C.Machine)
    requires Known(w) && IsLoad(GetType(w)) && Rewrite(w, pc, info) != []
    requires var words := Rewrite(w, pc, info); CodeAt(c.rest.mem, p, words) && p % 4 == 0 && p + 4 * |words| < CODE_END
    ensures Ends(sem, w, pc, info, p, 4 * |Rewrite(w, pc, info)|, c, e)
  {
    hide GetType, Cond, CodeAt, Reaches, CondHolds, Decode, Exec, Known, Rewrite, Literal, LoadThrough, SkipIf, C.LoadValue,
         C.WordFrom, Rd;
    var t, rt, words := GetType(w), Rd(w), Rewrite(w, pc, info);
    var addr := Literal(w, pc, t);
    LoadImage(w, pc, info);
    ImageCond(w);
    StaysIfNot(sem, w, pc, c);
    SkipIfRuns(sem, p, words, Cond(w), 3, c);
    e := c;
    if Holds(w, c) {
      LoadExec(sem, w, pc, c);
      AlwaysHolds(c.flags);
      assert words[2..5] == LoadAddr(0xE, rt, addr);
      LoadAddrRuns(sem, At(p, c), p, words, 2, 14, rt, addr, c);
      DecodeThrough(t, rt);
      Executes(sem, At(p, c), p, words, 5, C.SetReg(c, rt, addr));
      var value := C.LoadValue(c.rest.mem, addr, AccessOf(t));
      assert c.rest.r[rt := addr][rt := value] == c.rest.r[rt := value];
      e := C.LoadInto(c, AccessOf(t), rt, if AccessOf(t).D? then rt + 1 else 0, addr);
    }
  }

  /** PC makes no difference to it. */
  predicate Free(w: Word32) {
    !ReadsPc(Decode(w)) || (Overlooked(w) && Discards(Shift(w)))
  }

  lemma PlainIsFree(w: Word32)
    requires Known(w) && GetType(w).IGNORED? && Right(w)
    ensures Cond(w) == 15 || Free(w)
  {
    hide GetType, Decode, Overlooked, Discards, Cond, Op, Rn, Rd, Rm, Shift;
  }

  lemma PlainExec(sem: Sem, w: Word32, pc: Word32, c: C.Machine)
    requires Known(w) && GetType(w).IGNORED?
    ensures Cond(w) == 15 || (Fits(Decode(w)) && !Decode(w).Branch?)
    ensures Exec(sem, w, pc, c)
            == if Cond(w) == 15 then Other(sem, w, c)
               else if CondHolds(Cond(w), c.flags) then Effect(sem, w, Decode(w), pc, c)
               else Next(c)
  {
    hide GetType, Decode, Effect, Overlooked;
    NoCondition(c.flags);
    OverlookedIsNoBranch(w);
    if Cond(w) != 15 && !ReadsPc(Decode(w)) {
      NotBranch(w);
    }
  }

  lemma SameSum(op: nat, a: Word32, x: Word32, y: Word32, shift: nat, f: Flags)
    requires !IsMov(op) && Discards(shift) && x % 4 == y % 4
    ensures Data(op, a, x, shift, f) == Data(op, a, y, shift, f)
  {
    SameShifted(x, y, shift, f.c);
    hide Shifted, AddWithCarry, Discards;
  }

  lemma OverlookedEffect(sem: Sem, w: Word32, pc: Word32, pc': Word32, c: C.Machine)
    requires Overlooked(w) && Discards(Shift(w)) && pc % 4 == pc' % 4
    ensures Decode(w).Alu? && Effect(sem, w, Decode(w), pc, c) == Effect(sem, w, Decode(w), pc', c)
    ensures Effect(sem, w, Decode(w), pc, c).Next?
  {
    DecodeOverlooked(w);
    hide Decode, Cond, Op, Rn, Rd, Rm, Shift, Data, Discards;
    SameSum(Op(w), C.Sp(c), pc, pc', Shift(w), c.flags);
  }

  /** At p it has the same effect, but for the link register of a call. */
  lemma PlainExecutes(sem: Sem, w: Word32, pc: Word32, p: Word32, c: C.Machine)
    requires Fits(Decode(w)) && Free(w) && !Decode(w).Branch? && p + 8 < 0x1_0000_0000 && p % 4 == 0 && pc % 4 == 0
    ensures Execute(sem, w, p, c)
            == if Decode(w).Blx? then Gone(c.rest.r[Decode(w).rm], C.SetReg(c, C.LR, p + 4))
               else After(Effect(sem, w, Decode(w), pc, c), p + 4)
    ensures var o := Effect(sem, w, Decode(w), pc, c);
            && (o.Taken? ==> o.addr < 0x1_0000_0000)
            && (Decode(w).Blx? ==> o == Taken(C.SetReg(c, C.LR, Wrap32(pc - 4)), c.rest.r[Decode(w).rm]))
  {
    hide Decode, Effect, ReadsPc, Overlooked, Discards, Shift;
    if Decode(w).Blx? {
      CallEffect(sem, w, Decode(w), pc, c);
      CallEffect(sem, w, Decode(w), Wrap32(p + 8), c);
    } else if ReadsPc(Decode(w)) {
      OverlookedEffect(sem, w, pc, Wrap32(p + 8), c);
    } else {
      EffectWithoutPc(sem, w, Decode(w), pc, Wrap32(p + 8), c);
      EffectBounded(sem, w, Decode(w), pc, c);
    }
  }

  lemma CallEffect(sem: Sem, w: Word32, i: Instr, pc: Word32, c: C.Machine)
    requires Fits(i) && i.Blx?
    ensures Effect(sem, w, i, pc, c) == Taken(C.SetReg(c, C.LR, Wrap32(pc - 4)), c.rest.r[i.rm])
  {
  }

  lemma NotBranch(w: Word32)
    requires !ReadsPc(Decode(w))
    ensures !Decode(w).Branch?
  {
    hide Decode;
  }

  lemma NoCondition(f: Flags)
    ensures CondHolds(15, f)
  {
  }

  lemma EffectBounded(sem: Sem, w: Word32, i: Instr, pc: Word32, c: C.Machine)
    requires Fits(i) && !ReadsPc(i)
    ensures var o := Effect(sem, w, i, pc, c); o.Taken? ==> o.addr < 0x1_0000_0000
  {
    hide Data, Indexed, C.LoadInto, C.WordFrom, C.PutWord;
  }

  /** What it executes at p. */
  lemma PlainRuns(sem: Sem, w: Word32, pc: Word32, p: Word32, c: C.Machine)
    requires C.WordFrom(c.rest.mem, p) == w && p % 4 == 0 && pc % 4 == 0 && p + 8 < 0x1_0000_0000
    requires Cond(w) == 15 || (Free(w) && Fits(Decode(w)) && !Decode(w).Branch?)
    ensures Reaches(sem, At(p, c), if Cond(w) == 15 then After(Other(sem, w, c), p + 4)
                                   else if !CondHolds(Cond(w), c.flags) then At(p + 4, c)
                                   else if Decode(w).Blx? then Gone(c.rest.r[Decode(w).rm], C.SetReg(c, C.LR, p + 4))
                                   else After(Effect(sem, w, Decode(w), pc, c), p + 4))
  {
    FieldBounds(w);
    hide Decode, CondHolds, Effect, Free, Reaches, Execute, Cond, After, C.WordFrom;
    ReachesSelf(sem, At(p, c));
    Onward(sem, At(p, c), At(p, c));
    if Cond(w) != 15 && CondHolds(Cond(w), c.flags) {
      PlainExecutes(sem, w, pc, p, c);
    }
  }

  /** What is not rewritten does at its new place what it did at the old one. */
  lemma PlainEnds(sem: Sem, w: Word32, pc: Word32, info: Info, p: Word32, c: C.Machine) returns (e: C.Machine)
    requires Known(w) && GetType(w).IGNORED? && Right(w) && pc % 4 == 0
    requires var words := Rewrite(w, pc, info); CodeAt(c.rest.mem, p, words) && p % 4 == 0 && p + 4 * |words| < CODE_END
    ensures Ends(sem, w, pc, info, p, 4 * |Rewrite(w, pc, info)|, c, e)
  {
    hide GetType, Decode, CondHolds, Effect, Free, Reaches, Exec, Known, Right, Cond, Rewrite, CodeAt, Links, Ends, ReadsPc;
    FieldBounds(w);
    PlainLinks(w);
    PlainImage(w, pc, info);
    PlainIsFree(w);
    PlainExec(sem, w, pc, c);
    CodeFits(p);
    WordOf(c.rest.mem, p, [w], 0);
    PlainRuns(sem, w, pc, p, c);
    e := Exec(sem, w, pc, c).core;
    if Cond(w) != 15 && CondHolds(Cond(w), c.flags) && Decode(w).Blx? {
      e := C.SetReg(c, C.LR, p + 4);
      CallEffect(sem, w, Decode(w), pc, c);
      CallEnds(sem, w, pc, info, p, c, e);
    } else {
      EffectFits(sem, w, pc, c);
      OtherEnds(sem, w, pc, info, p, c, e);
    }
  }

  lemma PlainLinks(w: Word32)
    requires GetType(w).IGNORED?
    ensures Links(w) <==> Cond(w) != 15 && Decode(w).Blx?
  {
    hide GetType, Cond, Decode;
  }

  lemma PlainImage(w: Word32, pc: Word32, info: Info)
    requires GetType(w).IGNORED?
    ensures Rewrite(w, pc, info) == [w]
  {
    hide GetType;
  }

  lemma CodeFits(p: int)
    ensures p + 4 < CODE_END ==> p + 8 < 0x1_0000_0000
  {
  }

  lemma EffectFits(sem: Sem, w: Word32, pc: Word32, c: C.Machine)
    requires Cond(w) == 15 || (Free(w) && Fits(Decode(w)) && !Decode(w).Branch?)
    ensures var o := if Cond(w) == 15 then Other(sem, w, c)
                     else if CondHolds(Cond(w), c.flags) then Effect(sem, w, Decode(w), pc, c)
                     else Next(c);
            o.Taken? ==> o.addr < 0x1_0000_0000
  {
    FieldBounds(w);
    hide Decode, CondHolds, Effect, ReadsPc, Overlooked, Discards, Shift, Cond;
    if Cond(w) != 15 {
      if ReadsPc(Decode(w)) {
        OverlookedEffect(sem, w, pc, pc, c);
      } else {
        EffectBounded(sem, w, Decode(w), pc, c);
      }
    }
  }

  lemma CallEnds(sem: Sem, w: Word32, pc: Word32, info: Info, p: Word32, c: C.Machine, e: C.Machine)
    requires Known(w) && GetType(w).IGNORED? && Cond(w) != 15 && Decode(w).Blx? && p + 4 < CODE_END
    requires Exec(sem, w, pc, c) == Taken(C.SetReg(c, C.LR, Wrap32(pc - 4)), c.rest.r[Decode(w).rm])
    requires e == C.SetReg(c, C.LR, p + 4) && Reaches(sem, At(p, c), Gone(c.rest.r[Decode(w).rm], e))
    ensures Ends(sem, w, pc, info, p, 4, c, e)
  {
    hide Exec, Known, GetType, Cond, Decode, Reaches;
    SetLrTwice(c, Wrap32(pc - 4), p + 4);
  }

  lemma OtherEnds(sem: Sem, w: Word32, pc: Word32, info: Info, p: Word32, c: C.Machine, e: C.Machine)
    requires Known(w) && GetType(w).IGNORED? && p + 4 < CODE_END
    requires var o := Exec(sem, w, pc, c);
             && e == o.core && (o.Taken? ==> o.addr < 0x1_0000_0000 && !Links(w)) && Reaches(sem, At(p, c), After(o, p + 4))
    ensures Ends(sem, w, pc, info, p, 4, c, e)
  {
    hide Exec, Known, GetType, Links, Reaches;
  }

  /** Wherever its image is placed, at a multiple of four, an instruction does what it did where it was: the same registers,
      flags and memory from SP up, the same successor or branch target (fixed up when it lies in the window), and a link
      register that points behind the image. */
  lemma ImageMeans(sem: Sem, w: Word32, pc: Word32, info: Info, p: Word32, c: C.Machine) returns (e: C.Machine)
    requires Known(w) && Right(w) && pc % 4 == 0 && Rewrite(w, pc, info) != [] && !IsAddrNeedFix(pc, info)
    requires var words := Rewrite(w, pc, info);
             && CodeAt(c.rest.mem, p, words) && p % 4 == 0 && p + 4 * |words| < CODE_END
             && StackReady(w, pc, p, 4 * |words|, c)
    ensures Ends(sem, w, pc, info, p, 4 * |Rewrite(w, pc, info)|, c, e)
  {
    hide Rewrite, Ends, CodeAt, IsAddrNeedFix, GetType, StackApart, IndexApart, ReadsApart, Right, Literal;
    if IsBranch(GetType(w)) {
      e := BranchEnds(sem, w, pc, info, p, c);
    } else if IsLoad(GetType(w)) {
      e := LoadEnds(sem, w, pc, info, p, c);
    } else if GetType(w) in {ADR_A1, ADR_A2, MOV_REG_PC_A1} {
      e := AddressEnds(sem, w, pc, info, p, c);
    } else if GetType(w).IGNORED? {
      e := PlainEnds(sem, w, pc, info, p, c);
    } else {
      e := BorrowEnds(sem, w, pc, info, p, c);
    }
  }

  // The moved window: one instruction with an island, two without.

  datatype Window = Window(target: Word32, enter: Word32, procStart: bool, insts: seq<Word32>)

  /** Everything lies below the top of the address space, at multiples of four. */
  predicate Placed(win: Window) {
    && 1 <= |win.insts| <= 2 && win.target % 4 == 0 && win.enter % 4 == 0
    && win.target + 0x40 < 0x1_0000_0000 && win.enter + 0x80 < CODE_END
  }

  function PcOf(win: Window, k: nat): Word32 {
    Wrap32(win.target + 4 * k + 8)
  }

  /** LDR IP, [SP, #-4] */
  function Prolog(win: Window): seq<Word32> {
    if win.procStart then [] else [0xE51D_C004]
  }

  function InfoOf(win: Window): Info {
    Info(win.target, win.target + 4 * |win.insts|, win.enter, 4 * |Prolog(win)|,
         seq(|win.insts|, (k: nat) requires k < |win.insts| => RewriteLen(win.insts[k])))
  }

  function Images(win: Window): (images: seq<seq<Word32>>)
    ensures |images| == |win.insts|
  {
    seq(|win.insts|, (k: nat) requires k < |win.insts| => Rewrite(win.insts[k], PcOf(win, k), InfoOf(win)))
  }

  predicate Rewritable(win: Window) {
    [] !in Images(win)
  }

  /** LDR PC, [PC, #-4]; <addr>. */
  function EnterWords(win: Window): seq<Word32> {
    Prolog(win) + Concat(Images(win)) + [0xE51F_F004, Wrap32(win.target + 4 * |win.insts|)]
  }

  function ImageAddr(win: Window, k: nat): int
    requires k <= |win.insts|
  {
    win.enter + 4 * |Prolog(win) + Concat(Images(win)[..k])|
  }

  /** PC is never inside so short a window, so reading it needs no fix-up. */
  lemma PcIsOutside(win: Window, k: nat)
    requires Placed(win) && k < |win.insts|
    ensures !IsAddrNeedFix(PcOf(win, k), InfoOf(win))
  {
  }

  lemma RewriteLenBound(w: Word32)
    ensures RewriteLen(w) <= 36
  {
    hide GetType;
  }

  lemma ImageLength(win: Window, k: nat)
    requires Rewritable(win) && k < |win.insts|
    ensures 4 * |Images(win)[k]| == RewriteLen(win.insts[k]) <= 36
  {
    hide Rewrite, RewriteLen, InfoOf;
    assert Images(win)[k] in Images(win);
    EmittedLenIsTableLen(win.insts[k], PcOf(win, k), InfoOf(win));
    RewriteLenBound(win.insts[k]);
  }

  /** What is emitted for a window of one instruction fits in one enter slot. */
  lemma EnterFits(win: Window)
    requires |win.insts| == 1 && Rewritable(win)
    ensures 4 * |EnterWords(win)| <= ENTER_SIZE
  {
    hide Rewrite, RewriteLen;
    ImageLength(win, 0);
    ConcatSnoc(Images(win), 0);
    NoPartsYet(Images(win));
    assert Images(win)[..1] == Images(win);
  }

  /** The first image follows the prolog, the second one follows the first. */
  lemma ImagesFollow(win: Window)
    requires Placed(win) && Rewritable(win)
    ensures ImageAddr(win, 0) == win.enter + 4 * |Prolog(win)|
    ensures ImageAddr(win, 1) == ImageAddr(win, 0) + RewriteLen(win.insts[0])
    ensures |win.insts| == 2 ==> ImageAddr(win, 2) == ImageAddr(win, 1) + RewriteLen(win.insts[1])
    ensures forall k | 0 <= k <= |win.insts| :: win.enter <= ImageAddr(win, k) < CODE_END && ImageAddr(win, k) % 4 == 0
  {
    hide Rewrite, RewriteLen, Images, Rewritable;
    var images := Images(win);
    assert Concat(images[..0]) == [];
    ImageLength(win, 0);
    ConcatSnoc(images, 0);
    if |win.insts| == 2 {
      ImageLength(win, 1);
      ConcatSnoc(images, 1);
    }
  }

  /** The address of an instruction of the window becomes the address of its image. */
  lemma FixUpLands(win: Window, k: nat)
    requires Placed(win) && Rewritable(win) && k < |win.insts|
    ensures FixAddr(win.target + 4 * k, InfoOf(win)) == ImageAddr(win, k)
  {
    hide Rewrite, RewriteLen, Images, Rewritable, ImageAddr;
    ImagesFollow(win);
    var lens := InfoOf(win).instLens;
    assert Sum(lens[..0]) == 0;
    SumSnoc(lens, 0);
  }

  ghost predicate Entered(win: Window, c: C.Machine) {
    Placed(win) && Rewritable(win) && CodeAt(c.rest.mem, win.enter, EnterWords(win))
  }

  lemma SliceIsThere(m: C.Ram, p: int, words: seq<Word32>, at: nat, part: seq<Word32>)
    requires CodeAt(m, p, words) && at + |part| <= |words| && words[at..at + |part|] == part
    ensures CodeAt(m, p + 4 * at, part)
  {
    hide C.WordFrom;
    forall k | 0 <= k < |part| ensures C.WordFrom(m, p + 4 * at + 4 * k) == part[k] {
      assert p + 4 * at + 4 * k == p + 4 * (at + k) && words[at..at + |part|][k] == words[at + k];
    }
  }

  lemma ImageIsThere(win: Window, k: nat, c: C.Machine)
    requires Entered(win, c) && k < |win.insts|
    ensures var p := ImageAddr(win, k);
            && 0 <= p && p + 4 * |Images(win)[k]| == ImageAddr(win, k + 1) < CODE_END && p % 4 == 0
            && CodeAt(c.rest.mem, p, Images(win)[k])
  {
    hide Images, Prolog, CodeAt, Concat, Rewritable;
    ImagesFollow(win);
    PartAt(Images(win), k);
    var words, enter := Images(win)[k], EnterWords(win);
    var before := |Concat(Images(win)[..k])|;
    var at := |Prolog(win)| + before;
    assert Concat(Images(win))[before..before + |words|] == words;
    assert enter[at..at + |words|] == words;
    SliceIsThere(c.rest.mem, win.enter, enter, at, words);
  }

  /** From the image at `p`, what falls through goes on at `next`, a branch to start j arrives at image j, and a branch
      out of [low, high) and a computed destination arrive where they want to; the state is as if the instruction had run
      at its own address. */
  ghost predicate Moves(sem: Sem, w: Word32, pc: Word32, p: int, next: int, c: C.Machine, e: C.Machine, images: seq<int>,
                        low: int, high: int)
  {
    && Known(w) && 0 <= p < CODE_END && 0 <= next < CODE_END
    && match Exec(sem, w, pc, c)
       case Next(t) => Reaches(sem, At(p, c), At(next, e)) && Leaves(w, e, t, C.Sp(c))
       case Taken(t, dest) =>
         && Leaves(w, e, if Links(w) then C.SetReg(t, C.LR, next) else t, C.Sp(c))
         && dest < 0x1_0000_0000
         && (if low <= dest < high && !Computes(GetType(w))
             then forall j | 0 <= j < |images| && dest == low + 4 * j && 0 <= images[j] < CODE_END ::
                    Reaches(sem, At(p, c), Gone(images[j], e))
             else Reaches(sem, At(p, c), Gone(dest, e)))
  }

  ghost predicate Fixes(info: Info, images: seq<int>) {
    forall j | 0 <= j < |images| && info.startAddr + 4 * j < 0x1_0000_0000 :: FixAddr(info.startAddr + 4 * j, info) == images[j]
  }

  lemma EndsMoves(sem: Sem, w: Word32, pc: Word32, info: Info, p: Word32, len: nat, c: C.Machine, e: C.Machine, images: seq<int>)
    requires Known(w) && p + len < CODE_END && Ends(sem, w, pc, info, p, len, c, e) && Fixes(info, images)
    ensures Moves(sem, w, pc, p, p + len, c, e, images, info.startAddr, info.endAddr)
  {
    hide Exec, Known, Reaches, Links, GetType, Leaves;
    match Exec(sem, w, pc, c)
    case Next(_) =>
    case Taken(_, dest) =>
      if !(info.startAddr <= dest < info.endAddr) {
        OutsideStays(dest, info);
      }
      hide FixAddr;
  }

  lemma OutsideStays(dest: Word32, info: Info)
    requires !(info.startAddr <= dest < info.endAddr)
    ensures FixAddr(dest, info) == dest
  {
  }

  function ImageAddrs(win: Window): (addrs: seq<int>)
    ensures |addrs| == |win.insts|
  {
    seq(|win.insts|, (k: nat) requires k < |win.insts| => ImageAddr(win, k))
  }

  /** An instruction does, in the moved window, what it did at its own address. */
  lemma InstMeans(sem: Sem, win: Window, k: nat, c: C.Machine) returns (e: C.Machine)
    requires Entered(win, c) && k < |win.insts| && Known(win.insts[k]) && Right(win.insts[k])
    requires StackReady(win.insts[k], PcOf(win, k), ImageAddr(win, k), 4 * |Images(win)[k]|, c)
    ensures Moves(sem, win.insts[k], PcOf(win, k), ImageAddr(win, k), ImageAddr(win, k + 1), c, e, ImageAddrs(win),
                  win.target, win.target + 4 * |win.insts|)
  {
    hide Exec, Known, Reaches, Links, CodeAt, Rewrite, FixAddr, ImageAddr, RewriteLen, Moves, EnterWords, IsAddrNeedFix,
         StackReady, Right;
    var w, pc, info, p := win.insts[k], PcOf(win, k), InfoOf(win), ImageAddr(win, k);
    ImageIsThere(win, k, c);
    assert Images(win)[k] in Images(win);
    PcIsOutside(win, k);
    e := ImageMeans(sem, w, pc, info, p, c);
    forall j | 0 <= j < |win.insts| ensures FixAddr(win.target + 4 * j, info) == ImageAddr(win, j) {
      FixUpLands(win, j);
    }
    EndsMoves(sem, w, pc, info, p, 4 * |Images(win)[k]|, c, e, ImageAddrs(win));
  }

  // The way in and the way back.

  lemma DecodeWays()
    ensures Cond(0xE51D_C004) == 14 && Decode(0xE51D_C004) == LdrSp(12, -4)
    ensures Cond(0xE51F_F004) == 14 && Decode(0xE51F_F004) == LdrPc(15, -4)
  {
    hide Cond, Op, Rn, Rd, Shift, Rm;
    FieldsOf(14, 0x51, 13, 12, 0, 4);
    FieldsOf(14, 0x51, 15, 15, 0, 4);
  }

  lemma EnterLayout(win: Window)
    requires Placed(win) && Rewritable(win)
    ensures var words, n := EnterWords(win), |Prolog(win)| + |Concat(Images(win))|;
            && |words| == n + 2 && words[n] == 0xE51F_F004 && words[n + 1] == Wrap32(win.target + 4 * |win.insts|)
            && (!win.procStart ==> words[0] == 0xE51D_C004)
            && win.enter + 4 * n == ImageAddr(win, |win.insts|) < CODE_END && ImageAddr(win, 0) == win.enter + 4 * |Prolog(win)|
            && win.enter + 4 * |words| < CODE_END + 8
  {
    hide Images, Rewritable, Concat;
    ImagesFollow(win);
    assert Images(win)[..|win.insts|] == Images(win);
  }

  /** How the hooked machine stands for `c` when it enters: in the middle of a function IP may be lost, but is below SP. */
  ghost predicate Stands(win: Window, c: C.Machine, h: C.Machine) {
    if win.procStart then h == c
    else C.Sp(c) >= 4 && C.WordFrom(c.rest.mem, C.Sp(c) - 4) == c.rest.r[12] && h == C.SetReg(c, 12, h.rest.r[12])
  }

  /** The prolog brings IP back. */
  lemma PrologRuns(sem: Sem, win: Window, c: C.Machine, h: C.Machine)
    requires Entered(win, h) && Stands(win, c, h)
    ensures 0 <= ImageAddr(win, 0) < CODE_END && Reaches(sem, At(win.enter, h), At(ImageAddr(win, 0), c)) && Entered(win, c)
  {
    hide CodeAt, Reaches, Decode, Cond, C.WordFrom, Images, Rewritable, Concat, Execute;
    ImagesFollow(win);
    EnterLayout(win);
    ReachesSelf(sem, At(win.enter, h));
    if !win.procStart {
      DecodeWays();
      AlwaysHolds(h.flags);
      Executes(sem, At(win.enter, h), win.enter, EnterWords(win), 0, h);
      LdrSpExecutes(sem, EnterWords(win)[0], win.enter, 12, -4, h);
      assert C.SetReg(h, 12, c.rest.r[12]).rest.r == c.rest.r;
    }
  }

  lemma EnteredTells(win: Window, c: C.Machine)
    requires Entered(win, c)
    ensures Placed(win) && Rewritable(win) && CodeAt(c.rest.mem, win.enter, EnterWords(win))
    ensures 0 <= win.target + 4 * |win.insts| < 0x1_0000_0000 && win.enter % 4 == 0
  {
    hide Rewritable, CodeAt, EnterWords;
  }

  lemma BehindIt(p: int)
    requires p % 4 == 0 && 0 <= p < CODE_END
    ensures p + 8 < 0x1_0000_0000 && Wrap32(Align4(p + 8) - 4) == p + 4
  {
  }

  lemma NoWrap(x: int)
    ensures 0 <= x < 0x1_0000_0000 ==> Wrap32(x) == x
  {
  }

  /** The last words lead to the instruction behind the window. */
  lemma ResumeRuns(sem: Sem, win: Window, s: Cpu, c: C.Machine)
    requires Entered(win, c) && 0 <= ImageAddr(win, |win.insts|) < CODE_END
    requires Reaches(sem, s, At(ImageAddr(win, |win.insts|), c))
    ensures Reaches(sem, s, Gone(win.target + 4 * |win.insts|, c))
  {
    hide *;
    EnteredTells(win, c);
    ImagesFollow(win);
    EnterLayout(win);
    var words, n := EnterWords(win), |Prolog(win)| + |Concat(Images(win))|;
    var p := win.enter + 4 * n;
    DecodeWays();
    AlwaysHolds(c.flags);
    Executes(sem, s, win.enter, words, n, c);
    BehindIt(p);
    LdrExecutes(sem, words[n], p, 15, -4, c);
    WordOf(c.rest.mem, win.enter, words, n + 1);
    NoWrap(win.target + 4 * |win.insts|);
  }

  /** The loop of sh_inst_arm_rewrite over the window. */
  method EmitImages(win: Window, buf: array<Word32>, at: nat, ghost end: nat) returns (ok: bool, len: nat)
    requires at + |Concat(Images(win))| <= end <= buf.Length
    modifies buf
    ensures ok == Rewritable(win)
    ensures ok ==> len == at + |Concat(Images(win))| && buf[..len] == old(buf[..at]) + Concat(Images(win))
    ensures buf[end..] == old(buf[end..])
  {
    hide Rewrite, InfoOf, Concat;
    ghost var all := Images(win);
    ok, len := true, at;
    NoPartsYet(all);
    var i := 0;
    while ok && i < |win.insts|
      invariant 0 <= i <= |win.insts|
      invariant len == at + |Concat(all[..i])| <= end
      invariant buf[..len] == old(buf[..at]) + Concat(all[..i])
      invariant if ok then [] !in all[..i] else [] in all
      invariant buf[end..] == old(buf[end..])
      decreases |win.insts| - i, ok
    {
      var words := Rewrite(win.insts[i], PcOf(win, i), InfoOf(win));
      OneMorePart(all, i);
      if words == [] {
        ok := false;
      } else {
        Append(buf, len, words, end);
        len := len + |words|;
        i := i + 1;
      }
    }
    assert all[..|win.insts|] == all;
  }

  /** sh_inst_arm_rewrite */
  method RewriteWindow(win: Window, buf: array<Word32>, backup: array<Word32>)
    returns (ok: bool, len: nat, origAddr: seq<Word32>)
    requires |EnterWords(win)| <= buf.Length && |win.insts| <= backup.Length && backup != buf
    modifies buf, backup
    ensures backup[..|win.insts|] == win.insts && backup[|win.insts|..] == old(backup[|win.insts|..])
    ensures origAddr == if ok then [win.enter] else []
    ensures ok == Rewritable(win)
    ensures ok ==> len == |EnterWords(win)| && buf[..len] == EnterWords(win)
    ensures buf[|EnterWords(win)|..] == old(buf[|EnterWords(win)|..])
  {
    hide Images;
    Append(backup, 0, win.insts, |win.insts|);
    origAddr := [];
    ghost var end := |EnterWords(win)|;
    len := 0;
    if !win.procStart {
      Append(buf, 0, [0xE51D_C004], end);
      len := 1;
    }
    assert buf[..len] == Prolog(win);
    ok, len := EmitImages(win, buf, len, end);
    if ok {
      Append(buf, len, [0xE51F_F004, Wrap32(win.target + 4 * |win.insts|)], end);
      len := len + 2;
      origAddr := [win.enter];
    }
  }
}
