/** Forward simulation of a moved Arm window (sh_inst_arm_rewrite in arch/arm/sh_inst.c): any instructions that can be
    rewritten, and any number of steps. */
module A32Run {
  import opened Words
  import opened Layout
  import opened A32Rewrite
  import opened ThumbArms
  import opened A32Cpu
  import opened A32Data
  import opened A32Sim
  import opened Sides
  import C = ThumbCpu

  // One instruction on both sides.

  /** The bytes that an instruction which uses PC reads. */
  ghost function Reads(w: Word32, pc: Word32, c: C.Machine): set<int> {
    var t := GetType(w);
    if IsLoad(t) then Span(Literal(w, pc, t), Size(AccessOf(t)))
    else if IsIndexLoad(t) then Span(IndexedOf(w, pc, c), Size(AccessOf(t)))
    else if t.LDR_LIT_PC_A1? then Span(Literal(w, pc, t), 4)
    else if t.LDR_REG_PC_A1? then Span(IndexedOf(w, pc, c), 4)
    else {}
  }

  /** What the rest of the program owes the engine when the original machine executes w in state `c`: the same effect in
      every state that may stand for `c`, reading nothing that may differ, and room below SP where a register is borrowed.
      `wrote` are the bytes that the instruction writes. */
  ghost predicate Relocatable(sem: Sem, w: Word32, pc: Word32, c: C.Machine, h: C.Machine, hidden: set<int>, wrote: set<int>,
                              code: set<int>)
    requires Known(w)
  {
    if GetType(w).IGNORED? then PlainAgrees(Exec(sem, w, pc, c), h, Exec(sem, w, pc, h), hidden - wrote, code)
    else
      && Reads(w, pc, c) !! hidden
      && (Borrows(GetType(w)) ==> C.Sp(c) >= 12 && Below(C.Sp(c), 12) !! Reads(w, pc, c) + code)
  }

  /** The bytes that may differ afterwards. */
  ghost function HiddenAfter(w: Word32, c: C.Machine, hidden: set<int>, wrote: set<int>): set<int> {
    if GetType(w).IGNORED? then hidden - wrote
    else if Borrows(GetType(w)) then hidden + Below(C.Sp(c), 12)
    else hidden
  }

  lemma SameData(w: Word32, pc: Word32, c: C.Machine, h: C.Machine, hidden: set<int>)
    requires Agree(c, h, {}, hidden)
    ensures DataOf(w, pc, c) == DataOf(w, pc, h) && IndexedOf(w, pc, c) == IndexedOf(w, pc, h)
    ensures Holds(w, c) == Holds(w, h)
  {
    SameRegisters(c, h, hidden);
    hide Shifted, AddWithCarry, GetType, CondHolds, Cond, Op, Rn, Rm, Shift;
  }

  lemma SetAgrees(c: C.Machine, h: C.Machine, hidden: set<int>, n: nat, x: Word32)
    requires n < 15 && Agree(c, h, {}, hidden)
    ensures Agree(C.SetReg(c, n, x), C.SetReg(h, n, x), {}, hidden)
  {
  }

  /** An instruction that uses PC has the same effect on both sides. */
  lemma ExecAgrees(sem: Sem, w: Word32, pc: Word32, c: C.Machine, h: C.Machine, hidden: set<int>)
    requires Known(w) && !GetType(w).IGNORED? && Agree(c, h, {}, hidden) && Reads(w, pc, c) !! hidden
    ensures SameOutcome(Exec(sem, w, pc, c), Exec(sem, w, pc, h), hidden)
  {
    SameData(w, pc, c, h, hidden);
    if Holds(w, c) {
      if IsBranch(GetType(w)) {
        BranchAgrees(sem, w, pc, c, h, hidden);
      } else if IsLoad(GetType(w)) || IsIndexLoad(GetType(w)) {
        IntoAgrees(sem, w, pc, c, h, hidden);
      } else {
        OtherAgrees(sem, w, pc, c, h, hidden);
      }
    } else {
      StaysIfNot(sem, w, pc, c);
      StaysIfNot(sem, w, pc, h);
    }
  }

  lemma BranchAgrees(sem: Sem, w: Word32, pc: Word32, c: C.Machine, h: C.Machine, hidden: set<int>)
    requires Known(w) && IsBranch(GetType(w)) && Agree(c, h, {}, hidden) && Holds(w, c) && Holds(w, h)
    ensures SameOutcome(Exec(sem, w, pc, c), Exec(sem, w, pc, h), hidden)
  {
    hide Exec, Known, GetType, BranchAddr, Holds, Cond;
    BranchGoes(sem, w, pc, c);
    BranchGoes(sem, w, pc, h);
    SetAgrees(c, h, hidden, C.LR, Wrap32(pc - 4));
  }

  lemma IntoAgrees(sem: Sem, w: Word32, pc: Word32, c: C.Machine, h: C.Machine, hidden: set<int>)
    requires Known(w) && (IsLoad(GetType(w)) || IsIndexLoad(GetType(w))) && Agree(c, h, {}, hidden)
    requires Reads(w, pc, c) !! hidden && Holds(w, c) && Holds(w, h) && IndexedOf(w, pc, c) == IndexedOf(w, pc, h)
    ensures SameOutcome(Exec(sem, w, pc, c), Exec(sem, w, pc, h), hidden)
  {
    hide Exec, Known, GetType, Literal, Holds, Cond, IndexedOf, C.LoadInto, Rd;
    var access := AccessOf(GetType(w));
    if IsLoad(GetType(w)) {
      LoadExec(sem, w, pc, c);
      LoadExec(sem, w, pc, h);
      LoadAgrees(c, h, hidden, access, Rd(w), if access.D? then Rd(w) + 1 else 0, Literal(w, pc, GetType(w)));
    } else {
      IndexExec(sem, w, pc, c);
      IndexExec(sem, w, pc, h);
      LoadAgrees(c, h, hidden, access, Rd(w), if access.D? then Rd(w) + 1 else 0, IndexedOf(w, pc, c));
    }
  }

  lemma OtherAgrees(sem: Sem, w: Word32, pc: Word32, c: C.Machine, h: C.Machine, hidden: set<int>)
    requires Known(w) && Agree(c, h, {}, hidden) && Holds(w, c) && Holds(w, h)
    requires !GetType(w).IGNORED? && !IsBranch(GetType(w)) && !IsLoad(GetType(w)) && !IsIndexLoad(GetType(w))
    requires Reads(w, pc, c) !! hidden && DataOf(w, pc, c) == DataOf(w, pc, h) && IndexedOf(w, pc, c) == IndexedOf(w, pc, h)
    ensures SameOutcome(Exec(sem, w, pc, c), Exec(sem, w, pc, h), hidden)
  {
    hide GetType, Literal, Holds, Cond, DataOf, IndexedOf, AdrAddr, Rd, C.WordFrom, Exec, Known, SameOutcome, Agree, Reads;
    var t := GetType(w);
    if IsData(t) {
      DataExec(sem, w, pc, c);
      DataExec(sem, w, pc, h);
      var (x, f) := DataOf(w, pc, c);
      FlagsAgree(c, h, hidden, f);
      SetAgrees(c.(flags := f), h.(flags := f), hidden, Rd(w), x);
      NextSame(C.SetReg(c.(flags := f), Rd(w), x), C.SetReg(h.(flags := f), Rd(w), x), hidden);
    } else if IsDataPc(t) {
      DataPcExec(sem, w, pc, c);
      DataPcExec(sem, w, pc, h);
      TakenSame(c, h, hidden, DataOf(w, pc, c).0);
    } else if t.LDR_LIT_PC_A1? {
      LiteralPcExec(sem, w, pc, c);
      LiteralPcExec(sem, w, pc, h);
      ReadsLiteral(w, pc, c, h, hidden);
      TakenSame(c, h, hidden, C.WordFrom(c.rest.mem, Literal(w, pc, t)));
    } else if t.LDR_REG_PC_A1? {
      IndexPcExec(sem, w, pc, c);
      IndexPcExec(sem, w, pc, h);
      ReadsIndexed(w, pc, c, h, hidden);
      TakenSame(c, h, hidden, C.WordFrom(c.rest.mem, IndexedOf(w, pc, c)));
    } else {
      AddressAgrees(sem, w, pc, c, h, hidden);
    }
  }

  lemma NextSame(t: C.Machine, e: C.Machine, hidden: set<int>)
    requires Agree(t, e, {}, hidden)
    ensures SameOutcome(Next(t), Next(e), hidden)
  {
    hide Agree;
  }

  lemma TakenSame(t: C.Machine, e: C.Machine, hidden: set<int>, dest: nat)
    requires Agree(t, e, {}, hidden)
    ensures SameOutcome(Taken(t, dest), Taken(e, dest), hidden)
  {
    hide Agree;
  }

  lemma FlagsAgree(c: C.Machine, h: C.Machine, hidden: set<int>, f: Flags)
    requires Agree(c, h, {}, hidden)
    ensures Agree(c.(flags := f), h.(flags := f), {}, hidden)
  {
  }

  lemma ReadsLiteral(w: Word32, pc: Word32, c: C.Machine, h: C.Machine, hidden: set<int>)
    requires GetType(w).LDR_LIT_PC_A1? && Agree(c, h, {}, hidden) && Reads(w, pc, c) !! hidden
    ensures var a := Literal(w, pc, LDR_LIT_PC_A1); C.WordFrom(c.rest.mem, a) == C.WordFrom(h.rest.mem, a)
  {
    hide GetType, Literal, C.WordFrom, IndexedOf;
    SameWord(c.rest.mem, h.rest.mem, Literal(w, pc, LDR_LIT_PC_A1));
  }

  lemma ReadsIndexed(w: Word32, pc: Word32, c: C.Machine, h: C.Machine, hidden: set<int>)
    requires GetType(w).LDR_REG_PC_A1? && Agree(c, h, {}, hidden) && Reads(w, pc, c) !! hidden
    ensures var a := IndexedOf(w, pc, c); C.WordFrom(c.rest.mem, a) == C.WordFrom(h.rest.mem, a)
  {
    hide GetType, Literal, C.WordFrom, IndexedOf;
    SameWord(c.rest.mem, h.rest.mem, IndexedOf(w, pc, c));
  }

  lemma AddressAgrees(sem: Sem, w: Word32, pc: Word32, c: C.Machine, h: C.Machine, hidden: set<int>)
    requires Known(w) && Agree(c, h, {}, hidden) && Holds(w, c) && Holds(w, h)
    requires GetType(w) in {ADR_A1, ADR_A2, MOV_REG_PC_A1}
    ensures SameOutcome(Exec(sem, w, pc, c), Exec(sem, w, pc, h), hidden)
  {
    FieldBounds(w);
    hide GetType, Holds, Cond, AdrAddr, Agree, SignExtend, Rd;
    if Rd(w) < 15 {
      SetAgrees(c, h, hidden, Rd(w), AdrAddr(w, pc, GetType(w)));
    }
  }

  /** The words of the enter are the engine's own. */
  ghost predicate Owned(win: Window, h: C.Machine, code: set<int>) {
    Entered(win, h) && Span(win.enter, 4 * |EnterWords(win)|) <= code
  }

  lemma OwnedKept(win: Window, h: C.Machine, e: C.Machine, code: set<int>)
    requires Owned(win, h, code) && SameBytesIn(h.rest.mem, e.rest.mem, code)
    ensures Owned(win, e, code)
  {
    hide Rewritable, EnterWords, Placed;
    var words := EnterWords(win);
    forall i | 0 <= i < |words| ensures C.WordFrom(e.rest.mem, win.enter + 4 * i) == words[i] {
      var a := win.enter + 4 * i;
      assert a in code && a + 1 in code && a + 2 in code && a + 3 in code;
    }
  }

  /** The stack is ready for an image on the hooked side. */
  lemma StackIsReady(sem: Sem, win: Window, k: nat, c: C.Machine, h: C.Machine, hidden: set<int>, wrote: set<int>,
                     code: set<int>)
    requires Owned(win, h, code) && k < |win.insts| && Known(win.insts[k]) && Agree(c, h, {}, hidden)
    requires Relocatable(sem, win.insts[k], PcOf(win, k), c, h, hidden, wrote, code)
    ensures StackReady(win.insts[k], PcOf(win, k), ImageAddr(win, k), 4 * |Images(win)[k]|, h)
  {
    hide Rewritable, Images, CodeAt, GetType, PcOf, Literal, IndexedOf, EnterWords, ImageAddr, Exec, Known, Reads, Borrows;
    var w, pc := win.insts[k], PcOf(win, k);
    SameSp(c, h, hidden);
    SameData(w, pc, c, h, hidden);
    ImageInEnter(win, k);
    PlainBorrowsNot(w);
    if Borrows(GetType(w)) {
      RoomIsReady(w, pc, ImageAddr(win, k), 4 * |Images(win)[k]|, c, h);
    } else {
      NothingToBorrow(w, pc, ImageAddr(win, k), 4 * |Images(win)[k]|, h);
    }
  }

  lemma PlainBorrowsNot(w: Word32)
    ensures GetType(w).IGNORED? ==> !Borrows(GetType(w))
  {
    hide GetType;
  }

  lemma NothingToBorrow(w: Word32, pc: Word32, p: int, len: nat, h: C.Machine)
    requires !Borrows(GetType(w))
    ensures StackReady(w, pc, p, len, h)
  {
    hide GetType;
  }

  lemma RoomIsReady(w: Word32, pc: Word32, p: int, len: nat, c: C.Machine, h: C.Machine)
    requires Borrows(GetType(w)) && len > 0 && C.Sp(c) >= 12 && C.Sp(c) == C.Sp(h)
    requires Below(C.Sp(c), 12) !! Span(p, len) && Below(C.Sp(c), 12) !! Reads(w, pc, c)
    requires IndexedOf(w, pc, c) == IndexedOf(w, pc, h)
    ensures StackReady(w, pc, p, len, h)
  {
    hide GetType, Literal, IndexedOf;
    OutOfTheWay(C.Sp(c), 12, p, len);
    if IsIndexLoad(GetType(w)) || GetType(w).LDR_REG_PC_A1? {
      OutOfTheWay(C.Sp(c), 12, IndexedOf(w, pc, c), Size(AccessOf(GetType(w))));
    } else if GetType(w).LDR_LIT_PC_A1? {
      OutOfTheWay(C.Sp(c), 12, Literal(w, pc, GetType(w)), 4);
    }
  }

  lemma ImageInEnter(win: Window, k: nat)
    requires Placed(win) && Rewritable(win) && k < |win.insts|
    ensures |Images(win)[k]| > 0
    ensures Span(ImageAddr(win, k), 4 * |Images(win)[k]|) <= Span(win.enter, 4 * |EnterWords(win)|)
  {
    hide Images, Rewritable, Prolog;
    PartAt(Images(win), k);
    ImageLength(win, k);
    RewriteLenBound(win.insts[k]);
  }

  /** State `e` of the hooked machine stands for what instruction k of the original one does in state `c`: it is at the next
      image, at the image of the destination, or at the destination. A call returns behind the image. */
  ghost predicate Arrives(sem: Sem, win: Window, k: nat, c: C.Machine, from: Cpu, e: C.Machine, hidden: set<int>)
    requires k < |win.insts| && Known(win.insts[k])
  {
    var w := win.insts[k];
    match Exec(sem, w, PcOf(win, k), c)
    case Next(t) => Reaches(sem, from, At(Wrap32(ImageAddr(win, k + 1)), e)) && Agree(t, e, {}, hidden)
    case Taken(t, dest) =>
      && dest < 0x1_0000_0000
      && (if Links(w) then Agree(t, e, {C.LR}, hidden) && e.rest.r[C.LR] == Wrap32(ImageAddr(win, k + 1))
          else Agree(t, e, {}, hidden))
      && (if Targets(win, w, dest)
          then forall j: nat | j < |win.insts| && dest == win.target + 4 * j ::
                 Reaches(sem, from, Gone(Wrap32(ImageAddr(win, j)), e))
          else Reaches(sem, from, Gone(dest, e)))
  }

  /** One original instruction, one image. */
  lemma ImageStep(sem: Sem, win: Window, k: nat, c: C.Machine, h: C.Machine, hidden: set<int>, wrote: set<int>, code: set<int>)
    returns (e: C.Machine)
    requires Owned(win, h, code) && k < |win.insts| && Agree(c, h, {}, hidden)
    requires Known(win.insts[k]) && Right(win.insts[k])
    requires Relocatable(sem, win.insts[k], PcOf(win, k), c, h, hidden, wrote, code)
    ensures SameBytesIn(h.rest.mem, e.rest.mem, code)
    ensures Arrives(sem, win, k, c, At(Wrap32(ImageAddr(win, k)), h), e, HiddenAfter(win.insts[k], c, hidden, wrote))
  {
    hide *;
    OwnedTells(win, h, code);
    ImagesFollow(win);
    StackIsReady(sem, win, k, c, h, hidden, wrote, code);
    e := InstMeans(sem, win, k, h);
    BothSides(sem, win.insts[k], PcOf(win, k), c, h, hidden, wrote, code);
    StepEnds(sem, win, k, c, h, e, hidden, wrote, code);
  }

  lemma OwnedTells(win: Window, h: C.Machine, code: set<int>)
    requires Owned(win, h, code)
    ensures Entered(win, h) && Placed(win) && Rewritable(win)
  {
    hide Rewritable, Placed, CodeAt;
  }

  lemma StepEnds(sem: Sem, win: Window, k: nat, c: C.Machine, h: C.Machine, e: C.Machine, hidden: set<int>, wrote: set<int>,
                 code: set<int>)
    requires Placed(win) && Rewritable(win) && k < |win.insts| && Agree(c, h, {}, hidden) && Known(win.insts[k])
    requires Relocatable(sem, win.insts[k], PcOf(win, k), c, h, hidden, wrote, code)
    requires Moves(sem, win.insts[k], PcOf(win, k), ImageAddr(win, k), ImageAddr(win, k + 1), h, e, ImageAddrs(win),
                   win.target, win.target + 4 * |win.insts|)
    requires SameOutcome(Exec(sem, win.insts[k], PcOf(win, k), c), Exec(sem, win.insts[k], PcOf(win, k), h),
                         if GetType(win.insts[k]).IGNORED? then hidden - wrote else hidden)
    ensures SameBytesIn(h.rest.mem, e.rest.mem, code)
    ensures Arrives(sem, win, k, c, At(Wrap32(ImageAddr(win, k)), h), e, HiddenAfter(win.insts[k], c, hidden, wrote))
  {
    hide Exec, Known, Reaches, GetType, Images, Rewritable, PcOf, ImageAddr, Links, Relocatable, HiddenAfter, Leaves, Computes,
         Agree, ImageAddrs, SameBytesIn, Placed;
    ImagesFollow(win);
    var w, pc := win.insts[k], PcOf(win, k);
    var o, o' := Exec(sem, w, pc, c), Exec(sem, w, pc, h);
    SameSp(c, h, hidden);
    match o'
    case Next(t') =>
      EndAgrees(w, o.core, t', e, C.Sp(c), {}, hidden, wrote, c);
      KeepsCode(sem, w, pc, c, h, t', e, hidden, wrote, code);
    case Taken(t', dest) =>
      var next := Wrap32(ImageAddr(win, k + 1));
      if Links(w) {
        LinkAgrees(o.core, t', next, if GetType(w).IGNORED? then hidden - wrote else hidden);
        EndAgrees(w, o.core, C.SetReg(t', C.LR, next), e, C.Sp(c), {C.LR}, hidden, wrote, c);
        KeepsCode(sem, w, pc, c, h, C.SetReg(t', C.LR, next), e, hidden, wrote, code);
        LeavesLink(w, e, t', next, C.Sp(c));
      } else {
        EndAgrees(w, o.core, t', e, C.Sp(c), {}, hidden, wrote, c);
        KeepsCode(sem, w, pc, c, h, t', e, hidden, wrote, code);
      }
      ImagesOf(win);
  }

  lemma ImagesOf(win: Window)
    ensures forall j: nat | j < |win.insts| :: ImageAddrs(win)[j] == ImageAddr(win, j)
  {
    hide ImageAddr;
  }

  lemma SameSp(c: C.Machine, h: C.Machine, hidden: set<int>)
    requires Agree(c, h, {}, hidden)
    ensures C.Sp(c) == C.Sp(h)
  {
  }

  lemma LinkAgrees(t: C.Machine, t': C.Machine, x: Word32, hidden: set<int>)
    requires Agree(t, t', {}, hidden)
    ensures Agree(t, C.SetReg(t', C.LR, x), {C.LR}, hidden)
  {
  }

  /** A destination that is subject to fix-up. */
  predicate Targets(win: Window, w: Word32, dest: nat) {
    win.target <= dest < win.target + 4 * |win.insts| && !Computes(GetType(w))
  }

  lemma EndAgrees(w: Word32, t: C.Machine, t': C.Machine, e: C.Machine, sp: Word32, lost: set<nat>, hidden: set<int>,
                  wrote: set<int>, c: C.Machine)
    requires Agree(t, t', lost, if GetType(w).IGNORED? then hidden - wrote else hidden)
    requires Leaves(w, e, t', sp) && sp == C.Sp(c)
    ensures Agree(t, e, lost, HiddenAfter(w, c, hidden, wrote))
  {
    hide GetType;
    assert forall a | !InRed(sp, a) :: a !in Below(sp, 12);
    assert forall a | a !in Below(sp, 12) :: !InRed(sp, a);
  }

  lemma ExecKeepsMem(sem: Sem, w: Word32, pc: Word32, c: C.Machine)
    requires Known(w) && !GetType(w).IGNORED?
    ensures Exec(sem, w, pc, c).core.rest.mem == c.rest.mem
  {
    hide GetType, Cond, DataOf, IndexedOf, Literal, AdrAddr, C.LoadValue, C.WordFrom, CondHolds, SignExtend;
  }

  lemma KeepsCode(sem: Sem, w: Word32, pc: Word32, c: C.Machine, h: C.Machine, t': C.Machine, e: C.Machine, hidden: set<int>,
                  wrote: set<int>, code: set<int>)
    requires Known(w) && Relocatable(sem, w, pc, c, h, hidden, wrote, code) && C.Sp(c) == C.Sp(h)
    requires Leaves(w, e, t', C.Sp(h)) && t'.rest.mem == Exec(sem, w, pc, h).core.rest.mem
    ensures SameBytesIn(h.rest.mem, e.rest.mem, code)
  {
    hide Exec, Known, GetType, Reads, SameOutcome;
    if !GetType(w).IGNORED? {
      ExecKeepsMem(sem, w, pc, h);
    }
    assert forall a | InRed(C.Sp(h), a) :: a in Below(C.Sp(c), 12);
  }

  lemma LeavesLink(w: Word32, e: C.Machine, t: C.Machine, x: Word32, sp: Word32)
    ensures Leaves(w, e, C.SetReg(t, C.LR, x), sp) ==> e.rest.r[C.LR] == x
  {
    hide GetType;
  }

  lemma BothSides(sem: Sem, w: Word32, pc: Word32, c: C.Machine, h: C.Machine, hidden: set<int>, wrote: set<int>, code: set<int>)
    requires Known(w) && Agree(c, h, {}, hidden) && Relocatable(sem, w, pc, c, h, hidden, wrote, code)
    ensures SameOutcome(Exec(sem, w, pc, c), Exec(sem, w, pc, h), if GetType(w).IGNORED? then hidden - wrote else hidden)
  {
    hide Exec, Known, GetType, Reads, SameOutcome;
    if !GetType(w).IGNORED? {
      ExecAgrees(sem, w, pc, c, h, hidden);
    }
  }

  // Inside the enter the hooked machine goes on where it writes PC.

  function StepIn(sem: Sem, low: int, high: int, s: Cpu): Cpu {
    match s
    case At(_, _) => Step(sem, s)
    case Gone(dest, c) => if low <= dest < high && dest % 4 == 0 then At(dest, c) else s
  }

  function RunIn(sem: Sem, low: int, high: int, s: Cpu, n: nat): Cpu
    decreases n
  {
    if n == 0 then s else RunIn(sem, low, high, StepIn(sem, low, high, s), n - 1)
  }

  ghost predicate ReachesIn(sem: Sem, low: int, high: int, s: Cpu, t: Cpu) {
    exists n: nat :: RunIn(sem, low, high, s, n) == t
  }

  lemma {:induction false} RunInAppend(sem: Sem, low: int, high: int, s: Cpu, n: nat, m: nat)
    ensures RunIn(sem, low, high, s, n + m) == RunIn(sem, low, high, RunIn(sem, low, high, s, n), m)
    decreases n
  {
    hide StepIn;
    if n > 0 {
      RunInAppend(sem, low, high, StepIn(sem, low, high, s), n - 1, m);
    }
  }

  lemma GoesOn(sem: Sem, low: int, high: int, s: Cpu, t: Cpu, u: Cpu)
    requires ReachesIn(sem, low, high, s, t) && ReachesIn(sem, low, high, t, u)
    ensures ReachesIn(sem, low, high, s, u)
  {
    hide StepIn;
    var n: nat :| RunIn(sem, low, high, s, n) == t;
    var m: nat :| RunIn(sem, low, high, t, m) == u;
    RunInAppend(sem, low, high, s, n, m);
  }

  lemma {:induction false} RunIsIn(sem: Sem, low: int, high: int, s: Cpu, n: nat)
    ensures ReachesIn(sem, low, high, s, A32Cpu.Run(sem, s, n))
    decreases n
  {
    hide Step;
    var t := A32Cpu.Run(sem, s, n);
    if n == 0 || s.Gone? {
      StaysGone(sem, s, n);
      assert RunIn(sem, low, high, s, 0) == t;
    } else {
      RunIsIn(sem, low, high, Step(sem, s), n - 1);
      assert RunIn(sem, low, high, s, 1) == RunIn(sem, low, high, Step(sem, s), 0) == Step(sem, s);
      GoesOn(sem, low, high, s, Step(sem, s), t);
    }
  }

  lemma {:induction false} StaysGone(sem: Sem, s: Cpu, n: nat)
    ensures s.Gone? ==> A32Cpu.Run(sem, s, n) == s
    decreases n
  {
    if n > 0 && s.Gone? {
      StaysGone(sem, s, n - 1);
    }
  }

  lemma ReachesIsIn(sem: Sem, low: int, high: int, s: Cpu, t: Cpu)
    requires Reaches(sem, s, t)
    ensures ReachesIn(sem, low, high, s, t)
  {
    hide Step;
    var n: nat :| A32Cpu.Run(sem, s, n) == t;
    RunIsIn(sem, low, high, s, n);
  }

  // The original machine, as long as it is in the window.

  datatype State = State(pc: Word32, core: C.Machine)

  predicate Inside(win: Window, a: int) {
    win.target <= a < win.target + 4 * |win.insts| && (a - win.target) % 4 == 0
  }

  function IndexOf(win: Window, a: int): (k: nat)
    requires Inside(win, a)
    ensures k < |win.insts| && a == win.target + 4 * k
  {
    (a - win.target) / 4
  }

  function After(o: Outcome<C.Rest>, pc: Word32): State {
    match o
    case Next(t) => State(Wrap32(pc + 4), t)
    case Taken(t, dest) => State(Wrap32(dest), t)
  }

  function StepAt(sem: Sem, win: Window, s: State): State {
    if Inside(win, s.pc) && Known(win.insts[IndexOf(win, s.pc)]) then
      var k := IndexOf(win, s.pc);
      After(Exec(sem, win.insts[k], PcOf(win, k), s.core), s.pc)
    else s
  }

  function Original(sem: Sem, win: Window, s: State, n: nat): State
    decreases n
  {
    if n == 0 then s else Original(sem, win, StepAt(sem, win, s), n - 1)
  }

  /** What the rest of the program owes the engine: see Relocatable. A computed destination does not lie in the window, and a
      branch into it goes to an instruction. */
  ghost predicate KeepsRules(sem: Sem, win: Window, k: nat, c: C.Machine, hidden: set<int>, wrote: set<int>, code: set<int>)
    requires k < |win.insts|
  {
    var w := win.insts[k];
    && Known(w) && Right(w)
    && (forall h | Agree(c, h, {}, hidden) :: Relocatable(sem, w, PcOf(win, k), c, h, hidden, wrote, code))
    && match Exec(sem, w, PcOf(win, k), c)
       case Next(_) => true
       case Taken(_, dest) => if Targets(win, w, dest) then Inside(win, dest) else !Inside(win, dest)
  }

  predicate Calls(sem: Sem, win: Window, s: State) {
    && Inside(win, s.pc)
    && var k := IndexOf(win, s.pc);
       Known(win.insts[k]) && Links(win.insts[k]) && Exec(sem, win.insts[k], PcOf(win, k), s.core).Taken?
  }

  /** The original run starts inside the window, keeps the rules for as many steps as there are elements in `writes` (the
      bytes that each step writes), and calls no function before the last one. */
  ghost predicate Tracks(sem: Sem, win: Window, s: State, hidden: set<int>, writes: seq<set<int>>, code: set<int>)
    decreases |writes|
  {
    writes != [] ==>
      && Inside(win, s.pc)
      && var k := IndexOf(win, s.pc);
         && KeepsRules(sem, win, k, s.core, hidden, writes[0], code)
         && (|writes| > 1 ==>
               && !Calls(sem, win, s)
               && Tracks(sem, win, StepAt(sem, win, s), HiddenAfter(win.insts[k], s.core, hidden, writes[0]), writes[1..], code))
  }

  /** The bytes that may differ after such a run. */
  ghost function HiddenAtEnd(sem: Sem, win: Window, s: State, hidden: set<int>, writes: seq<set<int>>): set<int>
    decreases |writes|
  {
    if writes == [] || !Inside(win, s.pc) then hidden
    else
      var after := HiddenAfter(win.insts[IndexOf(win, s.pc)], s.core, hidden, writes[0]);
      HiddenAtEnd(sem, win, StepAt(sem, win, s), after, writes[1..])
  }

  /** Where the hooked machine is when the original one is at `a`. */
  function Arrival(win: Window, a: Word32, e: C.Machine): Cpu {
    if Inside(win, a) then At(Wrap32(ImageAddr(win, IndexOf(win, a))), e) else Gone(a, e)
  }

  function EnterEnd(win: Window): int {
    win.enter + 4 * |EnterWords(win)|
  }

  lemma ImageIsIn(win: Window, j: nat)
    requires Placed(win) && Rewritable(win) && j < |win.insts|
    ensures win.enter <= ImageAddr(win, j) < EnterEnd(win) && ImageAddr(win, j) % 4 == 0
    ensures Wrap32(ImageAddr(win, j)) == ImageAddr(win, j)
  {
    hide Images, Rewritable;
    ImagesFollow(win);
    ConcatTake(Images(win), j);
  }

  /** One step, and on to where the original one is. */
  lemma OneStepRuns(sem: Sem, win: Window, s: State, h: C.Machine, hidden: set<int>, wrote: set<int>, code: set<int>)
    returns (e: C.Machine)
    requires Owned(win, h, code) && Inside(win, s.pc) && Agree(s.core, h, {}, hidden)
    requires KeepsRules(sem, win, IndexOf(win, s.pc), s.core, hidden, wrote, code)
    ensures ReachesIn(sem, win.enter, EnterEnd(win), Arrival(win, s.pc, h), Arrival(win, StepAt(sem, win, s).pc, e))
    ensures Agree(StepAt(sem, win, s).core, e, if Calls(sem, win, s) then {C.LR} else {},
                  HiddenAfter(win.insts[IndexOf(win, s.pc)], s.core, hidden, wrote))
    ensures SameBytesIn(h.rest.mem, e.rest.mem, code)
  {
    hide *;
    var k := IndexAt(win, s.pc);
    RulesTell(sem, win, k, s.core, h, hidden, wrote, code);
    OwnedTells(win, h, code);
    e := ImageStep(sem, win, k, s.core, h, hidden, wrote, code);
    OwnedKept(win, h, e, code);
    StepArrives(sem, win, s, k, h, e, HiddenAfter(win.insts[k], s.core, hidden, wrote), hidden, wrote, code);
  }

  lemma IndexAt(win: Window, a: Word32) returns (k: nat)
    requires Inside(win, a)
    ensures k == IndexOf(win, a) && k < |win.insts|
  {
    k := IndexOf(win, a);
  }

  lemma RulesTell(sem: Sem, win: Window, k: nat, c: C.Machine, h: C.Machine, hidden: set<int>, wrote: set<int>, code: set<int>)
    requires k < |win.insts| && KeepsRules(sem, win, k, c, hidden, wrote, code) && Agree(c, h, {}, hidden)
    ensures Known(win.insts[k]) && Right(win.insts[k])
    ensures Relocatable(sem, win.insts[k], PcOf(win, k), c, h, hidden, wrote, code)
  {
    hide Known, Right, Relocatable, Exec, Agree;
  }

  lemma StepArrives(sem: Sem, win: Window, s: State, k: nat, h: C.Machine, e: C.Machine, after: set<int>, hidden: set<int>,
                    wrote: set<int>, code: set<int>)
    requires Inside(win, s.pc) && k == IndexOf(win, s.pc) && Owned(win, e, code)
    requires KeepsRules(sem, win, k, s.core, hidden, wrote, code)
    requires Arrives(sem, win, k, s.core, At(Wrap32(ImageAddr(win, k)), h), e, after)
    ensures ReachesIn(sem, win.enter, EnterEnd(win), Arrival(win, s.pc, h), Arrival(win, StepAt(sem, win, s).pc, e))
    ensures Agree(StepAt(sem, win, s).core, e, if Calls(sem, win, s) then {C.LR} else {}, after)
  {
    hide Known, Right, Relocatable, Exec, Agree, Reaches, ReachesIn, ImageAddr, Owned, Links, Computes, PcOf, EnterWords,
         GetType, Targets, EnterEnd, Wrap32, Inside, IndexOf;
    var o := Exec(sem, win.insts[k], PcOf(win, k), s.core);
    TakenBounded(sem, win, k, s.core, h, e, after);
    match o
    case Next(t) => NextArrives(sem, win, s, k, h, e, code);
    case Taken(t, dest) => TakenArrives(sem, win, s, k, h, e, code, dest);
  }

  lemma TakenBounded(sem: Sem, win: Window, k: nat, c: C.Machine, h: C.Machine, e: C.Machine, after: set<int>)
    requires k < |win.insts| && Known(win.insts[k])
    requires Arrives(sem, win, k, c, At(Wrap32(ImageAddr(win, k)), h), e, after)
    ensures var o := Exec(sem, win.insts[k], PcOf(win, k), c); o.Taken? ==> Wrap32(o.addr) == o.addr
  {
    hide Known, Exec, Agree, Reaches, ImageAddr, Links, Targets;
  }

  lemma NextInside(win: Window, a: Word32, k: nat)
    requires Placed(win) && Inside(win, a) && k == IndexOf(win, a)
    ensures Wrap32(a + 4) == a + 4
    ensures if k + 1 == |win.insts| then !Inside(win, a + 4) && a + 4 == win.target + 4 * |win.insts|
            else Inside(win, a + 4) && IndexOf(win, a + 4) == k + 1
  {
  }

  lemma ArrivalIs(win: Window, a: Word32, e: C.Machine)
    ensures Arrival(win, a, e)
            == if Inside(win, a) then At(Wrap32(ImageAddr(win, IndexOf(win, a))), e) else Gone(a, e)
  {
    hide ImageAddr, Inside, IndexOf;
  }

  lemma NextArrives(sem: Sem, win: Window, s: State, k: nat, h: C.Machine, e: C.Machine, code: set<int>)
    requires Inside(win, s.pc) && k == IndexOf(win, s.pc) && Owned(win, e, code)
    requires Reaches(sem, At(Wrap32(ImageAddr(win, k)), h), At(Wrap32(ImageAddr(win, k + 1)), e))
    ensures ReachesIn(sem, win.enter, EnterEnd(win), Arrival(win, s.pc, h), Arrival(win, Wrap32(s.pc + 4), e))
  {
    hide *;
    OwnedTells(win, e, code);
    NextInside(win, s.pc, k);
    ArrivalIs(win, s.pc, h);
    ArrivalIs(win, s.pc + 4, e);
    var from, low, high := At(Wrap32(ImageAddr(win, k)), h), win.enter, EnterEnd(win);
    if k + 1 == |win.insts| {
      ResumesBehind(sem, win, from, e, code);
      ReachesIsIn(sem, low, high, from, Gone(win.target + 4 * |win.insts|, e));
    } else {
      ReachesIsIn(sem, low, high, from, At(Wrap32(ImageAddr(win, k + 1)), e));
    }
  }

  lemma TakenArrives(sem: Sem, win: Window, s: State, k: nat, h: C.Machine, e: C.Machine, code: set<int>, dest: Word32)
    requires Inside(win, s.pc) && k == IndexOf(win, s.pc) && Owned(win, e, code)
    requires if Targets(win, win.insts[k], dest) then Inside(win, dest) else !Inside(win, dest)
    requires var from := At(Wrap32(ImageAddr(win, k)), h);
             if Targets(win, win.insts[k], dest)
             then forall j: nat | j < |win.insts| && dest == win.target + 4 * j ::
                    Reaches(sem, from, Gone(Wrap32(ImageAddr(win, j)), e))
             else Reaches(sem, from, Gone(dest, e))
    ensures ReachesIn(sem, win.enter, EnterEnd(win), Arrival(win, s.pc, h), Arrival(win, dest, e))
  {
    OwnedTells(win, e, code);
    hide Reaches, ReachesIn, ImageAddr, Owned, EnterEnd, Rewritable, Targets, Inside;
    var from, low, high := At(Wrap32(ImageAddr(win, k)), h), win.enter, EnterEnd(win);
    if Targets(win, win.insts[k], dest) {
      var j := IndexOf(win, dest);
      ReachesIsIn(sem, low, high, from, Gone(Wrap32(ImageAddr(win, j)), e));
      BackIn(sem, win, from, j, e);
    } else {
      ReachesIsIn(sem, low, high, from, Gone(dest, e));
    }
  }

  lemma ResumesBehind(sem: Sem, win: Window, s: Cpu, e: C.Machine, code: set<int>)
    requires Owned(win, e, code) && Reaches(sem, s, At(Wrap32(ImageAddr(win, |win.insts|)), e))
    ensures win.target + 4 * |win.insts| < 0x1_0000_0000 && Reaches(sem, s, Gone(win.target + 4 * |win.insts|, e))
  {
    hide Reaches, ImageAddr, Rewritable, EnterWords, CodeAt;
    ImagesFollow(win);
    ResumeRuns(sem, win, s, e);
  }

  lemma BackIn(sem: Sem, win: Window, s: Cpu, j: nat, e: C.Machine)
    requires Placed(win) && Rewritable(win) && j < |win.insts|
    requires ReachesIn(sem, win.enter, EnterEnd(win), s, Gone(Wrap32(ImageAddr(win, j)), e))
    ensures ReachesIn(sem, win.enter, EnterEnd(win), s, At(Wrap32(ImageAddr(win, j)), e))
  {
    hide ImageAddr, Rewritable, Step, EnterEnd;
    ImageIsIn(win, j);
    var t, u := Gone(Wrap32(ImageAddr(win, j)), e), At(Wrap32(ImageAddr(win, j)), e);
    assert RunIn(sem, win.enter, EnterEnd(win), t, 1) == RunIn(sem, win.enter, EnterEnd(win), u, 0) == u;
    GoesOn(sem, win.enter, EnterEnd(win), s, t, u);
  }

  /** Forward simulation: as many original steps as `writes` has elements, from any instruction of the window, are as many
      images, and the hooked machine arrives where the original one does. */
  lemma {:induction false} WindowRuns(sem: Sem, win: Window, s: State, h: C.Machine, hidden: set<int>,
                                      writes: seq<set<int>>, code: set<int>)
    returns (e: C.Machine)
    requires writes != [] && Owned(win, h, code) && Agree(s.core, h, {}, hidden)
    requires Tracks(sem, win, s, hidden, writes, code)
    ensures var t := Original(sem, win, s, |writes|);
            && ReachesIn(sem, win.enter, EnterEnd(win), Arrival(win, s.pc, h), Arrival(win, t.pc, e))
            && Agree(t.core, e, if Calls(sem, win, Original(sem, win, s, |writes| - 1)) then {C.LR} else {},
                     HiddenAtEnd(sem, win, s, hidden, writes))
            && SameBytesIn(h.rest.mem, e.rest.mem, code)
    decreases |writes|
  {
    hide Known, KeepsRules, Agree, ReachesIn, Arrival, StepAt, Calls, Owned, HiddenAfter, SameBytesIn, EnterEnd, Inside;
    e := OneStepRuns(sem, win, s, h, hidden, writes[0], code);
    var after := HiddenAfter(win.insts[IndexOf(win, s.pc)], s.core, hidden, writes[0]);
    var s1 := StepAt(sem, win, s);
    if |writes| > 1 {
      OwnedKept(win, h, e, code);
      var e1 := e;
      e := WindowRuns(sem, win, s1, e1, after, writes[1..], code);
      BytesStay(h.rest.mem, e1.rest.mem, e.rest.mem, code);
      GoesOn(sem, win.enter, EnterEnd(win), Arrival(win, s.pc, h), Arrival(win, s1.pc, e1),
             Arrival(win, Original(sem, win, s, |writes|).pc, e));
    }
  }

  lemma BytesStay(m: C.Ram, m1: C.Ram, m2: C.Ram, code: set<int>)
    requires SameBytesIn(m, m1, code) && SameBytesIn(m1, m2, code)
    ensures SameBytesIn(m, m2, code)
  {
  }

  /** The same from the enter: `h1` is the hooked machine once IP is back. */
  lemma EnteredWindowRuns(sem: Sem, win: Window, s: State, h: C.Machine, h1: C.Machine, hidden: set<int>,
                          writes: seq<set<int>>, code: set<int>)
    returns (e: C.Machine)
    requires s.pc == win.target && writes != [] && Tracks(sem, win, s, hidden, writes, code)
    requires Owned(win, h, code) && Stands(win, h1, h) && Agree(s.core, h1, {}, hidden)
    ensures var t := Original(sem, win, s, |writes|);
            && ReachesIn(sem, win.enter, EnterEnd(win), At(win.enter, h), Arrival(win, t.pc, e))
            && Agree(t.core, e, if Calls(sem, win, Original(sem, win, s, |writes| - 1)) then {C.LR} else {},
                     HiddenAtEnd(sem, win, s, hidden, writes))
  {
    hide *;
    OwnedTells(win, h, code);
    PrologRuns(sem, win, h1, h);
    OwnedToo(win, h, h1, code);
    e := WindowRuns(sem, win, s, h1, hidden, writes, code);
    StartArrival(win, h1);
    ReachesIsIn(sem, win.enter, EnterEnd(win), At(win.enter, h), At(ImageAddr(win, 0), h1));
    GoesOn(sem, win.enter, EnterEnd(win), At(win.enter, h), At(ImageAddr(win, 0), h1),
           Arrival(win, Original(sem, win, s, |writes|).pc, e));
  }

  lemma OwnedToo(win: Window, h: C.Machine, h1: C.Machine, code: set<int>)
    requires Owned(win, h, code) && Entered(win, h1)
    ensures Owned(win, h1, code)
  {
    hide Rewritable, Placed, CodeAt;
  }

  lemma StartArrival(win: Window, h: C.Machine)
    requires Placed(win) && Rewritable(win)
    ensures 0 <= ImageAddr(win, 0) < CODE_END && Arrival(win, win.target, h) == At(ImageAddr(win, 0), h)
  {
    hide Rewritable, Images;
    ImagesFollow(win);
  }
}
