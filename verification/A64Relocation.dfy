/** Forward simulation of a relocated A64 window, built on the runs of single images in A64Sim. */
module A64Relocation {
  import opened Words
  import opened I = A64Isa
  import opened A64Sim
  import R = A64Rewrite
  import D = A64Decode

  /** `h` (hooked) stands for `c` (original): equal but for the registers in `lost` and the bytes in `hidden`. */
  ghost predicate Agree(c: Core, h: Core, lost: set<nat>, hidden: set<int>) {
    && c.sp == h.sp && c.nzcv == h.nzcv && c.v == h.v
    && (forall n: nat | n < 31 && n !in lost :: c.x[n] == h.x[n])
    && (forall a | a !in hidden :: ByteAt(c.mem, a) == ByteAt(h.mem, a))
  }

  ghost predicate SameBytesIn(m: Memory, m': Memory, code: set<int>) {
    forall a | a in code :: ByteAt(m, a) == ByteAt(m', a)
  }

  /** X16 and X17 can be saved below SP without touching the engine's own code. */
  ghost predicate RoomToSpill(h: Core, code: set<int>) {
    h.sp >= 16 && Scratch(h.sp) !! code
  }

  /** The bytes that may differ once X16 and X17 were, or were not, saved below `sp`. */
  ghost function Spilled(hidden: set<int>, sp: Word64, spills: bool): set<int> {
    if spills then hidden + Scratch(sp) else hidden
  }

  /** Whether the image of `i` saves X16 and X17 on the way to the outcome `o`: around a vector load or a prefetch, and
      before a taken branch that leaves through an island. */
  predicate Spills(i: Inst, useIsland: bool, o: Outcome) {
    i.PrfmLit? || i.LdrVLit? || (useIsland && IsBranch(i) && !o.Next?)
  }

  /** State `t` of the hooked side stands for the outcome `o` of the original instruction:
      it fell through to `end`, or it left for `goes`. */
  ghost predicate Simulates(o: Outcome, t: State, end: int, goes: Word64, lost: set<nat>, lostByJump: set<nat>,
                            hidden: set<int>)
  {
    match o
    case Next(c) => t.pc == end && Agree(c, t.core, lost, hidden)
    case Jump(c, _) => t.pc == goes && Agree(c, t.core, lostByJump, hidden)
    case Call(c, _) => t.pc == goes && Reg(t.core, 30) == end && Agree(c, t.core, lostByJump + {30}, hidden)
  }

  ghost predicate IpSaved(c: Core, x16: Word64, x17: Word64) {
    c.sp >= 16 && Load64(c.mem, c.sp - 16) == x16 && Load64(c.mem, c.sp - 8) == x17
  }

  lemma SpillAgrees(c: Core, h: Core, lost: set<nat>, hidden: set<int>, code: set<int>)
    requires Agree(c, h, lost, hidden) && RoomToSpill(h, code)
    ensures Agree(c, Spill(h), lost, hidden + Scratch(h.sp)) && SameBytesIn(h.mem, Spill(h).mem, code)
  {
    hide Store64;
    forall a | a !in Scratch(h.sp) ensures ByteAt(h.mem, a) == ByteAt(Spill(h).mem, a) {
      SpillFrame(h, a);
    }
  }

  lemma DepartedAgrees(c: Core, h: Core, lost: set<nat>, hidden: set<int>, code: set<int>, addr: Word64, useIsland: bool)
    requires Agree(c, h, lost, hidden) && (useIsland ==> RoomToSpill(h, code))
    ensures var d := Departed(h, addr, useIsland);
            && Agree(c, d, lost + {17}, Spilled(hidden, c.sp, useIsland)) && SameBytesIn(h.mem, d.mem, code)
            && (useIsland ==> IpSaved(d, Reg(h, 16), Reg(h, 17)))
  {
    hide Store64, Load64, Fetch32, Scratch;
    if useIsland {
      SpillAgrees(c, h, lost, hidden, code);
      SpillSaves(h);
    }
  }

  lemma LoadsAgree(c: Core, h: Core, lost: set<nat>, hidden: set<int>, a: Word64, size: nat)
    requires Agree(c, h, lost, hidden) && Span(a, size) !! hidden
    ensures size >= 4 ==> Fetch32(c.mem, a) == Fetch32(h.mem, a) && LoadV(c.mem, a, S32) == LoadV(h.mem, a, S32)
    ensures size >= 8 ==> Load64(c.mem, a) == Load64(h.mem, a) && LoadV(c.mem, a, D64) == LoadV(h.mem, a, D64)
    ensures size >= 16 ==> LoadV(c.mem, a, Q128) == LoadV(h.mem, a, Q128)
  {
    forall b | a <= b < a + size ensures ByteAt(c.mem, b) == ByteAt(h.mem, b) {
      assert b in Span(a, size);
    }
    SameBytes(c.mem, h.mem, a, size);
    if size >= 8 {
      SameBytes(c.mem, h.mem, a + 4, size - 4);
    }
    if size >= 16 {
      SameBytes(c.mem, h.mem, a + 8, 8);
      SameBytes(c.mem, h.mem, a + 12, 4);
    }
  }

  /** The register that a branch tests is not lost. */
  predicate TestsKept(i: Inst, lost: set<nat>) {
    ((i.Cbz? || i.Tbz?) ==> i.t !in lost)
  }

  function LiteralSize(i: Inst): nat {
    match i
    case LdrLit(_, _, width) => if width.X64? then 8 else 4
    case LdrVLit(_, _, size) => if size.S32? then 4 else if size.D64? then 8 else 16
    case _ => 0
  }

  predicate IsBranch(i: Inst) {
    i.B? || i.BL? || i.BCond? || i.Cbz? || i.Tbz?
  }

  /** Two tests that differ in their offsets at most. */
  predicate SameTest(i: Inst, j: Inst) {
    match (i, j)
    case (BCond(a, _), BCond(b, _)) => a == b
    case (Cbz(a, _, p, q), Cbz(b, _, r, s)) => a == b && p == r && q == s
    case (Tbz(a, _, p, q), Tbz(b, _, r, s)) => a == b && p == r && q == s
    case _ => false
  }

  lemma SameTestTaken(i: Inst, j: Inst, c: Core, h: Core, lost: set<nat>, hidden: set<int>)
    requires SameTest(i, j) && TestsKept(i, lost) && Agree(c, h, lost, hidden)
    ensures Taken(i, c) == Taken(j, h)
  {
  }

  lemma BranchSimulates(i: Inst, pc: Word64, sem: Semantics, c: Core, h: Core, end: Word64, goes: Word64, useIsland: bool,
                        lost: set<nat>, hidden: set<int>, code: set<int>) returns (t: State)
    requires IsBranch(i) && TestsKept(i, lost) && Agree(c, h, lost, hidden)
    requires useIsland && Taken(i, c) ==> RoomToSpill(h, code)
    ensures var core := Departed(h, goes, useIsland);
            t == if !Taken(i, c) then State(end, h)
                 else State(goes, if i.BL? then SetReg(core, 30, end) else core)
    ensures var o := Exec(sem, i, pc, c);
            Simulates(o, t, end, goes, lost, lost + {17}, Spilled(hidden, c.sp, useIsland && !o.Next?))
    ensures SameBytesIn(h.mem, t.core.mem, code)
    ensures useIsland && !Exec(sem, i, pc, c).Next? ==> IpSaved(t.core, Reg(h, 16), Reg(h, 17))
  {
    hide Load64, Scratch, CondHolds, CbzTaken, TbzTaken, Departed, Wrap64;
    if Taken(i, c) {
      DepartedAgrees(c, h, lost, hidden, code, goes, useIsland);
    }
    var core := Departed(h, goes, useIsland);
    t := if !Taken(i, c) then State(end, h) else State(goes, if i.BL? then SetReg(core, 30, end) else core);
  }

  /** An instruction that ignores PC does the same on both sides, but for the bytes in `hidden`, and leaves the engine's
      code alone. */
  ghost predicate PlainAgrees(sem: Semantics, i: Inst, c: Core, h: Core, lost: set<nat>, hidden: set<int>, code: set<int>)
    requires !IsPcRelative(i)
  {
    match (ExecPlain(sem, i, c), ExecPlain(sem, i, h))
    case (Next(c'), Next(h')) => Agree(c', h', lost, hidden) && SameBytesIn(h.mem, h'.mem, code)
    case (Jump(c', t), Jump(h', u)) => t == u && Agree(c', h', lost, hidden) && SameBytesIn(h.mem, h'.mem, code)
    case (Call(c', t), Call(h', u)) => t == u && Agree(c', h', lost, hidden) && SameBytesIn(h.mem, h'.mem, code)
    case _ => false
  }

  lemma PlainSimulates(sem: Semantics, w: bv32, pc: Word64, at: Word64, c: Core, h: Core, lost: set<nat>,
                       hidden: set<int>, code: set<int>) returns (t: State)
    requires var i := Decode(w); !IsPcRelative(i) && PlainAgrees(sem, i, c, h, lost, hidden, code)
    requires Fetch32(h.mem, at) == w && at + 4 < CODE_END
    ensures Reaches(sem, State(at, h), t) && SameBytesIn(h.mem, t.core.mem, code)
    ensures var o := Exec(sem, Decode(w), pc, c);
            Simulates(o, t, at + 4, if o.Next? then 0 else o.target, lost, lost, hidden)
  {
    hide Decode, Fetch32, Word, Bits, Reaches;
    ReachesSelf(sem, State(at, h));
    Executes(sem, State(at, h), State(at, h), w);
    t := After(Exec(sem, Decode(w), at, h), at);
  }

  lemma SetRegAgrees(c: Core, h: Core, lost: set<nat>, hidden: set<int>, d: nat, v: Word64)
    requires Agree(c, h, lost, hidden)
    ensures Agree(SetReg(c, d, v), SetReg(h, d, v), lost, hidden)
  {
  }

  lemma UsedAgrees(i: Inst, use: Inst, pc: Word64, sem: Semantics, c: Core, h: Core, named: Word64, lost: set<nat>,
                   hidden: set<int>)
    requires Agree(c, h, lost, hidden) && UsesBase17(use)
    requires (i.PrfmLit? && use.Prfm?) || (i.LdrVLit? && use == LdrV(i.t, 17, i.size))
    requires i.LdrVLit? ==> named == Wrap64(pc + i.off)
    requires Span(named, LiteralSize(i)) !! hidden
    ensures Exec(sem, i, pc, c).Next?
    ensures Agree(Exec(sem, i, pc, c).core, Used(h, use, named), lost, hidden)
  {
    hide Load64, Fetch32, Wrap64;
    LoadsAgree(c, h, lost, hidden, named, LiteralSize(i));
  }

  lemma AdrSimulates(i: Inst, pc: Word64, sem: Semantics, load: bv32, c: Core, h: Core, at: Word64, named: Word64,
                     lost: set<nat>, hidden: set<int>) returns (t: State)
    requires (i.Adr? && named == Wrap64(pc + i.off)) || (i.Adrp? && named == Wrap64(PageOf(pc) + i.off))
    requires Decode(load) == LdrLit(i.d, 8, X64) && at + 0x40 < CODE_END
    requires CodeAt(h.mem, at, R.RewriteAdr(load, named)) && Agree(c, h, lost, hidden)
    ensures Reaches(sem, State(at, h), t) && t.core.mem == h.mem
    ensures Simulates(Exec(sem, i, pc, c), t, at + 16, 0, lost, lost, hidden)
    ensures Exec(sem, i, pc, c).Next?
  {
    hide Decode, Fetch32, Word, Bits, Reaches, CodeAt, Wrap64, PageOf;
    ReachesSelf(sem, State(at, h));
    RunsAdr(sem, State(at, h), load, i.d, h, at, named);
    SetRegAgrees(c, h, lost, hidden, i.d, named);
    t := State(at + 16, SetReg(h, i.d, named));
  }

  lemma LdrSimulates(i: Inst, pc: Word64, sem: Semantics, load: bv32, through: bv32, c: Core, h: Core, at: Word64,
                     named: Word64, lost: set<nat>, hidden: set<int>) returns (t: State)
    requires i.LdrLit? && named == Wrap64(pc + i.off) && Span(named, LiteralSize(i)) !! hidden
    requires Decode(load) == LdrLit(i.t, 12, X64) && Decode(through) == Ldr(i.t, i.t, i.width)
    requires at + 0x40 < CODE_END && CodeAt(h.mem, at, R.RewriteLdr(load, through, named)) && Agree(c, h, lost, hidden)
    ensures Reaches(sem, State(at, h), t) && t.core.mem == h.mem
    ensures Simulates(Exec(sem, i, pc, c), t, at + 20, 0, lost, lost, hidden)
    ensures Exec(sem, i, pc, c).Next?
  {
    hide Decode, Fetch32, Word, Bits, Load64, Reaches, CodeAt, Wrap64;
    ReachesSelf(sem, State(at, h));
    RunsLdr(sem, State(at, h), load, through, i.t, i.width, h, at, named);
    LoadsAgree(c, h, lost, hidden, named, LiteralSize(i));
    var v := LoadWidth(h.mem, named, i.width);
    SetRegAgrees(c, h, lost, hidden, i.t, v);
    t := State(at + 20, SetReg(h, i.t, v));
  }

  lemma ViaX17Simulates(i: Inst, pc: Word64, sem: Semantics, use: bv32, u: Inst, c: Core, h: Core, at: Word64,
                        addr: Word64, lost: set<nat>, hidden: set<int>, code: set<int>) returns (t: State)
    requires u == Decode(use) && UsesBase17(u) && (i.LdrVLit? ==> addr == Wrap64(pc + i.off))
    requires (i.PrfmLit? && u.Prfm?) || (i.LdrVLit? && u == LdrV(i.t, 17, i.size))
    requires Span(addr, LiteralSize(i)) !! hidden + Scratch(c.sp)
    requires at + 0x40 < CODE_END && CodeAt(h.mem, at, R.RewriteViaX17(use, addr)) && Bytes(at, 7) <= code
    requires Agree(c, h, lost, hidden) && RoomToSpill(h, code)
    ensures Reaches(sem, State(at, h), t) && SameBytesIn(h.mem, t.core.mem, code)
    ensures Simulates(Exec(sem, i, pc, c), t, at + 28, 0, lost, lost, hidden + Scratch(c.sp))
    ensures Exec(sem, i, pc, c).Next?
  {
    hide Decode, Fetch32, Word, Bits, Store64, Load64, LoadV, Reaches, CodeAt, Wrap64, Scratch, R.RewriteViaX17, Bytes;
    ReachesSelf(sem, State(at, h));
    RunsViaX17(sem, State(at, h), use, u, h, at, addr);
    SpillAgrees(c, h, lost, hidden, code);
    UsedAgrees(i, u, pc, sem, c, Spill(h), addr, lost, hidden + Scratch(c.sp));
    t := State(at + 28, Used(Spill(h), u, addr));
  }

  /** A branch image was reached at `at`, and its code is the engine's. */
  ghost predicate BranchImage(i: Inst, words: seq<bv32>, c: Core, h: Core, at: Word64, useIsland: bool, lost: set<nat>,
                              hidden: set<int>, code: set<int>)
  {
    && IsBranch(i) && TestsKept(i, lost) && at + 0x40 < CODE_END && |words| <= 8
    && CodeAt(h.mem, at, words) && Bytes(at, |words|) <= code
    && Agree(c, h, lost, hidden) && (useIsland && Taken(i, c) ==> RoomToSpill(h, code))
  }

  /** What the image of branch `i` must do when it sends taken branches to `goes`. */
  ghost predicate BranchRuns(sem: Semantics, i: Inst, pc: Word64, c: Core, h: Core, at: Word64, t: State, end: int,
                             goes: Word64, useIsland: bool, lost: set<nat>, hidden: set<int>, code: set<int>)
  {
    var o := Exec(sem, i, pc, c);
    && Reaches(sem, State(at, h), t) && SameBytesIn(h.mem, t.core.mem, code)
    && Simulates(o, t, end, goes, lost, lost + {17}, Spilled(hidden, c.sp, useIsland && !o.Next?))
    && (useIsland && !o.Next? ==> IpSaved(t.core, Reg(h, 16), Reg(h, 17)))
  }

  lemma BSimulates(i: Inst, pc: Word64, sem: Semantics, c: Core, h: Core, at: Word64, goes: Word64, useIsland: bool,
                   lost: set<nat>, hidden: set<int>, code: set<int>) returns (t: State)
    requires (i.B? || i.BL?) && BranchImage(i, R.RewriteB(goes, useIsland, i.BL?), c, h, at, useIsland, lost, hidden, code)
    ensures BranchRuns(sem, i, pc, c, h, at, t, at + 4 * |R.RewriteB(goes, useIsland, i.BL?)|, goes, useIsland,
                       lost, hidden, code)
  {
    hide Decode, Reaches, CodeAt, Wrap64, Scratch, R.RewriteB, Bytes, Agree, Departed, Simulates, IpSaved, SameBytesIn;
    var end := at + 4 * |R.RewriteB(goes, useIsland, i.BL?)|;
    ReachesSelf(sem, State(at, h));
    t := BranchSimulates(i, pc, sem, c, h, end, goes, useIsland, lost, hidden, code);
    RunsB(sem, State(at, h), h, at, goes, useIsland, i.BL?);
  }

  lemma BCondSimulates(i: Inst, pc: Word64, sem: Semantics, head: bv32, c: Core, h: Core, at: Word64, goes: Word64,
                       useIsland: bool, lost: set<nat>, hidden: set<int>, code: set<int>) returns (t: State)
    requires IsSkip(Decode(head)) && SameTest(i, Decode(head))
    requires BranchImage(i, R.RewriteBCond(head, goes, useIsland), c, h, at, useIsland, lost, hidden, code)
    ensures BranchRuns(sem, i, pc, c, h, at, t, at + 4 * |R.RewriteBCond(head, goes, useIsland)|, goes, useIsland,
                       lost, hidden, code)
  {
    hide Decode, Reaches, CodeAt, Wrap64, Scratch, R.RewriteBCond, Bytes, Agree, Departed, Simulates, IpSaved;
    hide SameBytesIn, Taken;
    var end := at + 4 * |R.RewriteBCond(head, goes, useIsland)|;
    ReachesSelf(sem, State(at, h));
    SameTestTaken(i, Decode(head), c, h, lost, hidden);
    t := BranchSimulates(i, pc, sem, c, h, end, goes, useIsland, lost, hidden, code);
    RunsBCond(sem, State(at, h), head, h, at, goes, useIsland);
  }

  lemma TestBranchSimulates(i: Inst, pc: Word64, sem: Semantics, head: bv32, c: Core, h: Core, at: Word64,
                            goes: Word64, useIsland: bool, lost: set<nat>, hidden: set<int>, code: set<int>)
    returns (t: State)
    requires IsSkip(Decode(head)) && SameTest(i, Decode(head))
    requires BranchImage(i, R.RewriteTestBranch(head, goes, useIsland), c, h, at, useIsland, lost, hidden, code)
    ensures BranchRuns(sem, i, pc, c, h, at, t, at + 4 * |R.RewriteTestBranch(head, goes, useIsland)|, goes, useIsland,
                       lost, hidden, code)
  {
    hide Decode, Reaches, CodeAt, Wrap64, Scratch, R.RewriteTestBranch, Bytes, Agree, Departed, Simulates, IpSaved;
    hide SameBytesIn, Taken;
    var end := at + 4 * |R.RewriteTestBranch(head, goes, useIsland)|;
    ReachesSelf(sem, State(at, h));
    SameTestTaken(i, Decode(head), c, h, lost, hidden);
    t := BranchSimulates(i, pc, sem, c, h, end, goes, useIsland, lost, hidden, code);
    RunsTestBranch(sem, State(at, h), head, h, at, goes, useIsland);
  }

  /** Where the image of `w` sends control when the original outcome is `o`. */
  function Goes(w: bv32, pc: Word64, info: R.RewriteInfo, island: R.Island, o: Outcome): Word64 {
    if IsBranch(Decode(w)) then
      if island.At? then island.addr else R.FixAddr(R.NamedAddr(w, pc), info)
    else if o.Next? then 0
    else o.target
  }

  function LostByJump(i: Inst, lost: set<nat>): set<nat> {
    if IsBranch(i) then lost + {17} else lost
  }

  /** What an image may rely on: the window keeps to the rules, there is room where the image saves registers, and the
      literal lies outside the bytes that may differ. `wrote` are the bytes that the instruction itself writes. */
  ghost predicate Relocatable(sem: Semantics, w: bv32, pc: Word64, useIsland: bool, c: Core, h: Core, lost: set<nat>,
                              hidden: set<int>, wrote: set<int>, code: set<int>)
  {
    var i := Decode(w);
    var o := Exec(sem, i, pc, c);
    && TestsKept(i, lost)
    && (Spills(i, useIsland, o) ==> RoomToSpill(c, code))
    && Span(R.NamedAddr(w, pc), LiteralSize(i)) !! Spilled(hidden, c.sp, Spills(i, useIsland, o))
    && (if IsPcRelative(i) then wrote == {} else PlainAgrees(sem, i, c, h, lost, hidden - wrote, code))
  }

  /** The bytes that may differ after the image of `w`: what the image saved is added, what the instruction wrote is the
      same on both sides. */
  ghost function HiddenByImage(sem: Semantics, w: bv32, pc: Word64, useIsland: bool, c: Core, hidden: set<int>,
                               wrote: set<int>): set<int>
  {
    Spilled(hidden, c.sp, Spills(Decode(w), useIsland, Exec(sem, Decode(w), pc, c))) - wrote
  }

  /** The image of `w`, run from its start, stands for `w` run at `pc`; `hidden` are the bytes that differ afterwards. */
  ghost predicate ImageRuns(sem: Semantics, w: bv32, pc: Word64, info: R.RewriteInfo, island: R.Island, c: Core,
                            h: Core, at: Word64, t: State, end: int, lost: set<nat>, hidden: set<int>, code: set<int>)
  {
    var i := Decode(w);
    var o := Exec(sem, i, pc, c);
    && Reaches(sem, State(at, h), t) && SameBytesIn(h.mem, t.core.mem, code)
    && Simulates(o, t, end, Goes(w, pc, info, island, o), lost, LostByJump(i, lost), hidden)
    && (island.At? && IsBranch(i) && !o.Next? ==> IpSaved(t.core, Reg(h, 16), Reg(h, 17)))
  }

  lemma DecodeOf(w: bv32) returns (t: R.Type, off: int)
    ensures t == R.GetType(w) && Decode(w) == D.InstOf(w, t, off)
    ensures IsPcRelative(Decode(w)) == !t.IGNORED?
    ensures !t.IGNORED? ==> forall pc :: R.NamedAddr(w, pc) == Wrap64((if t.ADRP? then PageOf(pc) else pc) + off)
    ensures t in {R.B, R.BL, R.B_COND, R.CBZ, R.CBNZ, R.TBZ, R.TBNZ} ==> off % 4 == 0
  {
    hide Decode, R.GetType, R.NamedAddr, Wrap64, PageOf, D.InstOf, D.OffOf;
    if R.GetType(w) in {R.B, R.BL, R.B_COND, R.CBZ, R.CBNZ, R.TBZ, R.TBNZ} {
      D.BranchOffsetsAreAligned(w);
    }
    t, off := R.GetType(w), D.OffOf(w);
    D.GetTypeMatchesIsa(w);
    if !t.IGNORED? {
      forall pc: Word64 ensures R.NamedAddr(w, pc) == Wrap64((if t.ADRP? then PageOf(pc) else pc) + off) {
        D.NamedAddrMatchesIsa(w, pc);
      }
    }
  }

  lemma BranchWords(w: bv32, pc: Word64, info: R.RewriteInfo, island: R.Island, goes: Word64)
    requires R.Rewrite(w, pc, info, island) != []
    requires goes == if island.At? then island.addr else R.FixAddr(R.NamedAddr(w, pc), info)
    ensures var t := R.GetType(w);
            var words := R.Rewrite(w, pc, info, island);
            && (t in {R.B, R.BL} ==> words == R.RewriteB(goes, island.At?, t.BL?))
            && (t.B_COND? ==> words == R.RewriteBCond(R.Head19(w), goes, island.At?))
            && (t in {R.CBZ, R.CBNZ} ==> words == R.RewriteTestBranch(R.Head19(w), goes, island.At?))
            && (t in {R.TBZ, R.TBNZ} ==> words == R.RewriteTestBranch(R.Head14(w), goes, island.At?))
  {
    hide R.GetType, R.NamedAddr, R.FixAddr, R.RewriteB, R.RewriteBCond, R.RewriteTestBranch, R.Head19, R.Head14;
  }

  /** The rewritten test is the old one, and skips one word. */
  lemma HeadTests(w: bv32) returns (t: R.Type)
    requires IsBranch(Decode(w))
    ensures t == R.GetType(w) && t in {R.B, R.BL, R.B_COND, R.CBZ, R.CBNZ, R.TBZ, R.TBNZ}
    ensures t in {R.B, R.BL} ==> (Decode(w).B? || Decode(w).BL?) && t.BL? == Decode(w).BL?
    ensures t in {R.B_COND, R.CBZ, R.CBNZ} ==> IsSkip(Decode(R.Head19(w))) && SameTest(Decode(w), Decode(R.Head19(w)))
    ensures t in {R.TBZ, R.TBNZ} ==> IsSkip(Decode(R.Head14(w))) && SameTest(Decode(w), Decode(R.Head14(w)))
  {
    hide Decode, R.GetType, R.Head19, R.Head14;
    var off;
    t, off := DecodeOf(w);
    if t in {R.B_COND, R.CBZ, R.CBNZ} {
      D.DecodeHead19(w);
    } else if t in {R.TBZ, R.TBNZ} {
      D.DecodeHead14(w);
    }
  }

  /** What the rules come to for a branch. */
  lemma BranchRules(sem: Semantics, w: bv32, pc: Word64, useIsland: bool, c: Core, h: Core, lost: set<nat>, hidden: set<int>)
    requires IsBranch(Decode(w)) && Agree(c, h, lost, hidden)
    ensures var i := Decode(w);
            var o := Exec(sem, i, pc, c);
            && HiddenByImage(sem, w, pc, useIsland, c, hidden, {}) == Spilled(hidden, c.sp, useIsland && !o.Next?)
            && IsPcRelative(i) && (Spills(i, useIsland, o) <==> useIsland && Taken(i, c))
    ensures forall code :: RoomToSpill(c, code) == RoomToSpill(h, code)
  {
    hide Decode, Scratch, CondHolds, CbzTaken, TbzTaken, Wrap64, ByteAt;
  }

  /** And for an instruction that uses PC in another way. */
  lemma DataRules(sem: Semantics, w: bv32, pc: Word64, useIsland: bool, c: Core, h: Core, lost: set<nat>, hidden: set<int>,
                  code: set<int>)
    requires IsPcRelative(Decode(w)) && !IsBranch(Decode(w))
    requires Agree(c, h, lost, hidden) && Relocatable(sem, w, pc, useIsland, c, h, lost, hidden, {}, code)
    ensures var i, literal := Decode(w), Span(R.NamedAddr(w, pc), LiteralSize(Decode(w)));
            if i.PrfmLit? || i.LdrVLit?
            then RoomToSpill(h, code) && literal !! hidden + Scratch(c.sp)
                 && HiddenByImage(sem, w, pc, useIsland, c, hidden, {}) == hidden + Scratch(c.sp)
            else literal !! hidden && HiddenByImage(sem, w, pc, useIsland, c, hidden, {}) == hidden
  {
    hide Decode, Scratch, Exec, R.NamedAddr, Span, ByteAt;
  }

  lemma BranchImageSimulates(sem: Semantics, w: bv32, pc: Word64, info: R.RewriteInfo, island: R.Island, c: Core,
                             h: Core, at: Word64, lost: set<nat>, hidden: set<int>, code: set<int>)
    returns (t: State)
    requires R.Rewrite(w, pc, info, island) != [] && IsBranch(Decode(w))
    requires BranchImage(Decode(w), R.Rewrite(w, pc, info, island), c, h, at, island.At?, lost, hidden, code)
    ensures ImageRuns(sem, w, pc, info, island, c, h, at, t, at + 4 * |R.Rewrite(w, pc, info, island)|, lost,
                      HiddenByImage(sem, w, pc, island.At?, c, hidden, {}), code)
  {
    hide Decode, R.GetType, R.NamedAddr, R.FixAddr, R.Rewrite, Wrap64, PageOf, Reaches, CodeAt, Bytes, Agree;
    hide Scratch, RoomToSpill, R.RewriteB, R.RewriteBCond, R.RewriteTestBranch, R.Head19, R.Head14, Simulates, IpSaved;
    hide Exec, SameBytesIn, IsSkip, SameTest, HiddenByImage, Spilled, Spills, Taken;
    BranchRules(sem, w, pc, island.At?, c, h, lost, hidden);
    hide BranchImage;
    var ty := HeadTests(w);
    var i := Decode(w);
    var goes := if island.At? then island.addr else R.FixAddr(R.NamedAddr(w, pc), info);
    BranchWords(w, pc, info, island, goes);
    if ty in {R.B, R.BL} {
      t := BSimulates(i, pc, sem, c, h, at, goes, island.At?, lost, hidden, code);
    } else if ty.B_COND? {
      t := BCondSimulates(i, pc, sem, R.Head19(w), c, h, at, goes, island.At?, lost, hidden, code);
    } else if ty in {R.CBZ, R.CBNZ} {
      t := TestBranchSimulates(i, pc, sem, R.Head19(w), c, h, at, goes, island.At?, lost, hidden, code);
    } else {
      t := TestBranchSimulates(i, pc, sem, R.Head14(w), c, h, at, goes, island.At?, lost, hidden, code);
    }
  }

  /** ADR, ADRP and the literal loads. */
  lemma DataImageSimulates(sem: Semantics, w: bv32, pc: Word64, info: R.RewriteInfo, island: R.Island, c: Core,
                           h: Core, at: Word64, lost: set<nat>, hidden: set<int>, code: set<int>)
    returns (t: State)
    requires IsPcRelative(Decode(w)) && !IsBranch(Decode(w))
    requires R.Rewrite(w, pc, info, island) != [] && at + 0x40 < CODE_END
    requires CodeAt(h.mem, at, R.Rewrite(w, pc, info, island))
    requires Bytes(at, |R.Rewrite(w, pc, info, island)|) <= code
    requires Agree(c, h, lost, hidden) && Relocatable(sem, w, pc, island.At?, c, h, lost, hidden, {}, code)
    ensures ImageRuns(sem, w, pc, info, island, c, h, at, t, at + 4 * |R.Rewrite(w, pc, info, island)|, lost,
                      HiddenByImage(sem, w, pc, island.At?, c, hidden, {}), code)
    ensures Exec(sem, Decode(w), pc, c).Next?
  {
    hide Decode, R.GetType, R.NamedAddr, R.FixAddr, R.IsAddrNeedFix, Wrap64, PageOf, Reaches, CodeAt, Bytes, Agree;
    hide Scratch, RoomToSpill, R.RewriteB, R.RewriteBCond, R.RewriteTestBranch, R.RewriteAdr, R.RewriteLdr;
    hide R.RewriteViaX17, R.LoadAt8, R.LoadAt12, R.LoadThrough, R.UseX17, IpSaved, HiddenByImage, Spilled, Relocatable, Span,
         Simulates, Exec;
    DataRules(sem, w, pc, island.At?, c, h, lost, hidden, code);
    var ty, off := DecodeOf(w);
    var named := R.NamedAddr(w, pc);
    var i := Decode(w);
    if ty in {R.ADR, R.ADRP} {
      D.DecodeTemporaryLoads(w);
      t := AdrSimulates(i, pc, sem, R.LoadAt8(w), c, h, at, named, lost, hidden);
    } else if ty in {R.LDR_LIT_32, R.LDR_LIT_64, R.LDRSW_LIT} {
      D.DecodeTemporaryLoads(w);
      D.DecodeLoadThrough(w, ty);
      t := LdrSimulates(i, pc, sem, R.LoadAt12(w), R.LoadThrough(w, ty), c, h, at, named, lost, hidden);
    } else {
      D.DecodeUseX17(w, ty);
      var addr := if ty.PRFM_LIT? then R.FixAddr(named, info) else named;
      t := ViaX17Simulates(i, pc, sem, R.UseX17(w, ty), Decode(R.UseX17(w, ty)), c, h, at, addr, lost, hidden, code);
    }
  }

  /** Every instruction that can be rewritten keeps its meaning. */
  lemma ImageSimulates(sem: Semantics, w: bv32, pc: Word64, info: R.RewriteInfo, island: R.Island, c: Core, h: Core,
                       at: Word64, lost: set<nat>, hidden: set<int>, wrote: set<int>, code: set<int>)
    returns (t: State)
    requires R.Rewrite(w, pc, info, island) != [] && at + 0x40 < CODE_END
    requires CodeAt(h.mem, at, R.Rewrite(w, pc, info, island))
    requires Bytes(at, |R.Rewrite(w, pc, info, island)|) <= code
    requires Agree(c, h, lost, hidden) && Relocatable(sem, w, pc, island.At?, c, h, lost, hidden, wrote, code)
    ensures ImageRuns(sem, w, pc, info, island, c, h, at, t, at + 4 * |R.Rewrite(w, pc, info, island)|, lost,
                      HiddenByImage(sem, w, pc, island.At?, c, hidden, wrote), code)
  {
    hide Decode, Reaches, CodeAt, Bytes, Agree, R.GetType, R.NamedAddr, R.FixAddr, R.RewriteLen, R.RewriteAs;
    hide Scratch, RoomToSpill, Simulates, IpSaved, Exec, SameBytesIn, PlainAgrees, Fetch32;
    var words := R.Rewrite(w, pc, info, island);
    R.RewriteLenIsEmittedLen(w, pc, info, island);
    if IsBranch(Decode(w)) {
      RewriteLenBound(w, island.At?);
      BranchRules(sem, w, pc, island.At?, c, h, lost, hidden);
      t := BranchImageSimulates(sem, w, pc, info, island, c, h, at, lost, hidden, code);
    } else if IsPcRelative(Decode(w)) {
      t := DataImageSimulates(sem, w, pc, info, island, c, h, at, lost, hidden, code);
    } else {
      var ty, off := DecodeOf(w);
      PlainWords(w, pc, info, island);
      CodeWord(h.mem, at, words, 0);
      t := PlainSimulates(sem, w, pc, at, c, h, lost, hidden - wrote, code);
    }
  }

  lemma RewriteLenBound(w: bv32, useIsland: bool)
    ensures R.RewriteLen(w, useIsland) <= 32
  {
    hide R.GetType;
  }

  lemma PlainWords(w: bv32, pc: Word64, info: R.RewriteInfo, island: R.Island)
    requires R.GetType(w).IGNORED?
    ensures R.Rewrite(w, pc, info, island) == [w]
  {
    hide R.GetType;
  }
}
