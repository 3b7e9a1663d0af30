/** A whole relocated A64 window stands for the instructions it was made from: the way in,
    any number of steps inside, the branches out and the resume jump. */
module A64Window {
  import opened Words
  import opened I = A64Isa
  import opened A64Sim
  import opened A64Relocation
  import R = A64Rewrite
  import D = A64Decode

  predicate Inside(win: R.Window, pc: Word64) {
    win.target <= pc < win.target + 4 * |win.insts| && (pc - win.target) % 4 == 0
  }

  function IndexOf(win: R.Window, pc: Word64): nat
    requires Inside(win, pc)
  {
    (pc - win.target) / 4
  }

  /** Where the hooked program is when the original one is at `pc`. */
  function Arrival(win: R.Window, pc: Word64): int {
    if Inside(win, pc) then R.ImageAddr(win, IndexOf(win, pc)) else pc
  }

  /** sh_a64_restore_rx or sh_a64_restore_ip, then sh_a64_relative_jump: what both islands hold. */
  function PadWords(from: Word64, dest: Word64): seq<bv32> {
    [R.LDP_IP, R.RelativeJump(dest, Wrap64(from + 4))]
  }

  ghost predicate PadAt(m: Memory, from: Word64, dest: Word64, code: set<int>) {
    && from + 8 < CODE_END && (dest - from) % 4 == 0 && -0x800_0000 <= dest - (from + 4) < 0x800_0000
    && CodeAt(m, from, PadWords(from, dest)) && Bytes(from, 2) <= code
  }

  function WindowEnd(win: R.Window): Word64 {
    R.PcOf(win, |win.insts|)
  }

  /** The words at the resume address: none at a function start; in the middle of a function
      the registers are restored, in the island or in the last word of the patched window. */
  ghost predicate ResumeReady(win: R.Window, m: Memory, code: set<int>) {
    if win.procStart then win.resume == WindowEnd(win)
    else if win.island.At? then PadAt(m, win.resume, WindowEnd(win), code)
    else win.resume + 4 == WindowEnd(win) && CodeAt(m, win.resume, [R.LDP_IP]) && Bytes(win.resume, 1) <= code
  }

  /** The branch island of a one-instruction window. */
  ghost predicate IslandReady(win: R.Window, m: Memory, code: set<int>) {
    win.island.At? ==>
      && |win.insts| == 1 && !win.procStart
      && (IsBranch(Decode(win.insts[0])) ==>
            PadAt(m, win.island.addr, R.FixAddr(R.NamedAddr(win.insts[0], R.PcOf(win, 0)), R.InfoOf(win)), code))
  }

  ghost predicate EnterReady(win: R.Window, m: Memory, code: set<int>) {
    && R.Rewritable(win) && |win.insts| > 0
    && win.target + 4 * |win.insts| < CODE_END && win.enter + 4 * |R.EnterWords(win)| + 0x40 < CODE_END
    && CodeAt(m, win.enter, R.EnterWords(win)) && Bytes(win.enter, |R.EnterWords(win)|) <= code
  }

  ghost predicate Installed(win: R.Window, m: Memory, code: set<int>) {
    EnterReady(win, m, code) && ResumeReady(win, m, code) && IslandReady(win, m, code)
  }

  lemma CodeStays(m: Memory, m': Memory, base: int, words: seq<bv32>, code: set<int>)
    requires CodeAt(m, base, words) && Bytes(base, |words|) <= code && SameBytesIn(m, m', code)
    ensures CodeAt(m', base, words)
  {
    hide CodeAt;
    CodeKept(m, m', base, words);
  }

  /** What leaves the engine's code alone leaves the hook in place. */
  lemma InstalledKept(win: R.Window, m: Memory, m': Memory, code: set<int>)
    requires Installed(win, m, code) && SameBytesIn(m, m', code)
    ensures Installed(win, m', code)
  {
    hide CodeAt, Bytes, SameBytesIn, Decode, R.EnterWords, R.FixAddr, R.InfoOf, R.NamedAddr, R.Rewritable, R.RelativeJump;
    CodeStays(m, m', win.enter, R.EnterWords(win), code);
    if !win.procStart {
      if win.island.At? {
        CodeStays(m, m', win.resume, PadWords(win.resume, WindowEnd(win)), code);
      } else {
        CodeStays(m, m', win.resume, [R.LDP_IP], code);
      }
    }
    if win.island.At? && IsBranch(Decode(win.insts[0])) {
      var dest := R.FixAddr(R.NamedAddr(win.insts[0], R.PcOf(win, 0)), R.InfoOf(win));
      CodeStays(m, m', win.island.addr, PadWords(win.island.addr, dest), code);
    }
  }

  function Restored(h: Core, x16: Word64, x17: Word64): Core {
    SetReg(SetReg(h, 16, x16), 17, x17)
  }

  lemma RestoreStep(sem: Semantics, s: State, h: Core, p: Word64, x16: Word64, x17: Word64)
    requires p + 4 < CODE_END && Fetch32(h.mem, p) == R.LDP_IP && IpSaved(h, x16, x17)
    requires Reaches(sem, s, State(p, h))
    ensures Reaches(sem, s, State(p + 4, Restored(h, x16, x17)))
  {
    hide Decode, Fetch32, Load64, Reaches;
    D.DecodeIpLoads();
    Executes(sem, s, State(p, h), R.LDP_IP);
  }

  lemma PadRuns(sem: Semantics, s: State, h: Core, from: Word64, dest: Word64, code: set<int>, x16: Word64, x17: Word64)
    requires PadAt(h.mem, from, dest, code) && IpSaved(h, x16, x17) && Reaches(sem, s, State(from, h))
    ensures Reaches(sem, s, State(dest, Restored(h, x16, x17)))
  {
    hide Decode, Fetch32, Load64, Reaches, R.RelativeJump, CodeAt;
    var words := PadWords(from, dest);
    CodeWord(h.mem, from, words, 0);
    CodeWord(h.mem, from, words, 1);
    RestoreStep(sem, s, h, from, x16, x17);
    D.RelativeJumpLands(dest, from + 4);
    Executes(sem, s, State(from + 4, Restored(h, x16, x17)), words[1]);
  }

  lemma RestoredAgrees(c: Core, h: Core, x16: Word64, x17: Word64, lost: set<nat>, hidden: set<int>)
    requires Agree(c, h, lost + {16, 17}, hidden)
    requires (16 !in lost ==> c.x[16] == x16) && (17 !in lost ==> c.x[17] == x17)
    ensures Agree(c, Restored(h, x16, x17), lost, hidden)
  {
    hide ByteAt;
  }

  /** The registers a resume jump does not bring back. */
  function ResumeLoss(win: R.Window): set<nat> {
    if win.procStart then {if R.ResumeX16(win.insts) then 16 else 17} else {}
  }

  lemma ResumeWordsAt(win: R.Window, m: Memory, code: set<int>) returns (at: Word64)
    requires EnterReady(win, m, code)
    ensures at == R.ImageAddr(win, |win.insts|) && at + 0x40 < CODE_END
    ensures CodeAt(m, at, R.ResumeJump(win)) && Bytes(at, |R.ResumeJump(win)|) <= code
  {
    hide R.EnterWords, R.ResumeJump, R.Rewritable, Fetch32;
    R.ResumeInEnter(win);
    var k := R.ImageIndex(win, |win.insts|);
    at := R.ImageAddr(win, |win.insts|);
    var words := R.EnterWords(win);
    CodeFrom(m, win.enter, words, k);
    assert words[k..][..|R.ResumeJump(win)|] == R.ResumeJump(win);
    CodeTo(m, at, words[k..], |R.ResumeJump(win)|);
  }

  lemma ImageWordsAt(win: R.Window, m: Memory, code: set<int>, k: nat) returns (at: Word64)
    requires EnterReady(win, m, code) && k < |win.insts|
    ensures at == R.ImageAddr(win, k) && at + 0x40 < CODE_END
    ensures R.Image(win, k) != [] && R.ImageAddr(win, k + 1) == at + 4 * |R.Image(win, k)|
    ensures CodeAt(m, at, R.Image(win, k)) && Bytes(at, |R.Image(win, k)|) <= code
  {
    hide R.EnterWords, R.Image, Fetch32;
    R.ImageInEnter(win, k);
    assert R.Images(win)[k] in R.Images(win);
    var image := R.Images(win)[k];
    var i := R.ImageIndex(win, k);
    at := R.ImageAddr(win, k);
    var words := R.EnterWords(win);
    CodeFrom(m, win.enter, words, i);
    assert words[i..][..|image|] == image;
    CodeTo(m, at, words[i..], |image|);
  }

  /** STP X16, X17, [SP, #-0x10]; LDR X16, #8; BR or RET X16; <addr>. */
  lemma SavingJumpRuns(sem: Semantics, s: State, h: Core, at: Word64, jump: bv32, addr: Word64)
    requires at + 0x40 < CODE_END && Reaches(sem, s, State(at, h)) && Decode(jump) in {Br(16), Ret(16)}
    requires var words := [R.STP_IP, 0x5800_0050, jump, Low32(addr), High32(addr)];
             CodeAt(h.mem, at, words) && ScratchApart(h, at, words)
    ensures Reaches(sem, s, State(addr, SetReg(Spill(h), 16, addr)))
  {
    hide Decode, Fetch32, CodeAt, Low32, High32, Reaches, Store64, ScratchApart;
    var words := [R.STP_IP, 0x5800_0050, jump, Low32(addr), High32(addr)];
    CodeWord(h.mem, at, words, 0);
    SavingStep(sem, s, h, at, words);
    D.DecodeIpLoads();
    CodeFrom(Spill(h).mem, at, words, 1);
    assert words[1..] == [0x5800_0050, jump, Low32(addr), High32(addr)];
    AbsoluteJumpRuns(sem, s, Spill(h), at + 4, 0x5800_0050, jump, 16, addr);
  }

  lemma SavingStep(sem: Semantics, s: State, h: Core, at: Word64, words: seq<bv32>)
    requires at + 0x40 < CODE_END && Reaches(sem, s, State(at, h)) && Fetch32(h.mem, at) == R.STP_IP
    requires CodeAt(h.mem, at, words) && ScratchApart(h, at, words)
    ensures Reaches(sem, s, State(at + 4, Spill(h))) && CodeAt(Spill(h).mem, at, words)
  {
    hide Fetch32, CodeAt, Reaches, Store64;
    SpillStep(sem, s, h, at);
    SpillKeepsCode(h, at, words);
  }

  /** The resume jump leads to the instruction after the window. */
  lemma ResumeRuns(win: R.Window, sem: Semantics, c: Core, h: Core, lost: set<nat>, hidden: set<int>, code: set<int>)
    returns (t: State)
    requires Installed(win, h.mem, code) && Agree(c, h, lost, hidden) && (!win.procStart ==> RoomToSpill(h, code))
    ensures var at := R.ImageAddr(win, |win.insts|);
            0 <= at < CODE_END && Reaches(sem, State(at, h), t) && t.pc == WindowEnd(win)
    ensures Agree(c, t.core, lost + ResumeLoss(win), Spilled(hidden, c.sp, !win.procStart))
    ensures SameBytesIn(h.mem, t.core.mem, code)
  {
    hide Decode, Fetch32, CodeAt, Reaches, R.Rewritable, R.EnterWords, Store64, Load64, R.ResumeX16, Low32, High32;
    var at := ResumeWordsAt(win, h.mem, code);
    ReachesSelf(sem, State(at, h));
    if win.procStart {
      var x16 := R.ResumeX16(win.insts);
      var r := if x16 then 16 else 17;
      D.DecodeIpLoads();
      D.DecodeRegisterBranches();
      AbsoluteJumpRuns(sem, State(at, h), h, at, if x16 then 0x5800_0050 else 0x5800_0051,
                       if x16 then 0xD65F_0200 else 0xD65F_0220, r, win.resume);
      t := State(win.resume, SetReg(h, r, win.resume));
    } else {
      t := ResumeThroughPad(win, sem, c, h, at, lost, hidden, code);
    }
  }

  lemma ResumeThroughPad(win: R.Window, sem: Semantics, c: Core, h: Core, at: Word64, lost: set<nat>, hidden: set<int>,
                         code: set<int>) returns (t: State)
    requires !win.procStart && ResumeReady(win, h.mem, code) && win.target + 4 * |win.insts| < CODE_END
    requires at + 0x40 < CODE_END && CodeAt(h.mem, at, R.RetRx(win.resume)) && Bytes(at, 5) <= code
    requires Agree(c, h, lost, hidden) && RoomToSpill(h, code)
    ensures Reaches(sem, State(at, h), t) && t.pc == WindowEnd(win)
    ensures Agree(c, t.core, lost, hidden + Scratch(c.sp)) && SameBytesIn(h.mem, t.core.mem, code)
  {
    hide Decode, Fetch32, CodeAt, Reaches, Store64, Load64, R.RelativeJump, Low32, High32;
    var s := State(at, h);
    ReachesSelf(sem, s);
    D.DecodeRegisterBranches();
    SavingJumpRuns(sem, s, h, at, 0xD65F_0200, win.resume);
    SpillAgrees(c, h, lost, hidden, code);
    SpillSaves(h);
    var g := SetReg(Spill(h), 16, win.resume);
    var x16, x17 := h.x[16], h.x[17];
    if win.island.At? {
      CodeStays(h.mem, g.mem, win.resume, PadWords(win.resume, WindowEnd(win)), code);
      PadRuns(sem, s, g, win.resume, WindowEnd(win), code, x16, x17);
    } else {
      CodeStays(h.mem, g.mem, win.resume, [R.LDP_IP], code);
      CodeWord(g.mem, win.resume, [R.LDP_IP], 0);
      RestoreStep(sem, s, g, win.resume, x16, x17);
    }
    RestoredAgrees(c, g, x16, x17, lost, hidden + Scratch(c.sp));
    t := State(WindowEnd(win), Restored(g, x16, x17));
  }

  /** A branch is sent to the image of its target, or to the target itself when that lies outside. */
  lemma FixAddrLands(win: R.Window, m: Memory, code: set<int>, named: Word64)
    requires EnterReady(win, m, code) && (named - win.target) % 4 == 0
    ensures R.FixAddr(named, R.InfoOf(win)) == Arrival(win, named)
  {
    hide R.FixAddr, R.Images, R.EnterWords, CodeAt, R.ImageIndex;
    if Inside(win, named) {
      var at := ImageWordsAt(win, m, code, IndexOf(win, named));
      assert named == R.PcOf(win, IndexOf(win, named));
      R.FixAddrIsImageAddr(win, IndexOf(win, named));
    } else {
      NotFixed(win, named);
    }
  }

  lemma NotFixed(win: R.Window, named: Word64)
    requires (named - win.target) % 4 == 0 && !Inside(win, named)
    ensures R.FixAddr(named, R.InfoOf(win)) == named
  {
  }

  lemma BranchNames(w: bv32, pc: Word64)
    requires IsBranch(Decode(w))
    ensures Decode(w).off % 4 == 0 && R.NamedAddr(w, pc) == Wrap64(pc + Decode(w).off)
  {
    hide Decode, R.GetType, R.NamedAddr, Wrap64, I.Rd, I.Cond, I.BitNo;
    var t, off := DecodeOf(w);
  }

  lemma WrapKeepsAlignment(x: int)
    requires x % 4 == 0
    ensures Wrap64(x) % 4 == 0
  {
  }

  lemma BranchOffsets(w: bv32, pc: Word64)
    requires IsBranch(Decode(w)) && pc % 4 == 0
    ensures R.NamedAddr(w, pc) % 4 == 0 && R.NamedAddr(w, pc) == Wrap64(pc + Decode(w).off)
  {
    hide Decode, R.NamedAddr, Wrap64;
    BranchNames(w, pc);
    WrapKeepsAlignment(pc + Decode(w).off);
  }

  /** How much is lost when the outcome of instruction k was `o`. */
  function LostAfter(win: R.Window, k: nat, o: Outcome, lost: set<nat>): set<nat>
    requires k < |win.insts|
  {
    match o
    case Next(_) => if k + 1 == |win.insts| then lost + ResumeLoss(win) else lost
    case Jump(_, _) => if win.island.NoIsland? then LostByJump(Decode(win.insts[k]), lost) else lost
    case Call(_, _) => (if win.island.NoIsland? then LostByJump(Decode(win.insts[k]), lost) else lost) + {30}
  }

  /** The hooked side after instruction k: the right place, the right state, and a return address that comes back
      to the image of the next instruction. */
  ghost predicate Follows(win: R.Window, sem: Semantics, k: nat, c: Core, t: State, lost: set<nat>, hidden: set<int>)
    requires k < |win.insts|
  {
    var pc := R.PcOf(win, k);
    var o := Exec(sem, Decode(win.insts[k]), pc, c);
    var s := After(o, pc);
    && t.pc == Arrival(win, s.pc)
    && Agree(s.core, t.core, LostAfter(win, k, o, lost), hidden)
    && (o.Call? ==> Reg(t.core, 30) == R.ImageAddr(win, k + 1))
  }

  /** Indirect jumps out of the window must not come back into it: their targets are not rewritten. */
  ghost predicate StaysOut(win: R.Window, sem: Semantics, k: nat, c: Core)
    requires k < |win.insts|
  {
    var o := Exec(sem, Decode(win.insts[k]), R.PcOf(win, k), c);
    IsBranch(Decode(win.insts[k])) || o.Next? || !Inside(win, o.target)
  }

  /** A taken branch through the island. */
  lemma IslandArrives(sem: Semantics, i: Inst, pc: Word64, c: Core, h: Core, from: State, t1: State, isl: Word64,
                      dest: Word64, end: int, lost: set<nat>, before: set<int>, hidden: set<int>, code: set<int>)
    returns (t: State)
    requires IsBranch(i) && Agree(c, h, lost, before) && Reaches(sem, from, t1)
    requires PadAt(t1.core.mem, isl, dest, code) && IpSaved(t1.core, Reg(h, 16), Reg(h, 17))
    requires var o := Exec(sem, i, pc, c); !o.Next? && Simulates(o, t1, end, isl, lost, lost + {17}, hidden)
    ensures Reaches(sem, from, t) && t.pc == dest && t.core.mem == t1.core.mem
    ensures var o := Exec(sem, i, pc, c);
            && Agree(After(o, pc).core, t.core, if o.Call? then lost + {30} else lost, hidden)
            && (o.Call? ==> Reg(t.core, 30) == end)
  {
    hide PadAt, IpSaved, Reaches, CondHolds, CbzTaken, TbzTaken, Wrap64, ByteAt;
    var x16, x17 := Reg(h, 16), Reg(h, 17);
    PadRuns(sem, from, t1.core, isl, dest, code, x16, x17);
    t := State(dest, Restored(t1.core, x16, x17));
  }

  /** Where the original goes when a branch is taken. */
  lemma BranchGoes(i: Inst, pc: Word64, sem: Semantics, c: Core)
    requires IsBranch(i) && !Exec(sem, i, pc, c).Next?
    ensures After(Exec(sem, i, pc, c), pc).pc == Wrap64(pc + i.off)
  {
  }

  /** A taken branch: through the island when there is one. */
  lemma BranchArrives(win: R.Window, sem: Semantics, k: nat, c: Core, h: Core, at: Word64, t1: State, lost: set<nat>,
                      before: set<int>, hidden: set<int>, code: set<int>) returns (t: State)
    requires k < |win.insts| && Installed(win, t1.core.mem, code) && win.target % 4 == 0 && Agree(c, h, lost, before)
    requires var w, pc := win.insts[k], R.PcOf(win, k);
             && IsBranch(Decode(w)) && !Exec(sem, Decode(w), pc, c).Next?
             && ImageRuns(sem, w, pc, R.InfoOf(win), win.island, c, h, at, t1, R.ImageAddr(win, k + 1), lost, hidden, code)
    ensures Reaches(sem, State(at, h), t) && t.core.mem == t1.core.mem
    ensures Follows(win, sem, k, c, t, lost, hidden)
  {
    hide Decode, CodeAt, Bytes, Reaches, R.EnterWords, R.ImageAddr, R.Rewritable, SameBytesIn, R.FixAddr, R.NamedAddr;
    hide IpSaved, ByteAt, R.ImageIndex, Exec, PadAt, ResumeReady;
    var w, pc := win.insts[k], R.PcOf(win, k);
    var i := Decode(w);
    var named := R.NamedAddr(w, pc);
    BranchOffsets(w, pc);
    BranchGoes(i, pc, sem, c);
    FixAddrLands(win, t1.core.mem, code, named);
    if win.island.At? {
      t := IslandArrives(sem, i, pc, c, h, State(at, h), t1, win.island.addr, R.FixAddr(named, R.InfoOf(win)),
                         R.ImageAddr(win, k + 1), lost, before, hidden, code);
    } else {
      t := t1;
    }
  }

  /** Falling out of a window in the middle of a function saves X16 and X17 once more. */
  predicate ResumeSpills(win: R.Window, k: nat, o: Outcome) {
    o.Next? && k + 1 == |win.insts| && !win.procStart
  }

  /** Falling through: into the next image, or out through the resume jump. */
  lemma NextArrives(win: R.Window, sem: Semantics, k: nat, c: Core, h: Core, at: Word64, t1: State, lost: set<nat>,
                    hidden: set<int>, code: set<int>) returns (t: State)
    requires k < |win.insts| && Installed(win, t1.core.mem, code)
    requires var w, pc := win.insts[k], R.PcOf(win, k);
             var o := Exec(sem, Decode(w), pc, c);
             && o.Next? && (ResumeSpills(win, k, o) ==> RoomToSpill(o.core, code))
             && ImageRuns(sem, w, pc, R.InfoOf(win), win.island, c, h, at, t1, R.ImageAddr(win, k + 1), lost, hidden, code)
    ensures Reaches(sem, State(at, h), t) && SameBytesIn(t1.core.mem, t.core.mem, code)
    ensures var o := Exec(sem, Decode(win.insts[k]), R.PcOf(win, k), c);
            Follows(win, sem, k, c, t, lost, Spilled(hidden, o.core.sp, ResumeSpills(win, k, o)))
  {
    hide Decode, CodeAt, Bytes, Reaches, R.EnterWords, R.ImageAddr, R.Rewritable, R.FixAddr, R.NamedAddr, Exec, Scratch;
    hide ByteAt, R.ImageIndex, ResumeReady, IslandReady, IpSaved;
    var w, pc := win.insts[k], R.PcOf(win, k);
    if k + 1 == |win.insts| {
      t := ResumeRuns(win, sem, Exec(sem, Decode(w), pc, c).core, t1.core, lost, hidden, code);
      ReachesTransitive(sem, State(at, h), t1, t);
    } else {
      t := t1;
    }
  }

  lemma PlainLeaves(win: R.Window, sem: Semantics, k: nat, c: Core, h: Core, at: Word64, t: State, lost: set<nat>,
                    hidden: set<int>, code: set<int>)
    requires k < |win.insts| && StaysOut(win, sem, k, c)
    requires var w, pc := win.insts[k], R.PcOf(win, k);
             && !IsBranch(Decode(w)) && !Exec(sem, Decode(w), pc, c).Next?
             && ImageRuns(sem, w, pc, R.InfoOf(win), win.island, c, h, at, t, R.ImageAddr(win, k + 1), lost, hidden, code)
    ensures Follows(win, sem, k, c, t, lost, hidden)
  {
    hide Decode, CodeAt, Reaches, R.ImageAddr, R.FixAddr, R.NamedAddr, Exec, ByteAt, IpSaved;
  }

  /** What the rest of the program owes the engine when the original machine executes instruction k in state `c`:
      room below SP where registers are saved, the same effect in every state that may stand for `c`, and no indirect
      jump back. `wrote` are the bytes that the instruction writes. */
  ghost predicate KeepsRules(win: R.Window, sem: Semantics, k: nat, c: Core, lost: set<nat>, hidden: set<int>,
                             wrote: set<int>, code: set<int>)
    requires k < |win.insts|
  {
    var o := Exec(sem, Decode(win.insts[k]), R.PcOf(win, k), c);
    && Fetch32(c.mem, R.PcOf(win, k)) == win.insts[k]
    && (ResumeSpills(win, k, o) ==> RoomToSpill(o.core, code))
    && (forall h | Agree(c, h, lost, hidden) ::
          Relocatable(sem, win.insts[k], R.PcOf(win, k), win.island.At?, c, h, lost, hidden, wrote, code))
    && StaysOut(win, sem, k, c)
  }

  /** The bytes that may differ after instruction k: those that could before, without the ones that it wrote, and with
      those where X16 and X17 were saved, by its image or by the resume jump. */
  ghost function HiddenAfter(win: R.Window, sem: Semantics, k: nat, c: Core, hidden: set<int>, wrote: set<int>): set<int>
    requires k < |win.insts|
  {
    var o := Exec(sem, Decode(win.insts[k]), R.PcOf(win, k), c);
    Spilled(HiddenByImage(sem, win.insts[k], R.PcOf(win, k), win.island.At?, c, hidden, wrote), o.core.sp,
            ResumeSpills(win, k, o))
  }

  /** One original instruction, one image. */
  lemma WindowStep(win: R.Window, sem: Semantics, k: nat, c: Core, h: Core, lost: set<nat>, hidden: set<int>,
                   wrote: set<int>, code: set<int>) returns (t: State)
    requires k < |win.insts| && Installed(win, h.mem, code) && win.target % 4 == 0
    requires Agree(c, h, lost, hidden) && KeepsRules(win, sem, k, c, lost, hidden, wrote, code)
    ensures 0 <= R.ImageAddr(win, k) < CODE_END && Reaches(sem, State(R.ImageAddr(win, k), h), t)
    ensures SameBytesIn(h.mem, t.core.mem, code)
    ensures Follows(win, sem, k, c, t, lost, HiddenAfter(win, sem, k, c, hidden, wrote))
  {
    hide Decode, CodeAt, Bytes, Reaches, R.Rewrite, R.EnterWords, R.ImageAddr, R.Rewritable, ByteAt, Fetch32, Simulates;
    hide Relocatable, Exec, R.FixAddr, R.NamedAddr, Scratch, Goes, IpSaved, ResumeReady, IslandReady, Follows, StaysOut;
    hide HiddenByImage;
    var at := ImageWordsAt(win, h.mem, code, k);
    var w, pc := win.insts[k], R.PcOf(win, k);
    var between := HiddenByImage(sem, w, pc, win.island.At?, c, hidden, wrote);
    var t1 := ImageSimulates(sem, w, pc, R.InfoOf(win), win.island, c, h, at, lost, hidden, wrote, code);
    InstalledKept(win, h.mem, t1.core.mem, code);
    if Exec(sem, Decode(w), pc, c).Next? {
      t := NextArrives(win, sem, k, c, h, at, t1, lost, between, code);
    } else if IsBranch(Decode(w)) {
      t := BranchArrives(win, sem, k, c, h, at, t1, lost, hidden, between, code);
    } else {
      t := t1;
      PlainLeaves(win, sem, k, c, h, at, t, lost, between, code);
    }
  }

  /** The original run starts inside the window, keeps the rules for as many steps as there are elements in `writes` (the
      bytes that each step writes), and calls no function before the last one. */
  ghost predicate Tracks(win: R.Window, sem: Semantics, s: State, lost: set<nat>, hidden: set<int>, writes: seq<set<int>>,
                         code: set<int>)
    decreases |writes|
  {
    writes != [] ==>
      && Inside(win, s.pc)
      && var k := IndexOf(win, s.pc);
         && KeepsRules(win, sem, k, s.core, lost, hidden, writes[0], code)
         && (win.island.NoIsland? && IsBranch(Decode(win.insts[k])) ==> 17 in lost)
         && (|writes| > 1 ==>
               && !Exec(sem, Decode(win.insts[k]), s.pc, s.core).Call?
               && Tracks(win, sem, Step(sem, s), lost, HiddenAfter(win, sem, k, s.core, hidden, writes[0]), writes[1..], code))
  }

  /** The bytes that may differ after such a run. */
  ghost function HiddenAtEnd(win: R.Window, sem: Semantics, s: State, hidden: set<int>, writes: seq<set<int>>): set<int>
    decreases |writes|
  {
    if writes == [] || !Inside(win, s.pc) then hidden
    else
      HiddenAtEnd(win, sem, Step(sem, s), HiddenAfter(win, sem, IndexOf(win, s.pc), s.core, hidden, writes[0]), writes[1..])
  }

  /** What the hooked machine has done after n original steps. */
  ghost predicate RunFollowed(win: R.Window, sem: Semantics, s: State, n: nat, from: State, k: nat, c: Core, t: State,
                              lost: set<nat>, hidden: set<int>, code: set<int>)
  {
    && n > 0 && k < |win.insts|
    && Run(sem, s, n - 1) == State(R.PcOf(win, k), c)
    && Run(sem, s, n) == After(Exec(sem, Decode(win.insts[k]), R.PcOf(win, k), c), R.PcOf(win, k))
    && Reaches(sem, from, t) && SameBytesIn(from.core.mem, t.core.mem, code)
    && Follows(win, sem, k, c, t, lost, hidden)
  }

  lemma OriginalStep(win: R.Window, sem: Semantics, s: State, lost: set<nat>, hidden: set<int>, wrote: set<int>,
                     code: set<int>)
    requires Inside(win, s.pc) && KeepsRules(win, sem, IndexOf(win, s.pc), s.core, lost, hidden, wrote, code)
    ensures s.pc == R.PcOf(win, IndexOf(win, s.pc))
    ensures Step(sem, s) == After(Exec(sem, Decode(win.insts[IndexOf(win, s.pc)]), s.pc, s.core), s.pc)
  {
    hide Decode, Fetch32, Exec, Relocatable, RoomToSpill, Agree;
  }

  lemma OneStepRuns(win: R.Window, sem: Semantics, s: State, h: Core, lost: set<nat>, hidden: set<int>, wrote: set<int>,
                    code: set<int>) returns (t: State)
    requires Inside(win, s.pc) && KeepsRules(win, sem, IndexOf(win, s.pc), s.core, lost, hidden, wrote, code)
    requires Installed(win, h.mem, code) && win.target % 4 == 0 && Agree(s.core, h, lost, hidden)
    ensures 0 <= Arrival(win, s.pc) < CODE_END
    ensures RunFollowed(win, sem, s, 1, State(Arrival(win, s.pc), h), IndexOf(win, s.pc), s.core, t, lost,
                        HiddenAfter(win, sem, IndexOf(win, s.pc), s.core, hidden, wrote), code)
  {
    hide Decode, Exec, Agree, Installed, KeepsRules, Reaches, SameBytesIn, Follows, Step, R.ImageAddr, HiddenAfter;
    var k := IndexOf(win, s.pc);
    OriginalStep(win, sem, s, lost, hidden, wrote, code);
    t := WindowStep(win, sem, k, s.core, h, lost, hidden, wrote, code);
    assert Run(sem, s, 1) == Run(sem, Step(sem, s), 0);
  }

  /** Forward simulation: n original steps that start at any instruction of the window are n images run from the
      image of that instruction, and end where the original ends or at its image. */
  lemma {:induction false} WindowRuns(win: R.Window, sem: Semantics, s: State, h: Core, lost: set<nat>,
                                      hidden: set<int>, writes: seq<set<int>>, code: set<int>)
    returns (k: nat, c: Core, t: State)
    requires writes != [] && Tracks(win, sem, s, lost, hidden, writes, code)
    requires Installed(win, h.mem, code) && win.target % 4 == 0 && Agree(s.core, h, lost, hidden)
    ensures 0 <= Arrival(win, s.pc) < CODE_END
    ensures RunFollowed(win, sem, s, |writes|, State(Arrival(win, s.pc), h), k, c, t, lost,
                        HiddenAtEnd(win, sem, s, hidden, writes), code)
    decreases |writes|
  {
    hide Decode, Exec, Agree, EnterReady, ResumeReady, IslandReady, KeepsRules, Reaches, SameBytesIn, Step, R.ImageAddr;
    hide Run, Follows, HiddenAfter;
    var t1 := OneStepRuns(win, sem, s, h, lost, hidden, writes[0], code);
    var after := HiddenAfter(win, sem, IndexOf(win, s.pc), s.core, hidden, writes[0]);
    if |writes| == 1 {
      k, c, t := IndexOf(win, s.pc), s.core, t1;
    } else {
      OriginalStep(win, sem, s, lost, hidden, writes[0], code);
      var s1 := Step(sem, s);
      StaysInside(win, sem, s, h.mem, t1, lost, hidden, writes, code);
      InstalledKept(win, h.mem, t1.core.mem, code);
      k, c, t := WindowRuns(win, sem, s1, t1.core, lost, after, writes[1..], code);
      Chains(win, sem, s, |writes|, State(Arrival(win, s.pc), h), t1, k, c, t, lost,
             HiddenAtEnd(win, sem, s, hidden, writes), code);
    }
  }

  /** Between two steps inside the window nothing more is lost. */
  lemma StaysInside(win: R.Window, sem: Semantics, s: State, m: Memory, t: State, lost: set<nat>, hidden: set<int>,
                    writes: seq<set<int>>, code: set<int>)
    requires |writes| > 1 && Tracks(win, sem, s, lost, hidden, writes, code) && EnterReady(win, m, code)
    requires var k := IndexOf(win, s.pc);
             Follows(win, sem, k, s.core, t, lost, HiddenAfter(win, sem, k, s.core, hidden, writes[0]))
    ensures t.pc == Arrival(win, Step(sem, s).pc)
    ensures Agree(Step(sem, s).core, t.core, lost, HiddenAfter(win, sem, IndexOf(win, s.pc), s.core, hidden, writes[0]))
  {
    hide Decode, Exec, ByteAt, Step, KeepsRules, R.ImageAddr, CodeAt, R.EnterWords, R.Rewritable, HiddenAfter;
    OriginalStep(win, sem, s, lost, hidden, writes[0], code);
    var k := IndexOf(win, s.pc);
    var o := Exec(sem, Decode(win.insts[k]), s.pc, s.core);
    assert Inside(win, Step(sem, s).pc);
    assert LostAfter(win, k, o, lost) == lost;
  }

  lemma Chains(win: R.Window, sem: Semantics, s: State, n: nat, from: State, t1: State, k: nat, c: Core, t: State,
               lost: set<nat>, hidden: set<int>, code: set<int>)
    requires n > 1 && Reaches(sem, from, t1) && SameBytesIn(from.core.mem, t1.core.mem, code)
    requires RunFollowed(win, sem, Step(sem, s), n - 1, t1, k, c, t, lost, hidden, code)
    ensures RunFollowed(win, sem, s, n, from, k, c, t, lost, hidden, code)
  {
    hide Decode, Exec, Step, Reaches, Follows, ByteAt;
    ReachesTransitive(sem, from, t1, t);
  }

  /** How the hooked machine enters the window: at a function start as the original does, in the middle of a
      function with X16 and X17 saved below SP. */
  ghost predicate Entered(win: R.Window, c: Core, h: Core, lost: set<nat>, hidden: set<int>) {
    if win.procStart then Agree(c, h, lost, hidden)
    else Agree(c, h, lost + {16, 17}, hidden) && IpSaved(h, c.x[16], c.x[17])
  }

  lemma EnterRuns(win: R.Window, sem: Semantics, c: Core, h: Core, lost: set<nat>, hidden: set<int>, code: set<int>)
    returns (t: State)
    requires Installed(win, h.mem, code) && Entered(win, c, h, lost, hidden)
    ensures Reaches(sem, State(win.enter, h), t) && t.pc == Arrival(win, win.target)
    ensures t.core.mem == h.mem && Agree(c, t.core, lost, hidden)
  {
    hide Decode, CodeAt, Reaches, R.Images, R.ResumeJump, R.Rewritable, Load64, Fetch32, ByteAt;
    ReachesSelf(sem, State(win.enter, h));
    assert R.ImageIndex(win, 0) == |R.PrologWords(win)| by {
      assert R.Images(win)[..0] == [];
    }
    if win.procStart {
      t := State(win.enter, h);
    } else {
      CodeWord(h.mem, win.enter, R.EnterWords(win), 0);
      RestoreStep(sem, State(win.enter, h), h, win.enter, c.x[16], c.x[17]);
      RestoredAgrees(c, h, c.x[16], c.x[17], lost, hidden);
      t := State(win.enter + 4, Restored(h, c.x[16], c.x[17]));
    }
  }

  /** The whole window, from the enter address to wherever the original run goes. */
  lemma EnteredWindowRuns(win: R.Window, sem: Semantics, s: State, h: Core, lost: set<nat>, hidden: set<int>,
                          writes: seq<set<int>>, code: set<int>) returns (k: nat, c: Core, t: State)
    requires s.pc == win.target && writes != [] && Tracks(win, sem, s, lost, hidden, writes, code)
    requires Installed(win, h.mem, code) && win.target % 4 == 0 && Entered(win, s.core, h, lost, hidden)
    ensures RunFollowed(win, sem, s, |writes|, State(win.enter, h), k, c, t, lost,
                        HiddenAtEnd(win, sem, s, hidden, writes), code)
  {
    hide Decode, Exec, Agree, KeepsRules, ByteAt, Step, R.ImageAddr, Run, Follows, CodeAt, R.EnterWords, R.Rewritable;
    hide ResumeReady, IslandReady, Reaches, HiddenAtEnd;
    var t0 := EnterRuns(win, sem, s.core, h, lost, hidden, code);
    var t1;
    k, c, t1 := WindowRuns(win, sem, s, t0.core, lost, hidden, writes, code);
    t := t1;
    assert t0 == State(Arrival(win, s.pc), t0.core);
    ReachesTransitive(sem, State(win.enter, h), t0, t);
  }

  /** Whatever the instruction: afterwards only bytes that differed before and were not written, and the 16 bytes below
      the final SP, may differ. */
  lemma OnlyBelowSpDiffers(win: R.Window, sem: Semantics, k: nat, c: Core, hidden: set<int>, wrote: set<int>)
    requires k < |win.insts|
    ensures var pc := R.PcOf(win, k);
            var end := After(Exec(sem, Decode(win.insts[k]), pc, c), pc).core;
            HiddenAfter(win, sem, k, c, hidden, wrote) <= (hidden - wrote) + Scratch(end.sp)
  {
    hide Decode, Scratch, Wrap64, LoadWidth, LoadV, CondHolds, CbzTaken, TbzTaken;
  }

  /** In the middle of a function a single relocated instruction is exact: the machine arrives where the original
      arrives with every register, the flags, the vectors and memory the same; but for bytes that were hidden before
      and not written, and the 16 bytes below the final SP. Only a call differs, and only in its return address, which
      is the place in the enter buffer that resumes the function. */
  lemma MidFunctionIsExact(win: R.Window, sem: Semantics, s: State, h: Core, hidden: set<int>, wrote: set<int>,
                           code: set<int>) returns (t: State)
    requires !win.procStart && win.island.At? && |win.insts| == 1 && s.pc == win.target && win.target % 4 == 0
    requires Installed(win, h.mem, code) && Entered(win, s.core, h, {}, hidden)
    requires KeepsRules(win, sem, 0, s.core, {}, hidden, wrote, code)
    ensures Reaches(sem, State(win.enter, h), t) && t.pc == Arrival(win, Step(sem, s).pc)
    ensures var called := Exec(sem, Decode(win.insts[0]), s.pc, s.core).Call?;
            var end := Step(sem, s).core;
            && Agree(end, t.core, if called then {30} else {}, (hidden - wrote) + Scratch(end.sp))
            && (called ==> Reg(t.core, 30) == R.ImageAddr(win, 1))
  {
    hide Decode, Exec, ByteAt, Step, R.ImageAddr, CodeAt, R.EnterWords, R.Rewritable, KeepsRules, ResumeReady;
    hide IslandReady, Reaches, HiddenAfter, Scratch;
    var t0 := EnterRuns(win, sem, s.core, h, {}, hidden, code);
    OriginalStep(win, sem, s, {}, hidden, wrote, code);
    t := WindowStep(win, sem, 0, s.core, t0.core, {}, hidden, wrote, code);
    ReachesTransitive(sem, State(win.enter, h), t0, t);
    OnlyBelowSpDiffers(win, sem, 0, s.core, hidden, wrote);
  }

  /** At a function start a single relocated instruction loses one register: X16 when it falls through after
      writing X17 by ADRP or LDR, X17 otherwise. Plain jumps and calls lose none. Memory is the same but for bytes that
      were hidden before and not written, and, for a vector literal or a prefetch, the 16 bytes below SP. */
  lemma FunctionStartLosesOne(win: R.Window, sem: Semantics, s: State, h: Core, hidden: set<int>, wrote: set<int>,
                              code: set<int>) returns (t: State)
    requires win.procStart && win.island.NoIsland? && |win.insts| == 1 && s.pc == win.target && win.target % 4 == 0
    requires Installed(win, h.mem, code) && Agree(s.core, h, {}, hidden)
    requires KeepsRules(win, sem, 0, s.core, {}, hidden, wrote, code)
    ensures Reaches(sem, State(win.enter, h), t) && t.pc == Arrival(win, Step(sem, s).pc)
    ensures var i := Decode(win.insts[0]);
            var o := Exec(sem, i, s.pc, s.core);
            var end := Step(sem, s).core;
            var after := Spilled(hidden, s.core.sp, i.PrfmLit? || i.LdrVLit?) - wrote;
            && (o.Next? ==> Agree(end, t.core, {if R.ResumesThroughX16(win.insts[0]) then 16 else 17}, after))
            && (o.Jump? ==> Agree(end, t.core, if IsBranch(i) then {17} else {}, after))
            && (o.Call? ==> Agree(end, t.core, if IsBranch(i) then {17, 30} else {30}, after)
                            && Reg(t.core, 30) == R.ImageAddr(win, 1))
  {
    hide Decode, Exec, ByteAt, Step, R.ImageAddr, CodeAt, R.EnterWords, R.Rewritable, KeepsRules, ResumeReady;
    hide IslandReady, Reaches, R.ResumesThroughX16, Scratch;
    var t0 := EnterRuns(win, sem, s.core, h, {}, hidden, code);
    OriginalStep(win, sem, s, {}, hidden, wrote, code);
    t := WindowStep(win, sem, 0, s.core, t0.core, {}, hidden, wrote, code);
    ReachesTransitive(sem, State(win.enter, h), t0, t);
    assert win.insts[0] in win.insts;
  }

  // A stored pair, the usual first instruction of a function: what it pushes is the same in the moved code.

  predicate StoresPair(i: Inst) {
    i.Stp? || i.StpPre?
  }

  /** Where the pair goes. */
  function PairAddr(i: Inst, c: Core): Word64
    requires StoresPair(i)
  {
    Wrap64(Base(c, i.n) + i.off)
  }

  predicate PairKept(i: Inst, lost: set<nat>)
    requires StoresPair(i)
  {
    i.t !in lost && i.t2 !in lost && i.n !in lost
  }

  lemma PairAgrees(sem: Semantics, i: Inst, c: Core, h: Core, lost: set<nat>, hidden: set<int>, code: set<int>)
    requires StoresPair(i) && PairKept(i, lost) && Agree(c, h, lost, hidden) && Span(PairAddr(i, c), 16) !! code
    ensures PlainAgrees(sem, i, c, h, lost, hidden - Span(PairAddr(i, c), 16), code)
  {
    hide Store64, Wrap64, ByteAt;
    var a, x, y := PairAddr(i, c), Reg(c, i.t), Reg(c, i.t2);
    assert a == PairAddr(i, h) && x == Reg(h, i.t) && y == Reg(h, i.t2);
    forall b ensures b !in hidden - Span(a, 16) ==> ByteAt(StoredPair(c.mem, a, x, y), b) == ByteAt(StoredPair(h.mem, a, x, y), b)
             ensures b !in Span(a, 16) ==> ByteAt(h.mem, b) == ByteAt(StoredPair(h.mem, a, x, y), b)
    {
      PairByte(c.mem, h.mem, a, x, y, b);
    }
  }

  function StoredPair(m: Memory, a: int, x: Word64, y: Word64): Memory {
    Store64(Store64(m, a, x), a + 8, y)
  }

  lemma PairByte(m: Memory, m': Memory, a: int, x: Word64, y: Word64, b: int)
    ensures b in Span(a, 16) || ByteAt(m, b) == ByteAt(m', b) ==>
              ByteAt(StoredPair(m, a, x, y), b) == ByteAt(StoredPair(m', a, x, y), b)
    ensures b !in Span(a, 16) ==> ByteAt(m', b) == ByteAt(StoredPair(m', a, x, y), b)
  {
    hide Store64, ByteAt;
    StoredByte(m, m', a, x, b);
    StoredByte(Store64(m, a, x), Store64(m', a, x), a + 8, y, b);
  }

  /** A window of one such instruction keeps the rules, whatever the state. */
  lemma PairKeepsRules(win: R.Window, sem: Semantics, c: Core, lost: set<nat>, hidden: set<int>, code: set<int>)
    requires win.procStart && |win.insts| == 1 && Fetch32(c.mem, R.PcOf(win, 0)) == win.insts[0]
    requires var i := Decode(win.insts[0]);
             StoresPair(i) && PairKept(i, lost) && Span(PairAddr(i, c), 16) !! code
    ensures KeepsRules(win, sem, 0, c, lost, hidden, Span(PairAddr(Decode(win.insts[0]), c), 16), code)
  {
    hide Decode, Fetch32, Store64, PairAddr, PlainAgrees, Agree, R.NamedAddr, Span;
    var i, wrote := Decode(win.insts[0]), Span(PairAddr(Decode(win.insts[0]), c), 16);
    forall h | Agree(c, h, lost, hidden) ensures PlainAgrees(sem, i, c, h, lost, hidden - wrote, code) {
      PairAgrees(sem, i, c, h, lost, hidden, code);
    }
  }

  lemma PlainResumesThroughX17(w: bv32)
    requires !IsPcRelative(Decode(w))
    ensures !R.ResumesThroughX16(w)
  {
    hide Decode, R.GetType;
    var t, off := DecodeOf(w);
  }

  /** STP Xt, Xt2, [SP, #off]! is the only instruction that is moved, at a function start. */
  ghost predicate PushReady(win: R.Window, i: Inst, s: State, h: Core, hidden: set<int>, code: set<int>) {
    && win.procStart && win.island.NoIsland? && |win.insts| == 1 && s.pc == win.target && win.target % 4 == 0
    && Installed(win, h.mem, code) && Agree(s.core, h, {}, hidden) && Fetch32(s.core.mem, s.pc) == win.insts[0]
    && i == Decode(win.insts[0]) && i.StpPre? && i.n == 31 && Span(PairAddr(i, s.core), 16) !! code
  }

  /** What it leaves on the stack, in a state that otherwise stands for the original one. */
  ghost predicate Pushed(sem: Semantics, i: Inst, s: State, t: Core, hidden: set<int>) {
    && StoresPair(i)
    && var a := PairAddr(i, s.core);
       && t.sp == a && Load64(t.mem, a) == Reg(s.core, i.t) && Load64(t.mem, a + 8) == Reg(s.core, i.t2)
       && Agree(Step(sem, s).core, t, {17}, hidden - Span(a, 16))
  }

  lemma PushRuns(win: R.Window, i: Inst, sem: Semantics, s: State, h: Core, hidden: set<int>, code: set<int>)
    returns (t: State)
    requires PushReady(win, i, s, h, hidden, code)
    ensures Reaches(sem, State(win.enter, h), t) && t.pc == Wrap64(win.target + 4) && StoresPair(i)
    ensures Agree(Step(sem, s).core, t.core, {17}, hidden - Span(PairAddr(i, s.core), 16))
  {
    hide Decode, Fetch32, Reaches, KeepsRules, Installed, R.ResumesThroughX16, Span, ByteAt, Wrap64, Exec;
    hide PairAddr, R.PcOf, Arrival, Agree, R.ImageAddr, Step;
    NextToWindow(win, h.mem, code);
    PushGoesOn(win.insts[0], i, sem, s);
    PushKeepsRules(win, i, sem, s, h, hidden, code);
    t := FunctionStartLosesOne(win, sem, s, h, hidden, Span(PairAddr(i, s.core), 16), code);
  }

  lemma PushGoesOn(w: bv32, i: Inst, sem: Semantics, s: State)
    requires Fetch32(s.core.mem, s.pc) == w && i == Decode(w) && i.StpPre? && i.n == 31
    ensures Exec(sem, i, s.pc, s.core).Next? && !R.ResumesThroughX16(w)
    ensures Step(sem, s).pc == Wrap64(s.pc + 4)
  {
    hide Decode, Fetch32, Store64, R.ResumesThroughX16, Wrap64, Exec, PairAddr, StoredPair;
    OriginalFetches(sem, s, w);
    PushEffect(sem, i, s.pc, s.core);
    PlainResumesThroughX17(w);
  }

  lemma PushKeepsRules(win: R.Window, i: Inst, sem: Semantics, s: State, h: Core, hidden: set<int>, code: set<int>)
    requires PushReady(win, i, s, h, hidden, code)
    ensures KeepsRules(win, sem, 0, s.core, {}, hidden, Span(PairAddr(i, s.core), 16), code)
  {
    NextToWindow(win, h.mem, code);
    hide Decode, Fetch32, KeepsRules, Installed, Span, PairAddr, R.PcOf, Agree;
    PairKeepsRules(win, sem, s.core, {}, hidden, code);
  }

  /** The pair is on the stack, where the original has it, and nothing is different that could be seen before. */
  lemma PushIsKept(win: R.Window, i: Inst, sem: Semantics, s: State, h: Core, hidden: set<int>, code: set<int>)
    returns (t: State)
    requires PushReady(win, i, s, h, hidden, code)
    ensures Reaches(sem, State(win.enter, h), t) && t.pc == Wrap64(win.target + 4) && Pushed(sem, i, s, t.core, hidden)
  {
    hide Decode, Fetch32, Store64, Load64, Reaches, Installed, Span, Wrap64, Exec, PairAddr, StoredPair, Agree, Step;
    t := PushRuns(win, i, sem, s, h, hidden, code);
    OriginalFetches(sem, s, win.insts[0]);
    PushEffect(sem, i, s.pc, s.core);
    PairReads(s.core.mem, Step(sem, s).core, t.core, PairAddr(i, s.core), Reg(s.core, i.t), Reg(s.core, i.t2), {17}, hidden);
  }

  lemma PushEffect(sem: Semantics, i: Inst, pc: Word64, c: Core)
    requires i.StpPre? && i.n == 31
    ensures var a := PairAddr(i, c);
            Exec(sem, i, pc, c) == Next(c.(mem := StoredPair(c.mem, a, Reg(c, i.t), Reg(c, i.t2)), sp := a))
  {
    hide Store64, Wrap64;
  }

  lemma NextToWindow(win: R.Window, m: Memory, code: set<int>)
    requires Installed(win, m, code) && |win.insts| == 1
    ensures R.PcOf(win, 0) == win.target && Arrival(win, Wrap64(win.target + 4)) == Wrap64(win.target + 4)
  {
    hide CodeAt, R.EnterWords, R.Rewritable;
  }

  lemma OriginalFetches(sem: Semantics, s: State, w: bv32)
    requires Fetch32(s.core.mem, s.pc) == w
    ensures Step(sem, s) == After(Exec(sem, Decode(w), s.pc, s.core), s.pc)
  {
    hide Decode, Fetch32, Exec;
  }

  lemma PairReads(m: Memory, c: Core, h: Core, a: Word64, x: Word64, y: Word64, lost: set<nat>, hidden: set<int>)
    requires c.mem == StoredPair(m, a, x, y) && c.sp == a && Agree(c, h, lost, hidden - Span(a, 16))
    ensures h.sp == a && Load64(h.mem, a) == x && Load64(h.mem, a + 8) == y
  {
    hide Store64, Load64, ByteAt;
    var m1 := Store64(m, a, x);
    Load64Store64(m, a, x);
    Load64Store64(m1, a + 8, y);
    forall b | a <= b < a + 8 ensures ByteAt(m1, b) == ByteAt(h.mem, b) {
      Store64Frame(m1, a + 8, y, b);
      assert b !in hidden - Span(a, 16);
    }
    forall b | a + 8 <= b < a + 16 ensures ByteAt(c.mem, b) == ByteAt(h.mem, b) {
      assert b !in hidden - Span(a, 16);
    }
    SameBytes(m1, h.mem, a, 8);
    SameBytes(c.mem, h.mem, a + 8, 8);
  }

  // The way out of the target: a relative jump to the exit island, and an absolute jump from there.

  ghost predicate ExitLost(c: Core, h: Core, t: Core, saved: bool, lost: set<nat>, hidden: set<int>) {
    if saved then Agree(c, t, lost + {16}, hidden + Scratch(c.sp)) && IpSaved(t, h.x[16], h.x[17])
    else Agree(c, t, lost + {17}, hidden)
  }

  lemma ExitIslandRuns(sem: Semantics, from: State, c: Core, h: Core, island: Word64, procStart: bool,
                       toInterceptor: bool, addr: Word64, lost: set<nat>, hidden: set<int>, code: set<int>)
    returns (t: State)
    requires island + 0x40 < CODE_END && Reaches(sem, from, State(island, h))
    requires var words := R.ExitIsland(procStart, toInterceptor, addr);
             CodeAt(h.mem, island, words) && Bytes(island, |words|) <= code
    requires Agree(c, h, lost, hidden) && (!procStart || toInterceptor ==> RoomToSpill(h, code))
    ensures Reaches(sem, from, t) && t.pc == addr && SameBytesIn(h.mem, t.core.mem, code)
    ensures ExitLost(c, h, t.core, !procStart || toInterceptor, lost, hidden)
  {
    hide Decode, Fetch32, CodeAt, Reaches, Store64, Load64, ByteAt, Low32, High32;
    D.DecodeRegisterBranches();
    if procStart && !toInterceptor {
      D.DecodeIpLoads();
      AbsoluteJumpRuns(sem, from, h, island, R.LDR_X17_8, 0xD61F_0220, 17, addr);
      t := State(addr, SetReg(h, 17, addr));
    } else {
      SavingJumpRuns(sem, from, h, island, 0xD61F_0200, addr);
      SpillAgrees(c, h, lost, hidden, code);
      SpillSaves(h);
      t := State(addr, SetReg(Spill(h), 16, addr));
    }
  }

  /** The patched target leads to `addr` and gives up no more than the way back in restores. */
  lemma ExitRuns(sem: Semantics, c: Core, h: Core, target: Word64, island: Word64, procStart: bool, toInterceptor: bool,
                 addr: Word64, lost: set<nat>, hidden: set<int>, code: set<int>) returns (t: State)
    requires target + 0x40 < CODE_END && island + 0x40 < CODE_END
    requires (island - target) % 4 == 0 && -0x800_0000 <= island - target < 0x800_0000
    requires CodeAt(h.mem, target, [R.RelativeJump(island, target)])
    requires var words := R.ExitIsland(procStart, toInterceptor, addr);
             CodeAt(h.mem, island, words) && Bytes(island, |words|) <= code
    requires Agree(c, h, lost, hidden) && (!procStart || toInterceptor ==> RoomToSpill(h, code))
    ensures Reaches(sem, State(target, h), t) && t.pc == addr && SameBytesIn(h.mem, t.core.mem, code)
    ensures ExitLost(c, h, t.core, !procStart || toInterceptor, lost, hidden)
  {
    hide Decode, Fetch32, CodeAt, Reaches, R.RelativeJump, R.ExitIsland, SameBytesIn, Bytes, Agree, RoomToSpill, ExitLost;
    var s := State(target, h);
    ReachesSelf(sem, s);
    CodeWord(h.mem, target, [R.RelativeJump(island, target)], 0);
    D.RelativeJumpLands(island, target);
    Executes(sem, s, s, R.RelativeJump(island, target));
    t := ExitIslandRuns(sem, s, c, h, island, procStart, toInterceptor, addr, lost, hidden, code);
  }
}
