/** Forward simulation of a moved Thumb window (sh_inst_thumb_rewrite in arch/arm/sh_inst.c): any instructions that can be
    rewritten, IT blocks among them, and any number of steps. */
module ThumbRun {
  import opened Words
  import opened Layout
  import opened ThumbRewrite
  import opened ThumbIt
  import opened ThumbWindow
  import opened ThumbArms
  import opened Sides
  import opened ThumbSteps
  import opened ThumbBlock
  import C = ThumbCpu
  import S = ThumbSim
  import M = ThumbMove

  // The original machine, as long as it is in the window. A step is an instruction, or a whole IT block.

  /** At the start of a piece of the window; or elsewhere, with bit 0 telling Thumb from Arm. */
  datatype Spot = In(piece: nat) | To(dest: Word32)

  datatype State = State(spot: Spot, core: C.Machine)

  /** The start of piece j, as the destination of a branch. */
  function StartOf(code: Code, win: Window, j: nat): int
    requires j < |Pieces(code, win)|
  {
    win.target + 2 * Pieces(code, win)[j].at + 1
  }

  function Find(code: Code, win: Window, dest: Word32, j: nat): (spot: Spot)
    requires j <= |Pieces(code, win)|
    ensures if spot.In? then spot.piece < |Pieces(code, win)| && dest == StartOf(code, win, spot.piece) else spot.dest == dest
    decreases |Pieces(code, win)| - j
  {
    if j == |Pieces(code, win)| then To(dest)
    else if dest == StartOf(code, win, j) then In(j)
    else Find(code, win, dest, j + 1)
  }

  function PartOf(p: Piece): Part
    requires p.Plain?
  {
    Part(p.instr, p.at, false)
  }

  /** What a piece does: `inside` is what instructions do in IT blocks, where most 16-bit ones leave the flags alone. */
  function PieceResult(sem: C.Sem, inside: C.Sem, code: Code, win: Window, p: Piece, c: C.Machine): Result<C.Rest> {
    match p
    case Plain(_, _) => RunStraight([PartOf(p)], Meant(sem, win.target), c)
    case Block(at, _) => RunBlock(AllParts(code, at), FirstCond(code(at)), Meant(inside, win.target), c)
  }

  function Behind(code: Code, win: Window, j: nat): Spot {
    if j < |Pieces(code, win)| then In(j) else To(Resume(code, win))
  }

  function StepAt(sem: C.Sem, inside: C.Sem, code: Code, win: Window, s: State): State {
    if s.spot.In? && s.spot.piece < |Pieces(code, win)| then
      match PieceResult(sem, inside, code, win, Pieces(code, win)[s.spot.piece], s.core)
      case Done(t) => State(Behind(code, win, s.spot.piece + 1), t)
      case Left(t, dest) => State(Find(code, win, Wrap32(dest), 0), t)
      case _ => s
    else s
  }

  function Original(sem: C.Sem, inside: C.Sem, code: Code, win: Window, s: State, n: nat): State
    decreases n
  {
    if n == 0 then s else Original(sem, inside, code, win, StepAt(sem, inside, code, win, s), n - 1)
  }

  /** The instructions that a piece executes, when it is entered in state `c`. */
  function Active(code: Code, p: Piece, c: C.Machine): seq<Part> {
    match p
    case Plain(_, _) => [PartOf(p)]
    case Block(at, _) => Only(AllParts(code, at), !CondHolds(FirstCond(code(at)), c.flags))
  }

  /** What is asked of a piece that is executed in state `c`: its instructions keep the rules, a block is one that may be
      split, and a branch into the window goes to the start of a piece. */
  ghost predicate PieceTracks(sem: C.Sem, inside: C.Sem, code: Code, win: Window, j: nat, c: C.Machine, hidden: set<int>,
                              writes: seq<set<int>>, own: set<int>)
    requires j < |Pieces(code, win)|
  {
    var p := Pieces(code, win)[j];
    && (p.Block? ==>
          && FirstCond(code(p.at)) < 14
          && KeepsCond(AllParts(code, p.at), FirstCond(code(p.at)), Meant(inside, win.target), Meant(sem, win.target), c))
    && ArmTracks(sem, Active(code, p, c), win.target, InfoOf(code, win), c, hidden, writes, own)
    && match PieceResult(sem, inside, code, win, p, c)
       case Left(_, dest) => InWindow(code, win, dest) ==> Find(code, win, Wrap32(dest), 0).In?
       case _ => true
  }

  predicate InWindow(code: Code, win: Window, dest: int) {
    win.target <= dest < win.target + 2 * WindowHalves(code, win)
  }

  predicate Calls(sem: C.Sem, code: Code, win: Window, s: State) {
    && s.spot.In? && s.spot.piece < |Pieces(code, win)|
    && CallsOut(sem, Active(code, Pieces(code, win)[s.spot.piece], s.core), win.target, s.core)
  }

  predicate CallsOut(sem: C.Sem, parts: seq<Part>, target: Word32, c: C.Machine) {
    var l := Leaver(sem, parts, 0, target, c);
    l < |parts| && S.Links(parts[l].instr)
  }

  /** The original run starts inside the window, keeps the rules for as many pieces as there are elements in `writes` (the
      bytes that each instruction of them writes), and calls no function before the last one. */
  ghost predicate Tracks(sem: C.Sem, inside: C.Sem, code: Code, win: Window, s: State, hidden: set<int>,
                         writes: seq<seq<set<int>>>, own: set<int>)
    decreases |writes|
  {
    writes != [] ==>
      && s.spot.In? && s.spot.piece < |Pieces(code, win)|
      && PieceTracks(sem, inside, code, win, s.spot.piece, s.core, hidden, writes[0], own)
      && (|writes| > 1 ==>
            && !Calls(sem, code, win, s)
            && Tracks(sem, inside, code, win, StepAt(sem, inside, code, win, s),
                      ArmHidden(sem, Active(code, Pieces(code, win)[s.spot.piece], s.core), win.target, s.core, hidden,
                                writes[0]),
                      writes[1..], own))
  }

  /** The bytes that may differ after such a run. */
  ghost function HiddenAtEnd(sem: C.Sem, inside: C.Sem, code: Code, win: Window, s: State, hidden: set<int>,
                             writes: seq<seq<set<int>>>): set<int>
    decreases |writes|
  {
    if writes == [] || !s.spot.In? || s.spot.piece >= |Pieces(code, win)| then hidden
    else
      var after := ArmHidden(sem, Active(code, Pieces(code, win)[s.spot.piece], s.core), win.target, s.core, hidden, writes[0]);
      HiddenAtEnd(sem, inside, code, win, StepAt(sem, inside, code, win, s), after, writes[1..])
  }

  // One piece.

  /** The words of the enter are the engine's own. */
  ghost predicate Owned(code: Code, win: Window, h: C.Machine, own: set<int>) {
    M.Entered(code, win, h) && Span(win.enter, 2 * |EnterWords(code, win)|) <= own
  }

  lemma OwnedKept(code: Code, win: Window, h: C.Machine, e: C.Machine, own: set<int>)
    requires Owned(code, win, h, own) && SameBytesIn(h.rest.mem, e.rest.mem, own)
    ensures Owned(code, win, e, own)
  {
    hide EnterWords, Rewritable, WellFormedWindow, WindowHalves;
    S.BytesAreCode(h.rest.mem, e.rest.mem, win.enter, EnterWords(code, win));
  }

  /** The image of piece j, in the engine's own memory. */
  lemma ImageIsOwned(code: Code, win: Window, j: nat, h: C.Machine, own: set<int>)
    requires Owned(code, win, h, own) && j < |Pieces(code, win)|
    ensures var p, words := ImageAddr(code, win, j), Images(code, win)[j];
            && 0 <= p < S.CODE_END && Placed(h, p, words, own) && p + 2 * |words| == ImageAddr(code, win, j + 1)
  {
    hide EnterWords, Rewritable, WellFormedWindow, WindowHalves, C.CodeAt, Images, Pieces, ImageAddr;
    M.ImageIsThere(code, win, j, h);
    ImageInEnter(code, win, j);
  }

  lemma ImageInEnter(code: Code, win: Window, j: nat)
    requires j < |Pieces(code, win)|
    ensures var p := ImageAddr(code, win, j);
            win.enter <= p && p + 2 * |Images(code, win)[j]| <= win.enter + 2 * |EnterWords(code, win)|
  {
    hide Images, Pieces, PrologWords, JumpTo;
    PartAt(Images(code, win), j);
  }

  lemma InfoIsEven(code: Code, win: Window, h: C.Machine)
    requires M.Entered(code, win, h)
    ensures var info := InfoOf(code, win);
            && info.startAddr % 2 == 0 && info.endAddr % 2 == 0 && info.startAddr == win.target
            && info.endAddr == win.target + 2 * WindowHalves(code, win)
  {
    hide EnterWords, Rewritable, WellFormedWindow, WindowHalves, C.CodeAt;
    M.InfoCovers(code, win);
  }

  /** State `e` of the hooked machine is what the original one is after piece j. */
  ghost predicate PieceArrives(sem: C.Sem, inside: C.Sem, code: Code, win: Window, j: nat, c: C.Machine, h: C.Machine,
                               e: C.Machine, hidden: set<int>)
    requires j < |Pieces(code, win)|
  {
    var p, from := Pieces(code, win)[j], C.At(Wrap32(ImageAddr(code, win, j)), h);
    match PieceResult(sem, inside, code, win, p, c)
    case Done(t) => S.Reaches(sem, from, C.At(Wrap32(ImageAddr(code, win, j + 1)), e)) && Agree(t, e, {}, hidden)
    case Left(t, dest) =>
      && dest < 0x1_0000_0000 && S.Reaches(sem, from, C.Gone(FixAddr(dest, InfoOf(code, win)), e))
      && Agree(t, e, if CallsOut(sem, Active(code, p, c), win.target, c) then {C.LR} else {}, hidden)
    case _ => false
  }

  lemma PlainSteps(sem: C.Sem, inside: C.Sem, code: Code, win: Window, j: nat, c: C.Machine, h: C.Machine, hidden: set<int>,
                   writes: seq<set<int>>, own: set<int>)
    returns (e: C.Machine)
    requires Owned(code, win, h, own) && j < |Pieces(code, win)| && Agree(c, h, {}, hidden)
    requires PieceTracks(sem, inside, code, win, j, c, hidden, writes, own) && Pieces(code, win)[j].Plain?
    ensures SameBytesIn(h.rest.mem, e.rest.mem, own)
    ensures PieceArrives(sem, inside, code, win, j, c, h, e,
                         ArmHidden(sem, Active(code, Pieces(code, win)[j], c), win.target, c, hidden, writes))
  {
    hide *;
    var p := PieceIs(code, win, j);
    OwnedTells(code, win, h, own);
    InfoIsEven(code, win, h);
    var parts := [PartOf(p)];
    TracksTell(sem, inside, code, win, j, c, hidden, writes, own);
    ActivePlain(code, p, c);
    ImageIsOwned(code, win, j, h, own);
    PlainIsLaid(code, win, j, h, own);
    var q := ImageAddr(code, win, j);
    assert parts[0..] == parts;
    e := ArmSteps(sem, parts, 0, win.target, InfoOf(code, win), q, c, h, hidden, writes, own);
    ArmEnds(parts, win.target, InfoOf(code, win), q);
    PlainResult(sem, inside, code, win, p, c);
    ArmIsPiece(sem, inside, code, win, j, c, h, e, q, ArmHidden(sem, parts, win.target, c, hidden, writes));
  }

  lemma PieceIs(code: Code, win: Window, j: nat) returns (p: Piece)
    requires j < |Pieces(code, win)|
    ensures p == Pieces(code, win)[j] && p in Pieces(code, win)
  {
    p := Pieces(code, win)[j];
  }

  lemma OwnedTells(code: Code, win: Window, h: C.Machine, own: set<int>)
    requires Owned(code, win, h, own)
    ensures M.Entered(code, win, h) && Rewritable(code, win) && WellFormedWindow(code, win)
  {
    hide EnterWords, Rewritable, WellFormedWindow, WindowHalves, C.CodeAt;
  }

  lemma TracksTell(sem: C.Sem, inside: C.Sem, code: Code, win: Window, j: nat, c: C.Machine, hidden: set<int>,
                   writes: seq<set<int>>, own: set<int>)
    requires j < |Pieces(code, win)| && PieceTracks(sem, inside, code, win, j, c, hidden, writes, own)
    ensures var p := Pieces(code, win)[j];
            && ArmTracks(sem, Active(code, p, c), win.target, InfoOf(code, win), c, hidden, writes, own)
            && (p.Block? ==>
                  && FirstCond(code(p.at)) < 14
                  && KeepsCond(AllParts(code, p.at), FirstCond(code(p.at)), Meant(inside, win.target), Meant(sem, win.target), c))
  {
    hide Pieces, ArmTracks, Active, InfoOf, FirstCond, KeepsCond, AllParts, Meant, Find, InWindow, PieceResult;
  }

  lemma ActivePlain(code: Code, p: Piece, c: C.Machine)
    requires p.Plain?
    ensures Active(code, p, c) == [PartOf(p)]
  {
  }

  lemma PlainIsLaid(code: Code, win: Window, j: nat, h: C.Machine, own: set<int>)
    requires M.Entered(code, win, h) && j < |Pieces(code, win)| && Pieces(code, win)[j].Plain?
    requires 0 <= ImageAddr(code, win, j) < S.CODE_END && Placed(h, ImageAddr(code, win, j), Images(code, win)[j], own)
    ensures var parts, q := [PartOf(Pieces(code, win)[j])], ImageAddr(code, win, j);
            && Laid(parts, win.target, InfoOf(code, win), q, h, own)
            && Concat(PartWords(parts, win.target, InfoOf(code, win))) == Images(code, win)[j]
  {
    hide EnterWords, WellFormedWindow, WindowHalves, C.CodeAt, Pieces, ImageAddr, InfoOf, Rewrite, Rewritable, PcOf;
    var p := Pieces(code, win)[j];
    var parts, info := [PartOf(p)], InfoOf(code, win);
    M.PieceWordsOf(code, win, j);
    var one := PartWords(parts, win.target, info);
    NothingYet(one);
    assert one == [Images(code, win)[j]] && one[..0] == [];
    ConcatSnoc(one, 0);
    assert one[..1] == one;
  }

  lemma PlainResult(sem: C.Sem, inside: C.Sem, code: Code, win: Window, p: Piece, c: C.Machine)
    requires p.Plain?
    ensures PieceResult(sem, inside, code, win, p, c) == RunStraight([PartOf(p)], Meant(sem, win.target), c)
  {
    hide RunStraight, Meant;
  }

  /** An arm that arrived behind the piece. */
  lemma ArmIsPiece(sem: C.Sem, inside: C.Sem, code: Code, win: Window, j: nat, c: C.Machine, h: C.Machine, e: C.Machine, q: int,
                   hidden: set<int>)
    requires j < |Pieces(code, win)|
    requires PieceResult(sem, inside, code, win, Pieces(code, win)[j], c)
             == RunStraight(Active(code, Pieces(code, win)[j], c), Meant(sem, win.target), c)
    requires ArmArrives(sem, Active(code, Pieces(code, win)[j], c), 0, win.target, InfoOf(code, win), q,
                        ImageAddr(code, win, j + 1), c, C.At(Wrap32(ImageAddr(code, win, j)), h), e, hidden)
    ensures PieceArrives(sem, inside, code, win, j, c, h, e, hidden)
  {
    hide Pieces, Active, PieceResult, RunStraight, Meant, InfoOf, ImageAddr, Agree, S.Reaches, FixAddr, BackOf, S.Links, Leaver;
    var parts := Active(code, Pieces(code, win)[j], c);
    assert parts[0..] == parts;
  }

  lemma BlockPieceSteps(sem: C.Sem, inside: C.Sem, code: Code, win: Window, j: nat, c: C.Machine, h: C.Machine,
                        hidden: set<int>, writes: seq<set<int>>, own: set<int>)
    returns (e: C.Machine)
    requires Owned(code, win, h, own) && j < |Pieces(code, win)| && Agree(c, h, {}, hidden)
    requires PieceTracks(sem, inside, code, win, j, c, hidden, writes, own) && Pieces(code, win)[j].Block?
    ensures SameBytesIn(h.rest.mem, e.rest.mem, own)
    ensures PieceArrives(sem, inside, code, win, j, c, h, e,
                         ArmHidden(sem, Active(code, Pieces(code, win)[j], c), win.target, c, hidden, writes))
  {
    hide *;
    var p := PieceIs(code, win, j);
    OwnedTells(code, win, h, own);
    InfoIsEven(code, win, h);
    TracksTell(sem, inside, code, win, j, c, hidden, writes, own);
    ImageIsOwned(code, win, j, h, own);
    var it := BlockIs(code, win, j, c);
    var info, q := InfoOf(code, win), ImageAddr(code, win, j);
    EndOfCode(q);
    MakeReady(it, win.target, info, q, h, own);
    e := BlockSteps(sem, it, win.target, info, q, c, h, hidden, writes, own);
    BlockResult(sem, inside, code, win, p, c);
    ArmIsPiece(sem, inside, code, win, j, c, h, e, ArmStart(it, win.target, info, q, c),
               ArmHidden(sem, Active(code, p, c), win.target, c, hidden, writes));
  }

  lemma MakeReady(it: It, target: Word32, info: Info, p: Word32, h: C.Machine, own: set<int>)
    requires it.firstCond < 14 && it.elseCount <= 3 && |it.parts| <= 4 && info.startAddr % 2 == 0 && info.endAddr % 2 == 0
    requires BlockRewritable(it, target, info) && NoNestedIt(it) && Placed(h, p, BlockWords(it, target, info), own)
    ensures Ready(it, target, info, p, h, own)
  {
    hide BlockRewritable, NoNestedIt, BlockWords, Placed;
  }

  /** The block that was parsed, and the arm that is executed. */
  lemma BlockIs(code: Code, win: Window, j: nat, c: C.Machine) returns (it: It)
    requires Rewritable(code, win) && WellFormedWindow(code, win)
    requires j < |Pieces(code, win)| && Pieces(code, win)[j].Block? && FirstCond(code(Pieces(code, win)[j].at)) < 14
    ensures it.firstCond < 14 && it.elseCount <= 3 && |it.parts| <= 4
    ensures BlockRewritable(it, win.target, InfoOf(code, win)) && NoNestedIt(it)
    ensures Images(code, win)[j] == BlockWords(it, win.target, InfoOf(code, win))
    ensures ArmOf(it, c) == Active(code, Pieces(code, win)[j], c)
  {
    hide BlockWords, InfoOf, PiecesFrom, FirstCond, CondHolds, BlockRewritable, NoNestedIt, AllParts, Only, ItCount;
    var p := Pieces(code, win)[j];
    assert p in Pieces(code, win);
    PiecesAreConsecutive(code, 0, win.backup, j);
    it := p.it;
    ParsedBlock(code, p.at);
    ThenArmIsNotEmpty(code, p.at);
    assert it == ItAt(code, p.at) && it.firstCond == FirstCond(code(p.at));
  }

  lemma BlockResult(sem: C.Sem, inside: C.Sem, code: Code, win: Window, p: Piece, c: C.Machine)
    requires p.Block? && FirstCond(code(p.at)) < 14
    requires KeepsCond(AllParts(code, p.at), FirstCond(code(p.at)), Meant(inside, win.target), Meant(sem, win.target), c)
    ensures PieceResult(sem, inside, code, win, p, c) == RunStraight(Active(code, p, c), Meant(sem, win.target), c)
  {
    hide RunStraight, Meant, KeepsCond, AllParts, FirstCond, Only, CondHolds, RunBlock;
    BlockIsArm(AllParts(code, p.at), FirstCond(code(p.at)), Meant(inside, win.target), Meant(sem, win.target), c);
  }

  /** One piece of the original, one image. */
  lemma PieceSteps(sem: C.Sem, inside: C.Sem, code: Code, win: Window, j: nat, c: C.Machine, h: C.Machine, hidden: set<int>,
                   writes: seq<set<int>>, own: set<int>)
    returns (e: C.Machine)
    requires Owned(code, win, h, own) && j < |Pieces(code, win)| && Agree(c, h, {}, hidden)
    requires PieceTracks(sem, inside, code, win, j, c, hidden, writes, own)
    ensures SameBytesIn(h.rest.mem, e.rest.mem, own)
    ensures PieceArrives(sem, inside, code, win, j, c, h, e,
                         ArmHidden(sem, Active(code, Pieces(code, win)[j], c), win.target, c, hidden, writes))
  {
    hide *;
    if Pieces(code, win)[j].Plain? {
      e := PlainSteps(sem, inside, code, win, j, c, h, hidden, writes, own);
    } else {
      e := BlockPieceSteps(sem, inside, code, win, j, c, h, hidden, writes, own);
    }
  }

  // The way in and the way back.

  lemma DecodeProlog()
    ensures C.Decode32(0xF85D, 0xCC04) == C.LdrBelow(12, 4) && IsThumb32(0xF85D)
  {
    hide C.Decode32, IsThumb32;
    C.Decodes32(0xF85, 0xD, 0xC, 0xC04);
  }

  /** How the hooked machine stands for `c` when it enters: in the middle of a function IP may be lost, but is below SP. */
  ghost predicate Stands(win: Window, c: C.Machine, h: C.Machine) {
    if win.procStart then h == c
    else C.Sp(c) >= 4 && C.WordFrom(c.rest.mem, C.Sp(c) - 4) == c.rest.r[12] && h == C.SetReg(c, 12, h.rest.r[12])
  }

  lemma EnterLayout(code: Code, win: Window)
    ensures var words, n := EnterWords(code, win), |PrologWords(win)| + |Concat(Images(code, win))|;
            && |words| == n + 4 && words[n..n + 4] == JumpTo(Resume(code, win))
            && (!win.procStart ==> words[0] == 0xF85D && words[1] == 0xCC04)
            && ImageAddr(code, win, 0) == win.enter + 2 * |PrologWords(win)|
            && ImageAddr(code, win, |Pieces(code, win)|) == win.enter + 2 * n
  {
    hide Pieces, InfoOf, Resume;
    assert Images(code, win)[..|Pieces(code, win)|] == Images(code, win);
    NothingYet(Images(code, win));
  }

  /** The prolog brings IP back. */
  lemma PrologRuns(sem: C.Sem, code: Code, win: Window, c: C.Machine, h: C.Machine)
    requires M.Entered(code, win, h) && Stands(win, c, h)
    ensures 0 <= ImageAddr(code, win, 0) < S.CODE_END && M.Entered(code, win, c)
    ensures S.Reaches(sem, C.At(win.enter, h), C.At(ImageAddr(code, win, 0), c))
  {
    hide C.CodeAt, S.Reaches, C.Decode32, C.WordFrom, Images, Rewritable, Pieces, EnterWords, WellFormedWindow, WindowHalves,
         IsThumb32, ImageAddr;
    EnterLayout(code, win);
    S.ReachesSelf(sem, C.At(win.enter, h));
    if !win.procStart {
      DecodeProlog();
      S.Executes32(sem, C.At(win.enter, h), win.enter, EnterWords(code, win), 0, h);
      assert C.SetReg(h, 12, c.rest.r[12]).rest.r == c.rest.r;
    }
  }

  /** The last words lead to the instruction behind the window, in Thumb code. */
  lemma ResumeRuns(sem: C.Sem, code: Code, win: Window, s: C.Cpu, c: C.Machine)
    requires M.Entered(code, win, c) && 0 <= ImageAddr(code, win, |Pieces(code, win)|) < S.CODE_END
    requires S.Reaches(sem, s, C.At(ImageAddr(code, win, |Pieces(code, win)|), c))
    ensures S.Reaches(sem, s, C.Gone(Resume(code, win), c))
  {
    hide C.CodeAt, S.Reaches, Images, Pieces, EnterWords, WindowHalves, ImageAddr, JumpTo, Concat;
    EnterLayout(code, win);
    ImagesAreAligned(code, win, |Pieces(code, win)|);
    hide Rewritable, WellFormedWindow;
    var n := |PrologWords(win)| + |Concat(Images(code, win))|;
    S.JumpToRuns(sem, s, win.enter, EnterWords(code, win), n, Resume(code, win), c);
  }

  // Inside the enter the hooked machine goes on where it writes PC, in Thumb code.

  function StepIn(sem: C.Sem, low: int, high: int, s: C.Cpu): C.Cpu {
    match s
    case At(_, _) => C.Step(sem, s)
    case Gone(dest, c) => if low < dest < high && dest % 4 == 1 then C.At(dest - 1, c) else s
  }

  function RunIn(sem: C.Sem, low: int, high: int, s: C.Cpu, n: nat): C.Cpu
    decreases n
  {
    if n == 0 then s else RunIn(sem, low, high, StepIn(sem, low, high, s), n - 1)
  }

  ghost predicate ReachesIn(sem: C.Sem, low: int, high: int, s: C.Cpu, t: C.Cpu) {
    exists n: nat :: RunIn(sem, low, high, s, n) == t
  }

  lemma {:induction false} RunInAppend(sem: C.Sem, low: int, high: int, s: C.Cpu, n: nat, m: nat)
    ensures RunIn(sem, low, high, s, n + m) == RunIn(sem, low, high, RunIn(sem, low, high, s, n), m)
    decreases n
  {
    hide StepIn;
    if n > 0 {
      RunInAppend(sem, low, high, StepIn(sem, low, high, s), n - 1, m);
    }
  }

  lemma GoesOn(sem: C.Sem, low: int, high: int, s: C.Cpu, t: C.Cpu, u: C.Cpu)
    requires ReachesIn(sem, low, high, s, t) && ReachesIn(sem, low, high, t, u)
    ensures ReachesIn(sem, low, high, s, u)
  {
    hide StepIn;
    var n: nat :| RunIn(sem, low, high, s, n) == t;
    var m: nat :| RunIn(sem, low, high, t, m) == u;
    RunInAppend(sem, low, high, s, n, m);
  }

  lemma {:induction false} RunIsIn(sem: C.Sem, low: int, high: int, s: C.Cpu, n: nat)
    ensures ReachesIn(sem, low, high, s, C.Run(sem, s, n))
    decreases n
  {
    hide C.Step;
    var t := C.Run(sem, s, n);
    if n == 0 || s.Gone? {
      StaysGone(sem, s, n);
      assert RunIn(sem, low, high, s, 0) == t;
    } else {
      RunIsIn(sem, low, high, C.Step(sem, s), n - 1);
      assert RunIn(sem, low, high, s, 1) == RunIn(sem, low, high, C.Step(sem, s), 0) == C.Step(sem, s);
      GoesOn(sem, low, high, s, C.Step(sem, s), t);
    }
  }

  lemma {:induction false} StaysGone(sem: C.Sem, s: C.Cpu, n: nat)
    ensures s.Gone? ==> C.Run(sem, s, n) == s
    decreases n
  {
    if n > 0 && s.Gone? {
      StaysGone(sem, s, n - 1);
    }
  }

  lemma ReachesIsIn(sem: C.Sem, low: int, high: int, s: C.Cpu, t: C.Cpu)
    requires S.Reaches(sem, s, t)
    ensures ReachesIn(sem, low, high, s, t)
  {
    hide C.Step;
    var n: nat :| C.Run(sem, s, n) == t;
    RunIsIn(sem, low, high, s, n);
  }

  // Where the hooked machine is when the original one is at a spot.

  function Arrival(code: Code, win: Window, spot: Spot, e: C.Machine): C.Cpu {
    match spot
    case In(j) => if j < |Pieces(code, win)| then C.At(Wrap32(ImageAddr(code, win, j)), e) else C.Gone(0, e)
    case To(dest) => C.Gone(dest, e)
  }

  function EnterEnd(code: Code, win: Window): int {
    win.enter + 2 * |EnterWords(code, win)|
  }

  lemma ImageIsIn(code: Code, win: Window, j: nat, h: C.Machine)
    requires M.Entered(code, win, h) && j < |Pieces(code, win)|
    ensures var p := ImageAddr(code, win, j);
            win.enter <= p && p + 1 < EnterEnd(code, win) && p % 4 == 0 && Wrap32(p) == p && Wrap32(p + 1) == p + 1
  {
    hide Pieces, Images, EnterWords, C.CodeAt, Rewritable, WellFormedWindow, WindowHalves;
    M.ImageIsThere(code, win, j, h);
    ImageFits(code, win, j);
  }

  /** A branch to the start of a piece is fixed up to its image. */
  lemma StartsAreFixed(code: Code, win: Window, j: nat, h: C.Machine)
    requires M.Entered(code, win, h) && j < |Pieces(code, win)|
    ensures 0 <= StartOf(code, win, j) < 0x1_0000_0000
    ensures FixAddr(StartOf(code, win, j), InfoOf(code, win)) == ImageAddr(code, win, j) + 1
  {
    hide Pieces, EnterWords, C.CodeAt, Rewritable, WellFormedWindow, FixAddr, ImageAddr, InfoOf;
    FixUpLands(code, win, j);
  }

  lemma BackIn(sem: C.Sem, code: Code, win: Window, s: C.Cpu, j: nat, e: C.Machine)
    requires M.Entered(code, win, e) && j < |Pieces(code, win)|
    requires ImageAddr(code, win, j) + 1 == Wrap32(ImageAddr(code, win, j) + 1)
    requires S.Reaches(sem, s, C.Gone(Wrap32(ImageAddr(code, win, j) + 1), e))
    ensures ReachesIn(sem, win.enter, EnterEnd(code, win), s, C.At(Wrap32(ImageAddr(code, win, j)), e))
  {
    hide ImageAddr, Pieces, EnterWords, EnterEnd, M.Entered, C.Step, S.Reaches;
    ImageIsIn(code, win, j, e);
    var low, high := win.enter, EnterEnd(code, win);
    var t, u := C.Gone(Wrap32(ImageAddr(code, win, j) + 1), e), C.At(Wrap32(ImageAddr(code, win, j)), e);
    assert RunIn(sem, low, high, t, 1) == RunIn(sem, low, high, u, 0) == u;
    ReachesIsIn(sem, low, high, s, t);
    GoesOn(sem, low, high, s, t, u);
  }

  /** What a branch out of a piece leads to. */
  lemma LeftArrives(sem: C.Sem, code: Code, win: Window, s: C.Cpu, e: C.Machine, dest: Word32)
    requires M.Entered(code, win, e) && (InWindow(code, win, dest) ==> Find(code, win, dest, 0).In?)
    requires S.Reaches(sem, s, C.Gone(FixAddr(dest, InfoOf(code, win)), e))
    ensures ReachesIn(sem, win.enter, EnterEnd(code, win), s, Arrival(code, win, Find(code, win, dest, 0), e))
  {
    hide ImageAddr, Pieces, EnterWords, EnterEnd, M.Entered, S.Reaches, FixAddr, InfoOf, ReachesIn, WindowHalves;
    InfoIsEven(code, win, e);
    var spot := Find(code, win, dest, 0);
    match spot
    case In(j) =>
      StartsAreFixed(code, win, j, e);
      ImageIsIn(code, win, j, e);
      BackIn(sem, code, win, s, j, e);
    case To(_) =>
      OutsideStays(dest, InfoOf(code, win));
      ReachesIsIn(sem, win.enter, EnterEnd(code, win), s, C.Gone(dest, e));
  }

  /** What falls through piece j goes on at the next one, or behind the window. */
  lemma DoneArrives(sem: C.Sem, code: Code, win: Window, s: C.Cpu, j: nat, e: C.Machine)
    requires M.Entered(code, win, e) && j < |Pieces(code, win)|
    requires S.Reaches(sem, s, C.At(Wrap32(ImageAddr(code, win, j + 1)), e))
    ensures ReachesIn(sem, win.enter, EnterEnd(code, win), s, Arrival(code, win, Behind(code, win, j + 1), e))
  {
    hide ImageAddr, Pieces, EnterWords, EnterEnd, M.Entered, S.Reaches, ReachesIn, WindowHalves, Resume;
    var low, high := win.enter, EnterEnd(code, win);
    if j + 1 < |Pieces(code, win)| {
      ReachesIsIn(sem, low, high, s, C.At(Wrap32(ImageAddr(code, win, j + 1)), e));
    } else {
      M.ImageIsThere(code, win, j, e);
      EndOfCode(ImageAddr(code, win, j + 1));
      ResumeRuns(sem, code, win, s, e);
      ReachesIsIn(sem, low, high, s, C.Gone(Resume(code, win), e));
    }
  }

  /** One piece, and on to where the original one is. */
  lemma OneStepRuns(sem: C.Sem, inside: C.Sem, code: Code, win: Window, s: State, h: C.Machine, hidden: set<int>,
                    writes: seq<set<int>>, own: set<int>)
    returns (e: C.Machine)
    requires Owned(code, win, h, own) && s.spot.In? && s.spot.piece < |Pieces(code, win)| && Agree(s.core, h, {}, hidden)
    requires PieceTracks(sem, inside, code, win, s.spot.piece, s.core, hidden, writes, own)
    ensures SameBytesIn(h.rest.mem, e.rest.mem, own)
    ensures var t := StepAt(sem, inside, code, win, s);
            && ReachesIn(sem, win.enter, EnterEnd(code, win), Arrival(code, win, s.spot, h), Arrival(code, win, t.spot, e))
            && Agree(t.core, e, if Calls(sem, code, win, s) then {C.LR} else {},
                     ArmHidden(sem, Active(code, Pieces(code, win)[s.spot.piece], s.core), win.target, s.core, hidden, writes))
  {
    hide *;
    e := PieceSteps(sem, inside, code, win, s.spot.piece, s.core, h, hidden, writes, own);
    OwnedKept(code, win, h, e, own);
    OwnedTells(code, win, e, own);
    StepArrives(sem, inside, code, win, s, h, e, hidden, writes, own,
                ArmHidden(sem, Active(code, Pieces(code, win)[s.spot.piece], s.core), win.target, s.core, hidden, writes));
  }

  lemma StepArrives(sem: C.Sem, inside: C.Sem, code: Code, win: Window, s: State, h: C.Machine, e: C.Machine, hidden: set<int>,
                    writes: seq<set<int>>, own: set<int>, after: set<int>)
    requires M.Entered(code, win, e) && s.spot.In? && s.spot.piece < |Pieces(code, win)|
    requires PieceTracks(sem, inside, code, win, s.spot.piece, s.core, hidden, writes, own)
    requires PieceArrives(sem, inside, code, win, s.spot.piece, s.core, h, e, after)
    ensures var t := StepAt(sem, inside, code, win, s);
            && ReachesIn(sem, win.enter, EnterEnd(code, win), Arrival(code, win, s.spot, h), Arrival(code, win, t.spot, e))
            && Agree(t.core, e, if Calls(sem, code, win, s) then {C.LR} else {}, after)
  {
    hide ImageAddr, Pieces, EnterWords, EnterEnd, M.Entered, S.Reaches, ReachesIn, Agree, PieceResult, Find, InWindow, FixAddr,
         InfoOf, Active, CallsOut, Behind, ArmTracks, KeepsCond, FirstCond, AllParts, Meant;
    var j := s.spot.piece;
    var from := C.At(Wrap32(ImageAddr(code, win, j)), h);
    match PieceResult(sem, inside, code, win, Pieces(code, win)[j], s.core)
    case Done(t) =>
      DoneArrives(sem, code, win, from, j, e);
      AgreeLess(t, e, Calls(sem, code, win, s), after);
    case Left(t, dest) =>
      assert Wrap32(dest) == dest;
      LeftArrives(sem, code, win, from, e, dest);
    case _ =>
  }

  lemma AgreeLess(t: C.Machine, e: C.Machine, calls: bool, hidden: set<int>)
    requires Agree(t, e, {}, hidden)
    ensures Agree(t, e, if calls then {C.LR} else {}, hidden)
  {
  }

  /** Forward simulation: as many original pieces as `writes` has elements, from any piece of the window, are as many images,
      and the hooked machine arrives where the original one does. */
  lemma {:induction false} WindowRuns(sem: C.Sem, inside: C.Sem, code: Code, win: Window, s: State, h: C.Machine,
                                      hidden: set<int>, writes: seq<seq<set<int>>>, own: set<int>)
    returns (e: C.Machine)
    requires writes != [] && Owned(code, win, h, own) && Agree(s.core, h, {}, hidden)
    requires Tracks(sem, inside, code, win, s, hidden, writes, own)
    ensures var t := Original(sem, inside, code, win, s, |writes|);
            && ReachesIn(sem, win.enter, EnterEnd(code, win), Arrival(code, win, s.spot, h), Arrival(code, win, t.spot, e))
            && Agree(t.core, e,
                     if Calls(sem, code, win, Original(sem, inside, code, win, s, |writes| - 1)) then {C.LR} else {},
                     HiddenAtEnd(sem, inside, code, win, s, hidden, writes))
            && SameBytesIn(h.rest.mem, e.rest.mem, own)
    decreases |writes|
  {
    hide PieceTracks, Agree, ReachesIn, Arrival, StepAt, Calls, Owned, ArmHidden, SameBytesIn, EnterEnd, Pieces, Active;
    e := OneStepRuns(sem, inside, code, win, s, h, hidden, writes[0], own);
    var after := ArmHidden(sem, Active(code, Pieces(code, win)[s.spot.piece], s.core), win.target, s.core, hidden, writes[0]);
    var s1 := StepAt(sem, inside, code, win, s);
    if |writes| > 1 {
      OwnedKept(code, win, h, e, own);
      var e1 := e;
      e := WindowRuns(sem, inside, code, win, s1, e1, after, writes[1..], own);
      BytesStay(h.rest.mem, e1.rest.mem, e.rest.mem, own);
      GoesOn(sem, win.enter, EnterEnd(code, win), Arrival(code, win, s.spot, h), Arrival(code, win, s1.spot, e1),
             Arrival(code, win, Original(sem, inside, code, win, s, |writes|).spot, e));
    }
  }

  /** The same from the enter: `h1` is the hooked machine once IP is back. */
  lemma EnteredWindowRuns(sem: C.Sem, inside: C.Sem, code: Code, win: Window, s: State, h: C.Machine, h1: C.Machine,
                          hidden: set<int>, writes: seq<seq<set<int>>>, own: set<int>)
    returns (e: C.Machine)
    requires s.spot == In(0) && writes != [] && Tracks(sem, inside, code, win, s, hidden, writes, own)
    requires Owned(code, win, h, own) && Stands(win, h1, h) && Agree(s.core, h1, {}, hidden)
    ensures var t := Original(sem, inside, code, win, s, |writes|);
            && ReachesIn(sem, win.enter, EnterEnd(code, win), C.At(win.enter, h), Arrival(code, win, t.spot, e))
            && Agree(t.core, e,
                     if Calls(sem, code, win, Original(sem, inside, code, win, s, |writes| - 1)) then {C.LR} else {},
                     HiddenAtEnd(sem, inside, code, win, s, hidden, writes))
  {
    hide *;
    OwnedTells(code, win, h, own);
    PrologRuns(sem, code, win, h1, h);
    OwnedToo(code, win, h, h1, own);
    e := WindowRuns(sem, inside, code, win, s, h1, hidden, writes, own);
    TracksFirst(sem, inside, code, win, s, hidden, writes, own);
    StartArrival(code, win, s, h1);
    ReachesIsIn(sem, win.enter, EnterEnd(code, win), C.At(win.enter, h), C.At(ImageAddr(code, win, 0), h1));
    GoesOn(sem, win.enter, EnterEnd(code, win), C.At(win.enter, h), C.At(ImageAddr(code, win, 0), h1),
           Arrival(code, win, Original(sem, inside, code, win, s, |writes|).spot, e));
  }

  lemma OwnedToo(code: Code, win: Window, h: C.Machine, h1: C.Machine, own: set<int>)
    requires Owned(code, win, h, own) && M.Entered(code, win, h1)
    ensures Owned(code, win, h1, own)
  {
    hide M.Entered, EnterWords;
  }

  lemma TracksFirst(sem: C.Sem, inside: C.Sem, code: Code, win: Window, s: State, hidden: set<int>,
                    writes: seq<seq<set<int>>>, own: set<int>)
    requires s.spot == In(0) && writes != [] && Tracks(sem, inside, code, win, s, hidden, writes, own)
    ensures 0 < |Pieces(code, win)|
  {
    hide PieceTracks, StepAt, Pieces, Active, ArmHidden, Calls;
  }

  lemma StartArrival(code: Code, win: Window, s: State, h: C.Machine)
    requires M.Entered(code, win, h) && s.spot == In(0) && 0 < |Pieces(code, win)|
    ensures 0 <= ImageAddr(code, win, 0) < S.CODE_END && Arrival(code, win, s.spot, h) == C.At(ImageAddr(code, win, 0), h)
  {
    hide Pieces, M.Entered, ImageAddr;
    M.ImageIsThere(code, win, 0, h);
  }
}
