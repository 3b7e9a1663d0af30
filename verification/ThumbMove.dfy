/** A moved window of Thumb instructions at work: layout, fix-up and the meaning of the images put together. */
module ThumbMove {
  import opened Words
  import opened Layout
  import opened ThumbRewrite
  import opened ThumbArms
  import opened ThumbIt
  import opened ThumbWindow
  import C = ThumbCpu
  import S = ThumbSim

  /** The window was rewritten into the enter, which is in memory and wraps nowhere. */
  ghost predicate Entered(code: Code, win: Window, c: C.Machine) {
    && Rewritable(code, win) && WellFormedWindow(code, win)
    && win.target % 2 == 0 && win.target + 2 * WindowHalves(code, win) < 0x1_0000_0000
    && win.enter % 4 == 0 && win.enter + 2 * |EnterWords(code, win)| < S.CODE_END
    && C.CodeAt(c.rest.mem, win.enter, EnterWords(code, win))
  }

  /** The image of piece j is in memory where the fix-up expects it, and the next image follows. */
  lemma ImageIsThere(code: Code, win: Window, j: nat, c: C.Machine)
    requires Entered(code, win, c) && j < |Pieces(code, win)|
    ensures var p, words := ImageAddr(code, win, j), Images(code, win)[j];
            && win.enter <= p && p + 2 * |words| == ImageAddr(code, win, j + 1) < S.CODE_END && p % 4 == 0
            && C.CodeAt(c.rest.mem, p, words)
  {
    hide Images, Pieces, PrologWords, Rewritable, WellFormedWindow, C.HalfAt, Concat, JumpTo;
    var words := Images(code, win)[j];
    var at := |PrologWords(win)| + |Concat(Images(code, win)[..j])|;
    PartAt(Images(code, win), j);
    ImagesAreAligned(code, win, j);
    var enter := EnterWords(code, win);
    assert Concat(Images(code, win))[at - |PrologWords(win)|..at - |PrologWords(win)| + |words|] == words;
    assert enter[at..at + |words|] == words;
    forall i | 0 <= i < |words| ensures C.HalfAt(c.rest.mem, win.enter + 2 * at + 2 * i) == words[i] {
      assert win.enter + 2 * at + 2 * i == win.enter + 2 * (at + i) && enter[at..at + |words|][i] == enter[at + i];
    }
  }

  lemma PieceWordsOf(code: Code, win: Window, j: nat)
    requires Rewritable(code, win) && j < |Pieces(code, win)| && Pieces(code, win)[j].Plain?
    ensures var p := Pieces(code, win)[j];
            && Images(code, win)[j] == Rewrite(p.instr, PcOf(win.target, p.at), InfoOf(code, win)) != []
  {
    hide Pieces, InfoOf, Rewrite;
    assert Pieces(code, win)[j] in Pieces(code, win);
  }

  // Where the pieces start, and where their images do.

  function Starts(code: Code, win: Window): seq<int> {
    var pieces := Pieces(code, win);
    seq(|pieces|, (k: nat) requires k < |pieces| => win.target + 2 * pieces[k].at)
  }

  function ImageAddrs(code: Code, win: Window): (addrs: seq<int>)
    ensures |addrs| == |Starts(code, win)|
  {
    seq(|Pieces(code, win)|, (k: nat) requires k < |Pieces(code, win)| => ImageAddr(code, win, k))
  }

  /** From the image at `p`, what falls through goes on at `next`, a branch to a start arrives at the image of that
      start, a branch out of [low, high) and a computed destination arrive where they want to, and the state is as if the
      instruction had run at its own address. */
  ghost predicate Moves(sem: C.Sem, i: Instr, pc: Word32, p: int, next: int, c: C.Machine, e: C.Machine, starts: seq<int>,
                        images: seq<int>, low: int, high: int)
    requires |starts| == |images|
  {
    && C.Known(i) && 0 <= p < S.CODE_END && p <= next < S.CODE_END
    && match C.Exec(sem, i, pc, c)
       case Next(t) => S.Reaches(sem, C.At(p, c), C.At(next, e)) && S.Leaves(i, e, t, C.Sp(c))
       case Taken(t, dest) =>
         && S.Leaves(i, e, if S.Links(i) then C.SetReg(t, C.LR, S.ReturnTo(i, p, next - p)) else t, C.Sp(c))
         && dest < 0x1_0000_0000
         && (if S.Computes(i) || !(low <= dest < high) then S.Reaches(sem, C.At(p, c), C.Gone(dest, e))
             else forall k | 0 <= k < |starts| && dest == starts[k] + 1 && 0 <= images[k] < S.CODE_END ::
                    S.Reaches(sem, C.At(p, c), C.Gone(images[k] + 1, e)))
  }

  /** The fix-up sends every start, as a Thumb address, to its image. */
  ghost predicate Fixes(info: Info, starts: seq<int>, images: seq<int>) {
    && |starts| == |images| && info.startAddr % 2 == 0 && info.endAddr % 2 == 0
    && forall k | 0 <= k < |starts| && 0 <= starts[k] + 1 < 0x1_0000_0000 :: FixAddr(starts[k] + 1, info) == images[k] + 1
  }

  lemma OutsideStays(dest: Word32, info: Info)
    requires info.startAddr % 2 == 0 && info.endAddr % 2 == 0 && !(info.startAddr <= dest < info.endAddr)
    ensures FixAddr(dest, info) == dest
  {
  }

  lemma EndsMoves(sem: C.Sem, i: Instr, pc: Word32, info: Info, p: Word32, len: nat, c: C.Machine, e: C.Machine,
                  starts: seq<int>, images: seq<int>)
    requires C.Known(i) && p + len < S.CODE_END && S.Ends(sem, i, pc, info, p, len, c, e) && Fixes(info, starts, images)
    ensures Moves(sem, i, pc, p, p + len, c, e, starts, images, info.startAddr, info.endAddr)
  {
    hide C.Exec, C.Known, S.Leaves, S.Reaches, S.Links, S.Computes, FixAddr, S.ReturnTo;
    match C.Exec(sem, i, pc, c)
    case Next(_) =>
    case Taken(_, dest) =>
      if !(info.startAddr <= dest < info.endAddr) {
        OutsideStays(dest, info);
      }
  }

  /** An instruction outside IT blocks does, in the moved window, what it did at its own address. */
  lemma PieceMeans(sem: C.Sem, code: Code, win: Window, j: nat, c: C.Machine) returns (e: C.Machine)
    requires Entered(code, win, c) && j < |Pieces(code, win)| && Pieces(code, win)[j].Plain?
    requires var i, pc := Pieces(code, win)[j].instr, PcOf(win.target, Pieces(code, win)[j].at);
             var p, len := ImageAddr(code, win, j), 2 * |Images(code, win)[j]|;
             C.Known(i) && !S.IsMovPc(i) && S.StackReady(i, pc, p, len, C.Sp(c)) && S.SparesImage(sem, i, pc, p, len, c)
    ensures Moves(sem, Pieces(code, win)[j].instr, PcOf(win.target, Pieces(code, win)[j].at),
                  ImageAddr(code, win, j), ImageAddr(code, win, j + 1), c, e,
                  Starts(code, win), ImageAddrs(code, win), win.target, win.target + 2 * WindowHalves(code, win))
  {
    hide Rewrite, C.Exec, C.Known, S.IsMovPc, S.StackReady, S.SparesImage, S.Leaves, S.Reaches, S.Links, S.Computes, Moves,
         C.CodeAt, FixAddr, Pieces, ImageAddr, Images, PcOf, Rewritable, WellFormedWindow, WindowHalves, EnterWords, InfoOf,
         Fixes, S.ReturnTo;
    var piece := Pieces(code, win)[j];
    var pc, info, p := PcOf(win.target, piece.at), InfoOf(code, win), ImageAddr(code, win, j);
    ImageIsThere(code, win, j, c);
    PieceWordsOf(code, win, j);
    e := S.ImageMeans(sem, piece.instr, pc, info, p, c);
    StartsAreFixed(code, win, c);
    InfoCovers(code, win);
    EndsMoves(sem, piece.instr, pc, info, p, 2 * |Images(code, win)[j]|, c, e, Starts(code, win), ImageAddrs(code, win));
  }

  lemma StartsAreFixed(code: Code, win: Window, c: C.Machine)
    requires Entered(code, win, c)
    ensures Fixes(InfoOf(code, win), Starts(code, win), ImageAddrs(code, win))
  {
    hide FixAddr, Pieces, ImageAddr, Rewritable, WellFormedWindow, EnterWords, C.CodeAt, Concat, Tables;
    forall k | 0 <= k < |Pieces(code, win)|
      ensures win.target + 2 * Pieces(code, win)[k].at + 1 < 0x1_0000_0000
      ensures FixAddr(win.target + 2 * Pieces(code, win)[k].at + 1, InfoOf(code, win)) == ImageAddr(code, win, k) + 1
    {
      FixUpLands(code, win, k);
    }
  }

  lemma InfoCovers(code: Code, win: Window)
    ensures var info := InfoOf(code, win);
            info.startAddr == win.target && info.endAddr == win.target + 2 * WindowHalves(code, win)
  {
  }
}
