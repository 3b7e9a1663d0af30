/** Moving a window of Thumb instructions (arch/arm/sh_inst.c): the pass that fills the length table and the pass that
    emits code walk the same instructions, so a branch into the window lands on the image of its target. */
module ThumbWindow {
  import opened Words
  import opened Layout
  import opened ThumbRewrite
  import opened ThumbIt

  // A piece of the window: a plain instruction or a whole IT block, and the halfword it starts at.
  datatype Piece = Plain(at: nat, instr: Instr) | Block(at: nat, it: It)

  function PieceAt(code: Code, k: nat): Piece {
    if IsIt(T16(code(k))) then Block(k, ItAt(code, k)) else Plain(k, InstrAt(code, k))
  }

  function PieceHalves(p: Piece): (n: nat)
    ensures n > 0
  {
    match p
    case Plain(_, instr) => Size(instr)
    case Block(_, it) => 1 + PartHalves(it.parts)
  }

  /** The pieces from halfword k on that start in the first `backup` halfwords. */
  function PiecesFrom(code: Code, k: nat, backup: nat): seq<Piece>
    decreases backup - k
  {
    if k >= backup then []
    else
      var p := PieceAt(code, k);
      [p] + PiecesFrom(code, k + PieceHalves(p), backup)
  }

  // The length table.

  function PieceLen(p: Piece): nat {
    match p
    case Plain(_, instr) => TableLen(instr)
    case Block(_, it) => 8 + Sum(PartLens(it.parts))
  }

  function Zeros(n: nat): seq<nat> {
    seq(n, _ => 0)
  }

  /** One entry for each halfword: the length for the first, zero for the others. */
  function PieceTable(p: Piece): (table: seq<nat>)
    ensures |table| == PieceHalves(p)
  {
    [PieceLen(p)] + Zeros(PieceHalves(p) - 1)
  }

  function Tables(pieces: seq<Piece>): (tables: seq<seq<nat>>)
    ensures |tables| == |pieces|
  {
    seq(|pieces|, (j: nat) requires j < |pieces| => PieceTable(pieces[j]))
  }

  function PieceLens(pieces: seq<Piece>): (lens: seq<nat>)
    ensures |lens| == |pieces|
  {
    seq(|pieces|, (j: nat) requires j < |pieces| => PieceLen(pieces[j]))
  }

  // The code.

  function PieceWords(p: Piece, target: Word32, info: Info): seq<Half> {
    match p
    case Plain(at, instr) => Rewrite(instr, PcOf(target, at), info)
    case Block(_, it) => BlockWords(it, target, info)
  }

  predicate PieceRewritable(p: Piece, target: Word32, info: Info) {
    match p
    case Plain(_, _) => PieceWords(p, target, info) != []
    case Block(_, it) => BlockRewritable(it, target, info)
  }

  function PiecesWords(pieces: seq<Piece>, target: Word32, info: Info): (words: seq<seq<Half>>)
    ensures |words| == |pieces|
  {
    seq(|pieces|, (j: nat) requires j < |pieces| => PieceWords(pieces[j], target, info))
  }

  /** `backup` is in halfwords: 2, 4 or 5. */
  datatype Window = Window(target: Word32, enter: Word32, procStart: bool, backup: nat)

  /** LDR IP, [SP, #-4] */
  function PrologWords(win: Window): seq<Half> {
    if win.procStart then [] else [0xF85D, 0xCC04]
  }

  function Pieces(code: Code, win: Window): seq<Piece> {
    PiecesFrom(code, 0, win.backup)
  }

  /** How many halfwords are rewritten: whole pieces, so possibly more than are overwritten. */
  function WindowHalves(code: Code, win: Window): nat {
    |Concat(Tables(Pieces(code, win)))|
  }

  function InfoOf(code: Code, win: Window): Info {
    var lens := Concat(Tables(Pieces(code, win)));
    Info(win.target, win.target + 2 * |lens|, win.enter, 2 * |PrologWords(win)|, lens)
  }

  function Images(code: Code, win: Window): (images: seq<seq<Half>>)
    ensures |images| == |Pieces(code, win)|
  {
    PiecesWords(Pieces(code, win), win.target, InfoOf(code, win))
  }

  predicate Rewritable(code: Code, win: Window) {
    forall p | p in Pieces(code, win) :: PieceRewritable(p, win.target, InfoOf(code, win))
  }

  function Resume(code: Code, win: Window): Word32 {
    SetBit0(Wrap32(win.target + 2 * WindowHalves(code, win)))
  }

  function EnterWords(code: Code, win: Window): seq<Half> {
    PrologWords(win) + Concat(Images(code, win)) + JumpTo(Resume(code, win))
  }

  /** What the architecture asks of code: an IT instruction is not in a block, and starts one. */
  predicate WellFormed(p: Piece) {
    match p
    case Plain(_, instr) => !IsIt(instr)
    case Block(_, it) => NoNestedIt(it)
  }

  predicate WellFormedWindow(code: Code, win: Window) {
    forall p | p in Pieces(code, win) :: WellFormed(p)
  }

  function ImageAddr(code: Code, win: Window, j: nat): int
    requires j <= |Pieces(code, win)|
  {
    win.enter + 2 * |PrologWords(win) + Concat(Images(code, win)[..j])|
  }

  // Both passes walk the same pieces.

  lemma {:induction false} PiecesAreConsecutive(code: Code, k: nat, backup: nat, j: nat)
    requires j < |PiecesFrom(code, k, backup)|
    ensures var ps := PiecesFrom(code, k, backup);
            && ps[j].at == (if j == 0 then k else ps[j - 1].at + PieceHalves(ps[j - 1]))
            && ps[j] == PieceAt(code, ps[j].at)
            && k <= ps[j].at < backup
    decreases j
  {
    hide PieceHalves, IsIt, ItAt, InstrAt;
    if j > 0 {
      var p := PieceAt(code, k);
      PiecesAreConsecutive(code, k + PieceHalves(p), backup, j - 1);
    }
  }

  lemma {:induction false} TablesCoverPieces(code: Code, k: nat, backup: nat, j: nat)
    requires j <= |PiecesFrom(code, k, backup)|
    ensures var ps := PiecesFrom(code, k, backup);
            k + |Concat(Tables(ps)[..j])| == if j == 0 then k else ps[j - 1].at + PieceHalves(ps[j - 1])
  {
    hide PieceTable, PieceHalves, PiecesFrom;
    if j > 0 {
      TablesCoverPieces(code, k, backup, j - 1);
      PiecesAreConsecutive(code, k, backup, j - 1);
      ConcatSnoc(Tables(PiecesFrom(code, k, backup)), j - 1);
    }
  }

  /** Table entries before piece j are as many as halfwords before it. */
  lemma TableReaches(code: Code, win: Window, j: nat)
    requires j < |Pieces(code, win)|
    ensures |Concat(Tables(Pieces(code, win))[..j])| == Pieces(code, win)[j].at
  {
    hide PieceTable, PieceHalves, PiecesFrom;
    TablesCoverPieces(code, 0, win.backup, j);
    PiecesAreConsecutive(code, 0, win.backup, j);
  }

  lemma PieceTableSum(p: Piece)
    ensures Sum(PieceTable(p)) == PieceLen(p)
  {
    hide PieceLen, PieceHalves;
    ZerosSum(PieceHalves(p) - 1);
    SumAppend([PieceLen(p)], Zeros(PieceHalves(p) - 1));
  }

  lemma {:induction false} ZerosSum(n: nat)
    ensures Sum(Zeros(n)) == 0
  {
    if n > 0 {
      ZerosSum(n - 1);
      assert Zeros(n)[..n - 1] == Zeros(n - 1);
    }
  }

  lemma PieceLength(p: Piece, target: Word32, info: Info)
    requires PieceRewritable(p, target, info) && WellFormed(p)
    ensures 2 * |PieceWords(p, target, info)| == PieceLen(p)
  {
    hide Rewrite, TableLen, BlockWords, IsIt;
    match p
    case Plain(at, instr) => EmittedLenIsTableLen(instr, PcOf(target, at), info);
    case Block(_, it) => BlockLength(it, target, info);
  }

  /** The sum that the fix-up takes over the table is the number of bytes emitted for the same pieces. */
  lemma TableSumIsEmittedLen(code: Code, win: Window, j: nat)
    requires Rewritable(code, win) && WellFormedWindow(code, win) && j <= |Pieces(code, win)|
    ensures Sum(Concat(Tables(Pieces(code, win))[..j])) == 2 * |Concat(Images(code, win)[..j])|
  {
    hide PieceWords, PieceLen, PieceTable, PiecesFrom, WellFormed, Concat, Sum;
    var ps, info := Pieces(code, win), InfoOf(code, win);
    var images, tables, lens := Images(code, win), Tables(ps), PieceLens(ps);
    forall i | 0 <= i < |ps| ensures 2 * |images[i]| == lens[i] && Sum(tables[i]) == lens[i] {
      assert ps[i] in ps;
      PieceLength(ps[i], win.target, info);
      PieceTableSum(ps[i]);
    }
    SumConcat(tables[..j], lens[..j]);
    ConcatLength(images[..j], lens[..j], 2);
  }

  /** Fix-up agrees with the layout: the address of any piece, with or without the Thumb bit, becomes the address its
      image is written at. */
  lemma FixUpLands(code: Code, win: Window, j: nat)
    requires Rewritable(code, win) && WellFormedWindow(code, win) && j < |Pieces(code, win)|
    requires win.target % 2 == 0 && win.target + 2 * WindowHalves(code, win) <= 0x1_0000_0000
    requires win.enter % 4 == 0 && win.enter + 2 * |EnterWords(code, win)| <= 0x1_0000_0000
    ensures Pieces(code, win)[j].at < WindowHalves(code, win)
    ensures FixAddr(win.target + 2 * Pieces(code, win)[j].at, InfoOf(code, win)) == ImageAddr(code, win, j)
    ensures FixAddr(win.target + 2 * Pieces(code, win)[j].at + 1, InfoOf(code, win)) == ImageAddr(code, win, j) + 1
    ensures ImageAddr(code, win, j) % 4 == 0
  {
    hide *;
    TableUpTo(code, win, j);
    ImageFits(code, win, j);
    TableSumIsEmittedLen(code, win, j);
    ImagesAreAligned(code, win, j);
    FixAddrInside(InfoOf(code, win), Pieces(code, win)[j].at, ImageAddr(code, win, j));
  }

  lemma TableUpTo(code: Code, win: Window, j: nat)
    requires j < |Pieces(code, win)|
    ensures var at := Pieces(code, win)[j].at;
            && at < WindowHalves(code, win)
            && InfoOf(code, win).startAddr == win.target
            && InfoOf(code, win).endAddr == win.target + 2 * WindowHalves(code, win)
            && |InfoOf(code, win).instLens| == WindowHalves(code, win)
            && InfoOf(code, win).instLens[..at] == Concat(Tables(Pieces(code, win))[..j])
  {
    hide PieceTable, PieceHalves, PiecesFrom, Concat;
    var tables := Tables(Pieces(code, win));
    TableReaches(code, win, j);
    PartAt(tables, j);
    ConcatTake(tables, j);
  }

  lemma ImageFits(code: Code, win: Window, j: nat)
    requires j <= |Pieces(code, win)|
    ensures var info := InfoOf(code, win);
            && info.buf == win.enter
            && ImageAddr(code, win, j) == info.buf + info.prologLen + 2 * |Concat(Images(code, win)[..j])|
    ensures ImageAddr(code, win, j) + 8 <= win.enter + 2 * |EnterWords(code, win)|
  {
    hide Images, Pieces, Concat;
    ConcatTake(Images(code, win), j);
  }

  lemma FixAddrInside(info: Info, at: nat, base: int)
    requires info.startAddr % 2 == 0 && info.endAddr == info.startAddr + 2 * |info.instLens| <= 0x1_0000_0000
    requires at < |info.instLens|
    requires base == info.buf + info.prologLen + Sum(info.instLens[..at]) < 0x1_0000_0000 && base % 4 == 0
    ensures FixAddr(info.startAddr + 2 * at, info) == base
    ensures FixAddr(info.startAddr + 2 * at + 1, info) == base + 1
  {
    hide Sum;
    var even: Word32 := info.startAddr + 2 * at;
    EvenAddr(info.startAddr / 2 + at, even);
    EvenAddr(2 * (base / 4), base);
    EvenAddr(at, 2 * at);
    assert HalvesBelow(even, info) == at;
  }

  lemma EvenAddr(half: nat, even: int)
    requires even == 2 * half
    ensures even / 2 * 2 == even && (even + 1) / 2 * 2 == even && even % 2 == 0 && (even + 1) % 2 == 1
    ensures (even + 1) / 2 == half
  {
  }

  lemma PieceLenIsAligned(p: Piece)
    ensures PieceLen(p) % 4 == 0
  {
    hide TableLen;
    match p
    case Plain(_, instr) => TableLenIsAligned(instr);
    case Block(_, it) =>
      forall i | 0 <= i < |it.parts| ensures PartLens(it.parts)[i] % 4 == 0 {
        TableLenIsAligned(it.parts[i].instr);
      }
      SumIsAligned(PartLens(it.parts));
  }

  lemma {:induction false} SumIsAligned(lens: seq<nat>)
    requires forall i | 0 <= i < |lens| :: lens[i] % 4 == 0
    ensures Sum(lens) % 4 == 0
  {
    if lens != [] {
      SumIsAligned(lens[..|lens| - 1]);
    }
  }

  /** Every image starts at a multiple of four, where a load relative to PC reads the word behind it. */
  lemma ImagesAreAligned(code: Code, win: Window, j: nat)
    requires Rewritable(code, win) && WellFormedWindow(code, win) && j <= |Pieces(code, win)|
    ensures 2 * |Concat(Images(code, win)[..j])| % 4 == 0
    ensures win.enter % 4 == 0 ==> ImageAddr(code, win, j) % 4 == 0
  {
    hide PieceWords, PieceLen, PiecesFrom, WellFormed, Concat, Sum;
    var ps := Pieces(code, win);
    forall i | 0 <= i < j ensures 2 * |Images(code, win)[i]| == PieceLens(ps)[i] && PieceLens(ps)[i] % 4 == 0 {
      assert ps[i] in ps;
      PieceLength(ps[i], win.target, InfoOf(code, win));
      PieceLenIsAligned(ps[i]);
    }
    ConcatLength(Images(code, win)[..j], PieceLens(ps)[..j], 2);
    SumIsAligned(PieceLens(ps)[..j]);
  }

  lemma {:induction false} PartHalvesBound(parts: seq<Part>)
    ensures PartHalves(parts) <= 2 * |parts|
  {
    if parts != [] {
      PartHalvesBound(parts[..|parts| - 1]);
    }
  }

  /** The table has an entry for every halfword that is rewritten, and 13 entries are enough. */
  lemma TableFits(code: Code, win: Window)
    requires 0 < win.backup <= 5
    ensures win.backup <= WindowHalves(code, win) <= win.backup + 8 <= 13
  {
    hide PieceTable, PiecesFrom, Concat, IsIt, IsThumb32;
    var ps := Pieces(code, win);
    WalkStops(code, 0, win.backup);
    var last := |ps| - 1;
    PiecesAreConsecutive(code, 0, win.backup, last);
    TablesCoverPieces(code, 0, win.backup, |ps|);
    assert Tables(ps)[..|ps|] == Tables(ps);
    if ps[last].Block? {
      ParsedBlock(code, ps[last].at);
      PartHalvesBound(ps[last].it.parts);
    }
  }

  lemma PlainLenBound(p: Piece)
    requires p.Plain?
    ensures PieceLen(p) <= 16 * PieceHalves(p) <= 32
  {
    hide T16TypeOf, T32TypeOf;
  }

  /** What is emitted for a window of four bytes without IT blocks fits in one enter slot. */
  lemma EnterFits(code: Code, win: Window)
    requires win.backup == 2 && Rewritable(code, win) && WellFormedWindow(code, win)
    requires forall p | p in Pieces(code, win) :: p.Plain?
    ensures 2 * |EnterWords(code, win)| <= ENTER_SIZE
  {
    hide PieceWords, PieceLen, PieceHalves, PieceAt, WellFormed, Concat, Sum;
    var ps, info := Pieces(code, win), InfoOf(code, win);
    var images, lens := Images(code, win), PieceLens(ps);
    var p0 := PieceAt(code, 0);
    var p1 := PieceAt(code, 1);
    WalkUnfolds(code, 0, 2);
    assert ps[0] == p0 && p0 in ps;
    PlainLenBound(p0);
    if PieceHalves(p0) == 1 {
      WalkUnfolds(code, 1, 2);
      assert ps == [p0, p1] && p1 in ps;
      PlainLenBound(p1);
    } else {
      assert ps == [p0];
    }
    forall i | 0 <= i < |ps| ensures 2 * |images[i]| == lens[i] {
      assert ps[i] in ps;
      PieceLength(ps[i], win.target, info);
    }
    ConcatLength(images, lens, 2);
    SumOfFew(lens);
  }

  lemma SumOfFew(lens: seq<nat>)
    requires 1 <= |lens| <= 2
    ensures Sum(lens) == lens[0] + if |lens| == 2 then lens[1] else 0
  {
    assert lens[..1][..0] == [];
  }

  lemma {:induction false} WalkStops(code: Code, k: nat, backup: nat)
    requires k < backup
    ensures var ps := PiecesFrom(code, k, backup);
            ps != [] && backup <= ps[|ps| - 1].at + PieceHalves(ps[|ps| - 1])
    decreases backup - k
  {
    hide PieceHalves, IsIt, ItAt, InstrAt;
    var p := PieceAt(code, k);
    if k + PieceHalves(p) < backup {
      WalkStops(code, k + PieceHalves(p), backup);
    }
  }

  /** An address inside an instruction or an IT block, not at its start, becomes the address behind its image. */
  lemma FixUpInside(code: Code, win: Window, j: nat, inside: nat)
    requires Rewritable(code, win) && WellFormedWindow(code, win) && j < |Pieces(code, win)|
    requires 0 < inside < PieceHalves(Pieces(code, win)[j])
    requires win.target % 2 == 0 && win.target + 2 * WindowHalves(code, win) <= 0x1_0000_0000
    requires win.enter % 4 == 0 && win.enter + 2 * |EnterWords(code, win)| <= 0x1_0000_0000
    ensures var at := Pieces(code, win)[j].at + inside;
            && at < WindowHalves(code, win)
            && FixAddr(win.target + 2 * at, InfoOf(code, win)) == ImageAddr(code, win, j + 1)
            && FixAddr(win.target + 2 * at + 1, InfoOf(code, win)) == ImageAddr(code, win, j + 1) + 1
  {
    hide *;
    TableUpTo(code, win, j);
    TableInside(code, win, j, inside);
    ImageFits(code, win, j + 1);
    TableSumIsEmittedLen(code, win, j + 1);
    ImagesAreAligned(code, win, j + 1);
    FixAddrInside(InfoOf(code, win), Pieces(code, win)[j].at + inside, ImageAddr(code, win, j + 1));
  }

  lemma TableInside(code: Code, win: Window, j: nat, inside: nat)
    requires j < |Pieces(code, win)| && 0 < inside < PieceHalves(Pieces(code, win)[j])
    ensures var at := Pieces(code, win)[j].at + inside;
            && at < WindowHalves(code, win)
            && Sum(InfoOf(code, win).instLens[..at]) == Sum(Concat(Tables(Pieces(code, win))[..j + 1]))
  {
    hide PieceTable, PieceHalves, PiecesFrom, Concat, Sum, PieceLen;
    var p, tables := Pieces(code, win)[j], Tables(Pieces(code, win));
    var lens, before := Concat(tables), Concat(tables[..j]);
    TableReaches(code, win, j);
    PartAt(tables, j);
    ConcatSnoc(tables, j);
    ConcatTake(tables, j);
    assert lens[..p.at + inside] == before + tables[j][..inside];
    SumAppend(before, tables[j][..inside]);
    SumAppend(before, tables[j]);
    PieceTableSum(p);
    PieceTableFront(p, inside);
  }

  lemma PieceTableFront(p: Piece, inside: nat)
    requires 0 < inside <= PieceHalves(p)
    ensures Sum(PieceTable(p)[..inside]) == PieceLen(p)
  {
    hide PieceLen, PieceHalves, Sum;
    assert PieceTable(p)[..inside] == [PieceLen(p)] + Zeros(inside - 1);
    ZerosSum(inside - 1);
    SumOne(PieceLen(p));
    SumAppend([PieceLen(p)], Zeros(inside - 1));
  }

  lemma SumOne(n: nat)
    ensures Sum([n]) == n
  {
    assert [n][..0] == [];
  }

  // The two passes.

  /** Adds the entries of an IT block: its whole length first, zeros for its instructions. */
  method AddBlock(at: nat, it: It, lens: array<nat>, idx: nat) returns (next: nat)
    requires idx + 1 + PartHalves(it.parts) <= lens.Length
    modifies lens
    ensures next == idx + 1 + PartHalves(it.parts)
    ensures lens[..next] == old(lens[..idx]) + PieceTable(Block(at, it))
  {
    hide TableLen, Sum, PartHalves;
    next := idx + 1;
    var blockLen := 8;
    AddBlockStarts(it.parts);
    for i := 0 to |it.parts|
      invariant next == idx + 1 + PartHalves(it.parts[..i]) <= lens.Length
      invariant blockLen == 8 + Sum(PartLens(it.parts)[..i])
      invariant lens[..idx] == old(lens[..idx])
      invariant forall k | idx < k < next :: lens[k] == 0
    {
      AddBlockStep(it.parts, i);
      blockLen := blockLen + TableLen(it.parts[i].instr);
      lens[next] := 0;
      if it.parts[i].instr.T32? {
        lens[next + 1] := 0;
      }
      next := next + Size(it.parts[i].instr);
    }
    assert it.parts[..|it.parts|] == it.parts && PartLens(it.parts)[..|it.parts|] == PartLens(it.parts);
    lens[idx] := blockLen;
  }

  lemma AddBlockStarts(parts: seq<Part>)
    ensures PartHalves(parts[..0]) == 0 && Sum(PartLens(parts)[..0]) == 0
  {
  }

  lemma AddBlockStep(parts: seq<Part>, i: nat)
    requires i < |parts|
    ensures PartHalves(parts[..i + 1]) == PartHalves(parts[..i]) + Size(parts[i].instr)
    ensures PartHalves(parts[..i + 1]) <= PartHalves(parts)
    ensures Sum(PartLens(parts)[..i + 1]) == Sum(PartLens(parts)[..i]) + TableLen(parts[i].instr)
  {
    hide TableLen, Size, PartHalves, Sum;
    assert parts[..i + 1] == parts[..i] + [parts[i]];
    PartHalvesSnoc(parts[..i], parts[i]);
    PartHalvesAppend(parts[..i + 1], parts[i + 1..]);
    assert parts == parts[..i + 1] + parts[i + 1..];
    SumSnoc(PartLens(parts), i);
  }

  /** One piece more has been walked over. */
  lemma WalkStep(code: Code, backup: nat, done: seq<Piece>, k: nat)
    requires k < backup && PiecesFrom(code, 0, backup) == done + PiecesFrom(code, k, backup)
    ensures var p := PieceAt(code, k);
            && PiecesFrom(code, 0, backup) == done + [p] + PiecesFrom(code, k + PieceHalves(p), backup)
            && Concat(Tables(done + [p])) == Concat(Tables(done)) + PieceTable(p)
  {
    hide PieceHalves, PieceAt, PiecesFrom, Tables;
    WalkUnfolds(code, k, backup);
    TablesStep(done, PieceAt(code, k));
  }

  lemma WalkUnfolds(code: Code, k: nat, backup: nat)
    requires k < backup
    ensures PiecesFrom(code, k, backup)
            == [PieceAt(code, k)] + PiecesFrom(code, k + PieceHalves(PieceAt(code, k)), backup)
  {
  }

  lemma TablesStep(done: seq<Piece>, p: Piece)
    ensures Concat(Tables(done + [p])) == Concat(Tables(done)) + PieceTable(p)
  {
    hide PieceTable;
    assert Tables(done + [p])[..|done|] == Tables(done);
  }

  lemma PieceIsShort(code: Code, k: nat)
    ensures PieceHalves(PieceAt(code, k)) <= 9
    ensures IsIt(T16(code(k))) ==> PieceHalves(PieceAt(code, k)) == 1 + PartHalves(AllParts(code, k))
  {
    hide IsIt, IsThumb32;
    ParsedBlock(code, k);
    PartHalvesBound(ItAt(code, k).parts);
  }

  /** sh_inst_thumb_get_rewrite_info: the first pass. */
  method GetRewriteInfo(code: Code, backup: nat, lens: array<nat>) returns (idx: nat, rewriteLen: nat)
    requires 0 < backup <= 5 && lens.Length == 13
    modifies lens
    ensures idx <= 13 && rewriteLen == 2 * idx
    ensures lens[..idx] == Concat(Tables(PiecesFrom(code, 0, backup)))
  {
    hide PiecesFrom, PieceHalves, PieceTable, IsIt, IsThumb32, AllParts, PartHalves, Concat, TableLen;
    idx, rewriteLen := 0, 0;
    ghost var done: seq<Piece> := [];
    NothingWalked(code, backup);
    while rewriteLen < 2 * backup
      invariant rewriteLen == 2 * idx && idx <= 13
      invariant PiecesFrom(code, 0, backup) == done + PiecesFrom(code, idx, backup)
      invariant lens[..idx] == Concat(Tables(done))
      decreases 2 * backup - rewriteLen
    {
      WalkStep(code, backup, done, idx);
      PieceIsShort(code, idx);
      done := done + [PieceAt(code, idx)];
      var isIt, it, len := ParseIt(code, idx);
      if isIt {
        BlockTable(idx, it);
        rewriteLen := rewriteLen + 2 * (1 + len);
        idx := AddBlock(idx, it, lens, idx);
      } else {
        var instr := InstrAt(code, idx);
        PlainTable(idx, instr);
        rewriteLen := rewriteLen + 2 * Size(instr);
        lens[idx] := TableLen(instr);
        if instr.T32? {
          lens[idx + 1] := 0;
        }
        idx := idx + Size(instr);
      }
    }
    WalkEnds(code, idx, backup);
    assert PiecesFrom(code, 0, backup) == done;
  }

  lemma NothingWalked(code: Code, backup: nat)
    ensures PiecesFrom(code, 0, backup) == [] + PiecesFrom(code, 0, backup) && Concat(Tables([])) == []
  {
  }

  lemma WalkEnds(code: Code, k: nat, backup: nat)
    requires k >= backup
    ensures PiecesFrom(code, k, backup) == []
  {
  }

  lemma BlockTable(at: nat, it: It)
    ensures PieceHalves(Block(at, it)) == 1 + PartHalves(it.parts)
  {
  }

  lemma PlainTable(at: nat, instr: Instr)
    ensures PieceHalves(Plain(at, instr)) == Size(instr)
    ensures PieceTable(Plain(at, instr)) == if instr.T16? then [TableLen(instr)] else [TableLen(instr), 0]
  {
  }

  lemma ImagesStep(done: seq<Piece>, p: Piece, rest: seq<Piece>, target: Word32, info: Info)
    ensures var words := PieceWords(p, target, info);
            && Concat(PiecesWords(done + [p], target, info)) == Concat(PiecesWords(done, target, info)) + words
            && |Concat(PiecesWords(done + [p], target, info))| <= |Concat(PiecesWords(done + [p] + rest, target, info))|
  {
    hide PieceWords;
    var all := PiecesWords(done + [p] + rest, target, info);
    assert PiecesWords(done + [p], target, info)[..|done|] == PiecesWords(done, target, info);
    assert all[..|done| + 1] == PiecesWords(done + [p], target, info);
    ConcatTake(all, |done| + 1);
  }

  /** Emits one piece; the second pass decides on the kind of piece as the first did. */
  method EmitPiece(code: Code, k: nat, target: Word32, info: Info, buf: array<Half>, at: nat, ghost end: nat)
    returns (ok: bool, len: nat, next: nat)
    requires at + |PieceWords(PieceAt(code, k), target, info)| <= end <= buf.Length
    modifies buf
    ensures ok == PieceRewritable(PieceAt(code, k), target, info)
    ensures ok ==> len == at + |PieceWords(PieceAt(code, k), target, info)|
    ensures ok ==> buf[..len] == old(buf[..at]) + PieceWords(PieceAt(code, k), target, info)
    ensures next == k + PieceHalves(PieceAt(code, k))
    ensures buf[end..] == old(buf[end..])
  {
    hide IsIt, IsThumb32, AllParts, PartHalves, BlockWords, BlockRewritable, Rewrite;
    PieceIsShort(code, k);
    var isIt, it, itLen := ParseIt(code, k);
    if isIt {
      ok, len := EmitBlock(it, target, info, buf, at, end);
      next := k + 1 + itLen;
    } else {
      var instr := InstrAt(code, k);
      var words := Rewrite(instr, PcOf(target, k), info);
      ok, len, next := words != [], at + |words|, k + Size(instr);
      Append(buf, at, words, end);
    }
  }

  lemma NothingEmitted(code: Code, win: Window)
    ensures Pieces(code, win) == [] + PiecesFrom(code, 0, win.backup) && Concat(Tables([])) == []
    ensures Concat(PiecesWords([], win.target, InfoOf(code, win))) == []
    ensures |EnterWords(code, win)| == |PrologWords(win)| + |Concat(Images(code, win))| + 4
  {
    hide PiecesFrom, PieceTable, PieceWords;
  }

  lemma EmitStep(code: Code, win: Window, done: seq<Piece>, k: nat)
    requires k < win.backup && Pieces(code, win) == done + PiecesFrom(code, k, win.backup)
    ensures var p, info := PieceAt(code, k), InfoOf(code, win);
            var words := PieceWords(p, win.target, info);
            && Pieces(code, win) == done + [p] + PiecesFrom(code, k + PieceHalves(p), win.backup)
            && |Concat(Tables(done + [p]))| == |Concat(Tables(done))| + PieceHalves(p)
            && Concat(PiecesWords(done + [p], win.target, info)) == Concat(PiecesWords(done, win.target, info)) + words
            && |Concat(PiecesWords(done + [p], win.target, info))| <= |Concat(Images(code, win))|
            && (!PieceRewritable(p, win.target, info) ==> !Rewritable(code, win))
  {
    hide PieceAt, PieceHalves, PieceTable, PiecesFrom, PieceWords, PieceRewritable, InfoOf, Concat, PiecesWords;
    var p := PieceAt(code, k);
    WalkStep(code, win.backup, done, k);
    ImagesStep(done, p, PiecesFrom(code, k + PieceHalves(p), win.backup), win.target, InfoOf(code, win));
    assert (done + [p])[|done|] in done + [p];
  }

  function Overwritten(code: Code, win: Window): (halves: seq<Half>)
    ensures |halves| == win.backup
  {
    seq(win.backup, (k: nat) => code(k))
  }

  method FirstPass(code: Code, win: Window) returns (info: Info)
    requires 0 < win.backup <= 5
    ensures info == InfoOf(code, win)
  {
    hide PiecesFrom, PieceTable, Concat;
    var lens := new nat[13];
    var idx, rewriteLen := GetRewriteInfo(code, win.backup, lens);
    var prologLen := if win.procStart then 0 else 4;
    info := Info(win.target, win.target + rewriteLen, win.enter, prologLen, lens[..idx]);
  }

  /** The second pass. `rewrittenLen` is in bytes. */
  method SecondPass(code: Code, win: Window, info: Info, buf: array<Half>)
    returns (ok: bool, len: nat, rewrittenLen: nat)
    requires 0 < win.backup && info == InfoOf(code, win)
    requires |EnterWords(code, win)| <= buf.Length
    modifies buf
    ensures ok == Rewritable(code, win)
    ensures ok ==> rewrittenLen == 2 * WindowHalves(code, win)
    ensures ok ==> len == |EnterWords(code, win)| && buf[..len] == EnterWords(code, win)
    ensures buf[|EnterWords(code, win)|..] == old(buf[|EnterWords(code, win)|..])
  {
    hide Pieces, PiecesFrom, PieceWords, PieceRewritable, PieceHalves, PieceTable, PieceAt, Concat, PiecesWords, Tables,
         InfoOf, JumpTo, SetBit0;
    ghost var end := |EnterWords(code, win)|;
    ghost var done: seq<Piece> := [];
    ghost var prolog := PrologWords(win);
    NothingEmitted(code, win);
    len := 0;
    if !win.procStart {
      Append(buf, 0, [0xF85D, 0xCC04], end);
      len := 2;
    }
    assert buf[..len] == prolog;
    ok := true;
    var k := 0;
    while ok && k < win.backup
      invariant Pieces(code, win) == done + PiecesFrom(code, k, win.backup)
      invariant k == |Concat(Tables(done))|
      invariant ok ==> len == |prolog| + |Concat(PiecesWords(done, win.target, info))| <= end
      invariant ok ==> buf[..len] == prolog + Concat(PiecesWords(done, win.target, info))
      invariant if ok then forall p | p in done :: PieceRewritable(p, win.target, info) else !Rewritable(code, win)
      invariant buf[end..] == old(buf[end..])
      decreases win.backup - k, ok
    {
      ghost var p := PieceAt(code, k);
      EmitStep(code, win, done, k);
      var next;
      ok, len, next := EmitPiece(code, k, win.target, info, buf, len, end);
      if ok {
        done := done + [p];
        k := next;
      }
    }
    rewrittenLen := 2 * k;
    if ok {
      WalkEnds(code, k, win.backup);
      assert Pieces(code, win) == done;
      var jump := JumpTo(SetBit0(Wrap32(win.target + rewrittenLen)));
      Append(buf, len, jump, end);
      len := len + |jump|;
    }
  }

  /** sh_inst_thumb_rewrite: keeps the halfwords that will be overwritten, makes both passes and hands out the address of
      the enter as a Thumb address, or fails at the first instruction that cannot be rewritten. */
  method RewriteWindow(code: Code, win: Window, buf: array<Half>, backup: array<Half>)
    returns (ok: bool, len: nat, rewrittenLen: nat, origAddr: seq<Word32>)
    requires 0 < win.backup <= 5 && win.backup <= backup.Length
    requires |EnterWords(code, win)| <= buf.Length && backup != buf
    modifies buf, backup
    ensures backup[..win.backup] == Overwritten(code, win) && backup[win.backup..] == old(backup[win.backup..])
    ensures origAddr == if ok then [SetBit0(win.enter)] else []
    ensures ok == Rewritable(code, win)
    ensures ok ==> rewrittenLen == 2 * WindowHalves(code, win)
    ensures ok ==> len == |EnterWords(code, win)| && buf[..len] == EnterWords(code, win)
    ensures buf[|EnterWords(code, win)|..] == old(buf[|EnterWords(code, win)|..])
  {
    hide EnterWords, InfoOf, Rewritable, WindowHalves, SetBit0;
    Append(backup, 0, Overwritten(code, win), win.backup);
    var info := FirstPass(code, win);
    ok, len, rewrittenLen := SecondPass(code, win, info, buf);
    origAddr := if ok then [SetBit0(win.enter)] else [];
  }
}
