/** A split IT block on the processor: its branches and its images are executed as they are written
    (arch/arm/sh_inst.c, arch/arm/sh_t16.c). */
module ThumbBlock {
  import opened Words
  import opened Layout
  import opened ThumbRewrite
  import opened ThumbIt
  import opened ThumbArms
  import opened Sides
  import opened ThumbSteps
  import C = ThumbCpu
  import S = ThumbSim

  function ImageOf(part: Part, target: Word32, info: Info): seq<Half> {
    Rewrite(part.instr, PcOf(target, part.at), info)
  }

  /** What instructions do at their own addresses. */
  function Meant(sem: C.Sem, target: Word32): Meaning<C.Rest> {
    (i: Instr, at: nat, c: C.Machine) => Does(sem, target, i, at, c)
  }

  function Does(sem: C.Sem, target: Word32, i: Instr, at: nat, c: C.Machine): Outcome<C.Rest> {
    if C.Known(i) then C.Exec(sem, i, PcOf(target, at), c) else Next(c)
  }

  // An arm: instructions one after the other.

  /** What the rest of the program owes the engine: see Relocatable. A computed destination does not lie in the window. */
  ghost predicate KeepsRules(sem: C.Sem, part: Part, target: Word32, info: Info, c: C.Machine, hidden: set<int>, wrote: set<int>,
                             code: set<int>)
  {
    var i, pc := part.instr, PcOf(target, part.at);
    && C.Known(i) && !S.IsMovPc(i)
    && (forall h | Agree(c, h, {}, hidden) :: Relocatable(sem, i, pc, c, h, hidden, wrote, code))
    && var o := C.Exec(sem, i, pc, c); o.Taken? && S.Computes(i) ==> !(info.startAddr <= o.addr < info.endAddr)
  }

  /** The rules hold for every instruction that the original machine executes; each has an element of `writes`, the bytes
      that it writes. */
  ghost predicate ArmTracks(sem: C.Sem, parts: seq<Part>, target: Word32, info: Info, c: C.Machine, hidden: set<int>,
                            writes: seq<set<int>>, code: set<int>)
    decreases |parts|
  {
    parts != [] ==>
      && writes != [] && KeepsRules(sem, parts[0], target, info, c, hidden, writes[0], code)
      && var o := Does(sem, target, parts[0].instr, parts[0].at, c);
         o.Next? ==>
           ArmTracks(sem, parts[1..], target, info, o.core, HiddenAfter(parts[0].instr, c, hidden, writes[0]), writes[1..], code)
  }

  /** The bytes that may differ afterwards. */
  ghost function ArmHidden(sem: C.Sem, parts: seq<Part>, target: Word32, c: C.Machine, hidden: set<int>, writes: seq<set<int>>)
    : set<int>
    decreases |parts|
  {
    if parts == [] || writes == [] then hidden
    else
      var after, o := HiddenAfter(parts[0].instr, c, hidden, writes[0]), Does(sem, target, parts[0].instr, parts[0].at, c);
      if o.Next? then ArmHidden(sem, parts[1..], target, o.core, after, writes[1..]) else after
  }

  /** Where the image of part k stands when the arm's images start at q. */
  function ImageAt(parts: seq<Part>, target: Word32, info: Info, q: int, k: nat): int
    requires k <= |parts|
  {
    q + 2 * |Concat(PartWords(parts, target, info)[..k])|
  }

  ghost predicate Laid(parts: seq<Part>, target: Word32, info: Info, q: int, h: C.Machine, code: set<int>) {
    forall k: nat | k < |parts| ::
      Stored(parts[k].instr, PcOf(target, parts[k].at), info, ImageAt(parts, target, info, q, k), h, code)
  }

  /** The part that leaves the arm by a branch, if one does. */
  function Leaver(sem: C.Sem, parts: seq<Part>, k: nat, target: Word32, c: C.Machine): (l: nat)
    requires k <= |parts|
    ensures k <= l <= |parts|
    decreases |parts| - k
  {
    if k == |parts| then k
    else
      match Does(sem, target, parts[k].instr, parts[k].at, c)
      case Next(t) => Leaver(sem, parts, k + 1, target, t)
      case Taken(_, _) => k
  }

  /** State `e` of the hooked machine is what the original one is when it has executed the arm from part k on: at `next`, or at
      the destination of a branch. */
  ghost predicate ArmArrives(sem: C.Sem, parts: seq<Part>, k: nat, target: Word32, info: Info, q: int, next: int, c: C.Machine,
                             from: C.Cpu, e: C.Machine, hidden: set<int>)
    requires k <= |parts|
  {
    match RunStraight(parts[k..], Meant(sem, target), c)
    case Done(t) => S.Reaches(sem, from, C.At(Wrap32(next), e)) && Agree(t, e, {}, hidden)
    case Left(t, dest) =>
      var l := Leaver(sem, parts, k, target, c);
      && dest < 0x1_0000_0000 && S.Reaches(sem, from, C.Gone(FixAddr(dest, info), e))
      && l < |parts|
      && Returns(parts[l].instr, t, e, BackOf(parts, l, target, info, q), hidden)
    case _ => false
  }

  /** Where part l returns to, if it is a call. */
  function BackOf(parts: seq<Part>, l: nat, target: Word32, info: Info, q: int): Word32
    requires l < |parts|
  {
    S.ReturnTo(parts[l].instr, ImageAt(parts, target, info, q, l), 2 * |ImageOf(parts[l], target, info)|)
  }

  lemma ImagesFollow(parts: seq<Part>, target: Word32, info: Info, q: int, k: nat)
    requires k < |parts|
    ensures ImageAt(parts, target, info, q, k + 1) == ImageAt(parts, target, info, q, k) + 2 * |ImageOf(parts[k], target, info)|
  {
    hide Rewrite;
    ConcatSnoc(PartWords(parts, target, info), k);
  }

  lemma StoredKept(i: Instr, pc: Word32, info: Info, p: int, h: C.Machine, e: C.Machine, code: set<int>)
    requires Stored(i, pc, info, p, h, code) && SameBytesIn(h.rest.mem, e.rest.mem, code)
    ensures Stored(i, pc, info, p, e, code)
  {
    hide Rewrite;
    S.BytesAreCode(h.rest.mem, e.rest.mem, p, Rewrite(i, pc, info));
  }

  lemma LaidKept(parts: seq<Part>, target: Word32, info: Info, q: int, h: C.Machine, e: C.Machine, code: set<int>)
    requires Laid(parts, target, info, q, h, code) && SameBytesIn(h.rest.mem, e.rest.mem, code)
    ensures Laid(parts, target, info, q, e, code)
  {
    hide Stored, SameBytesIn, PcOf, ImageAt;
    forall k: nat | k < |parts|
      ensures Stored(parts[k].instr, PcOf(target, parts[k].at), info, ImageAt(parts, target, info, q, k), e, code)
    {
      StoredKept(parts[k].instr, PcOf(target, parts[k].at), info, ImageAt(parts, target, info, q, k), h, e, code);
    }
  }

  lemma BytesStay(m: C.Ram, m1: C.Ram, m2: C.Ram, code: set<int>)
    requires SameBytesIn(m, m1, code) && SameBytesIn(m1, m2, code)
    ensures SameBytesIn(m, m2, code)
  {
  }

  lemma StraightStep(sem: C.Sem, parts: seq<Part>, k: nat, target: Word32, c: C.Machine)
    requires k < |parts|
    ensures RunStraight(parts[k..], Meant(sem, target), c)
            == match Does(sem, target, parts[k].instr, parts[k].at, c)
               case Next(t) => RunStraight(parts[k + 1..], Meant(sem, target), t)
               case Taken(t, dest) => Left(t, dest)
  {
    hide Does;
    assert parts[k..][0] == parts[k] && parts[k..][1..] == parts[k + 1..];
  }

  lemma OutsideStays(dest: Word32, info: Info)
    requires info.startAddr % 2 == 0 && info.endAddr % 2 == 0 && !(info.startAddr <= dest < info.endAddr)
    ensures FixAddr(dest, info) == dest
  {
  }

  lemma RulesTell(sem: C.Sem, part: Part, target: Word32, info: Info, c: C.Machine, h: C.Machine, hidden: set<int>,
                  wrote: set<int>, code: set<int>)
    requires KeepsRules(sem, part, target, info, c, hidden, wrote, code) && Agree(c, h, {}, hidden)
    requires info.startAddr % 2 == 0 && info.endAddr % 2 == 0
    ensures var i, pc := part.instr, PcOf(target, part.at);
            && C.Known(i) && !S.IsMovPc(i) && Relocatable(sem, i, pc, c, h, hidden, wrote, code)
            && C.Exec(sem, i, pc, c) == Does(sem, target, i, part.at, c)
            && var o := C.Exec(sem, i, pc, c);
               o.Taken? && o.addr < 0x1_0000_0000 && S.Computes(i) ==> FixAddr(o.addr, info) == o.addr
  {
    hide C.Exec, C.Known, S.IsMovPc, Relocatable, Agree, S.Computes, FixAddr;
    var o := C.Exec(sem, part.instr, PcOf(target, part.at), c);
    if o.Taken? && o.addr < 0x1_0000_0000 && S.Computes(part.instr) {
      OutsideStays(o.addr, info);
    }
  }

  /** One instruction of an arm. */
  lemma PartStep(sem: C.Sem, parts: seq<Part>, k: nat, target: Word32, info: Info, q: int, c: C.Machine, h: C.Machine,
                 hidden: set<int>, wrote: set<int>, code: set<int>)
    returns (e: C.Machine)
    requires k < |parts| && Laid(parts, target, info, q, h, code) && Agree(c, h, {}, hidden)
    requires info.startAddr % 2 == 0 && info.endAddr % 2 == 0
    requires KeepsRules(sem, parts[k], target, info, c, hidden, wrote, code)
    ensures SameBytesIn(h.rest.mem, e.rest.mem, code) && Laid(parts, target, info, q, e, code)
    ensures var from, after := C.At(Wrap32(ImageAt(parts, target, info, q, k)), h), HiddenAfter(parts[k].instr, c, hidden, wrote);
            match Does(sem, target, parts[k].instr, parts[k].at, c)
            case Next(t) =>
              S.Reaches(sem, from, C.At(Wrap32(ImageAt(parts, target, info, q, k + 1)), e)) && Agree(t, e, {}, after)
            case Taken(t, dest) =>
              && dest < 0x1_0000_0000 && S.Reaches(sem, from, C.Gone(FixAddr(dest, info), e))
              && Returns(parts[k].instr, t, e, BackOf(parts, k, target, info, q), after)
  {
    hide *;
    var i, pc, p := parts[k].instr, PcOf(target, parts[k].at), ImageAt(parts, target, info, q, k);
    RulesTell(sem, parts[k], target, info, c, h, hidden, wrote, code);
    LaidTells(parts, target, info, q, h, code, k);
    StoredTells(i, pc, info, p, h, code);
    EndOfCode(p);
    e := ImageStep(sem, i, pc, info, p, c, h, hidden, wrote, code);
    LaidKept(parts, target, info, q, h, e, code);
    ImagesFollow(parts, target, info, q, k);
    ArrivesTells(sem, i, pc, info, p, 2 * |Rewrite(i, pc, info)|, c, C.At(p, h), e, HiddenAfter(i, c, hidden, wrote));
    BackIs(parts, k, target, info, q);
  }

  lemma EndOfCode(p: int)
    ensures 0 <= p < S.CODE_END ==> Wrap32(p) == p < 0x1_0000_0000
  {
  }

  lemma LaidTells(parts: seq<Part>, target: Word32, info: Info, q: int, h: C.Machine, code: set<int>, k: nat)
    requires Laid(parts, target, info, q, h, code) && k < |parts|
    ensures Stored(parts[k].instr, PcOf(target, parts[k].at), info, ImageAt(parts, target, info, q, k), h, code)
    ensures ImageOf(parts[k], target, info) == Rewrite(parts[k].instr, PcOf(target, parts[k].at), info)
  {
    hide Stored, ImageAt, Rewrite;
  }

  lemma BackIs(parts: seq<Part>, k: nat, target: Word32, info: Info, q: int)
    requires k < |parts|
    ensures BackOf(parts, k, target, info, q)
            == S.ReturnTo(parts[k].instr, ImageAt(parts, target, info, q, k),
                          2 * |Rewrite(parts[k].instr, PcOf(target, parts[k].at), info)|)
  {
    hide ImageAt, Rewrite, S.ReturnTo;
  }

  lemma ArrivesTells(sem: C.Sem, i: Instr, pc: Word32, info: Info, p: int, len: nat, c: C.Machine, from: C.Cpu, e: C.Machine,
                     hidden: set<int>)
    requires C.Known(i) && Arrives(sem, i, pc, info, p, len, c, from, e, hidden)
    requires var o := C.Exec(sem, i, pc, c);
             o.Taken? && o.addr < 0x1_0000_0000 && S.Computes(i) ==> FixAddr(o.addr, info) == o.addr
    ensures match C.Exec(sem, i, pc, c)
            case Next(t) => S.Reaches(sem, from, C.At(Wrap32(p + len), e)) && Agree(t, e, {}, hidden)
            case Taken(t, dest) =>
              && dest < 0x1_0000_0000 && S.Reaches(sem, from, C.Gone(FixAddr(dest, info), e))
              && Returns(i, t, e, S.ReturnTo(i, p, len), hidden)
  {
    hide C.Exec, C.Known, Agree, S.Reaches, Returns, S.Computes, FixAddr, S.ReturnTo;
  }

  /** The rest of an arm. */
  lemma {:induction false} ArmSteps(sem: C.Sem, parts: seq<Part>, k: nat, target: Word32, info: Info, q: int, c: C.Machine,
                                    h: C.Machine, hidden: set<int>, writes: seq<set<int>>, code: set<int>)
    returns (e: C.Machine)
    requires k <= |parts| && Laid(parts, target, info, q, h, code) && Agree(c, h, {}, hidden)
    requires info.startAddr % 2 == 0 && info.endAddr % 2 == 0
    requires ArmTracks(sem, parts[k..], target, info, c, hidden, writes, code)
    ensures SameBytesIn(h.rest.mem, e.rest.mem, code)
    ensures ArmArrives(sem, parts, k, target, info, q, ImageAt(parts, target, info, q, |parts|), c,
                       C.At(Wrap32(ImageAt(parts, target, info, q, k)), h), e,
                       ArmHidden(sem, parts[k..], target, c, hidden, writes))
    decreases |parts| - k
  {
    hide Laid, Does, Agree, KeepsRules, HiddenAfter, SameBytesIn, S.Reaches, FixAddr, Returns, BackOf, ImageAt, RunStraight, Meant;
    var from := C.At(Wrap32(ImageAt(parts, target, info, q, k)), h);
    if k == |parts| {
      e := h;
      S.ReachesSelf(sem, from);
      NothingLeft(sem, parts, target, c);
      SameAsSelf(h.rest.mem, code);
    } else {
      assert parts[k..][0] == parts[k] && parts[k..][1..] == parts[k + 1..];
      StraightStep(sem, parts, k, target, c);
      var e1 := PartStep(sem, parts, k, target, info, q, c, h, hidden, writes[0], code);
      var after := HiddenAfter(parts[k].instr, c, hidden, writes[0]);
      e := e1;
      match Does(sem, target, parts[k].instr, parts[k].at, c)
      case Next(t) =>
        e := ArmSteps(sem, parts, k + 1, target, info, q, t, e1, after, writes[1..], code);
        BytesStay(h.rest.mem, e1.rest.mem, e.rest.mem, code);
        ArrivesFrom(sem, parts, k + 1, target, info, q, ImageAt(parts, target, info, q, |parts|), t, from,
                    C.At(Wrap32(ImageAt(parts, target, info, q, k + 1)), e1), e,
                    ArmHidden(sem, parts[k + 1..], target, t, after, writes[1..]));
      case Taken(_, _) =>
    }
  }

  lemma NothingLeft(sem: C.Sem, parts: seq<Part>, target: Word32, c: C.Machine)
    ensures RunStraight(parts[|parts|..], Meant(sem, target), c) == Done(c)
  {
  }

  lemma SameAsSelf(m: C.Ram, code: set<int>)
    ensures SameBytesIn(m, m, code)
  {
  }

  lemma ArrivesFrom(sem: C.Sem, parts: seq<Part>, k: nat, target: Word32, info: Info, q: int, next: int, c: C.Machine,
                    from: C.Cpu, mid: C.Cpu, e: C.Machine, hidden: set<int>)
    requires k <= |parts| && ArmArrives(sem, parts, k, target, info, q, next, c, mid, e, hidden) && S.Reaches(sem, from, mid)
    ensures ArmArrives(sem, parts, k, target, info, q, next, c, from, e, hidden)
  {
    hide Agree, S.Reaches, FixAddr, Returns, BackOf, RunStraight, Meant;
    match RunStraight(parts[k..], Meant(sem, target), c)
    case Done(t) => S.ReachesOn(sem, from, mid, C.At(Wrap32(next), e));
    case Left(t, dest) => S.ReachesOn(sem, from, mid, C.Gone(FixAddr(dest, info), e));
    case _ =>
  }

  // Where the images of an arm are.

  /** The code at p is in memory, at a multiple of four, is the engine's own, and wraps nowhere. */
  ghost predicate Placed(h: C.Machine, p: Word32, words: seq<Half>, code: set<int>) {
    && C.CodeAt(h.rest.mem, p, words) && p % 4 == 0 && p + 2 * |words| < S.CODE_END && Span(p, 2 * |words|) <= code
  }

  predicate Filled(parts: seq<Part>, target: Word32, info: Info) {
    forall part | part in parts :: ImageOf(part, target, info) != [] && !IsIt(part.instr)
  }

  lemma ImageIsEven(part: Part, target: Word32, info: Info)
    requires ImageOf(part, target, info) != [] && !IsIt(part.instr)
    ensures |ImageOf(part, target, info)| % 2 == 0
  {
    hide Rewrite, TableLen;
    EmittedLenIsTableLen(part.instr, PcOf(target, part.at), info);
    TableLenIsAligned(part.instr);
  }

  lemma {:induction false} ArmIsEven(parts: seq<Part>, target: Word32, info: Info, k: nat)
    requires Filled(parts, target, info) && k <= |parts|
    ensures |Concat(PartWords(parts, target, info)[..k])| % 2 == 0
    decreases k
  {
    hide Rewrite, IsIt, Concat;
    if k == 0 {
      NothingYet(PartWords(parts, target, info));
    } else {
      ArmIsEven(parts, target, info, k - 1);
      assert parts[k - 1] in parts;
      ImageIsEven(parts[k - 1], target, info);
      ConcatSnoc(PartWords(parts, target, info), k - 1);
    }
  }

  lemma NothingYet(parts: seq<seq<Half>>)
    ensures Concat(parts[..0]) == []
  {
  }

  lemma SliceOfSlice(words: seq<Half>, at: nat, len: nat, from: nat, n: nat)
    requires at + len <= |words| && from + n <= len
    ensures words[at..at + len][from..from + n] == words[at + from..at + from + n]
  {
    var a, b := words[at..at + len][from..from + n], words[at + from..at + from + n];
    forall k | 0 <= k < n ensures a[k] == b[k] {
      assert a[k] == words[at..at + len][from + k] == words[at + (from + k)];
    }
  }

  lemma SliceIsThere(m: C.Ram, p: int, words: seq<Half>, at: nat, part: seq<Half>)
    requires C.CodeAt(m, p, words) && at + |part| <= |words| && words[at..at + |part|] == part
    ensures C.CodeAt(m, p + 2 * at, part)
  {
    hide C.HalfAt;
    forall k | 0 <= k < |part| ensures C.HalfAt(m, p + 2 * at + 2 * k) == part[k] {
      assert p + 2 * at + 2 * k == p + 2 * (at + k) && words[at..at + |part|][k] == words[at + k];
    }
  }

  lemma ArmIsLaid(parts: seq<Part>, target: Word32, info: Info, p: Word32, words: seq<Half>, at: nat, h: C.Machine,
                  code: set<int>)
    requires Placed(h, p, words, code) && Filled(parts, target, info) && at % 2 == 0
    requires var arm := Concat(PartWords(parts, target, info)); at + |arm| <= |words| && words[at..at + |arm|] == arm
    ensures Laid(parts, target, info, p + 2 * at, h, code)
  {
    hide Rewrite, IsIt, C.CodeAt, PcOf, Concat;
    forall k: nat | k < |parts|
      ensures Stored(parts[k].instr, PcOf(target, parts[k].at), info, ImageAt(parts, target, info, p + 2 * at, k), h, code)
    {
      var arm, image := PartWords(parts, target, info), ImageOf(parts[k], target, info);
      var before := |Concat(arm[..k])|;
      assert parts[k] in parts;
      ArmIsEven(parts, target, info, k);
      PartAt(arm, k);
      SliceOfSlice(words, at, |Concat(arm)|, before, |image|);
      SliceIsThere(h.rest.mem, p, words, at + before, image);
    }
  }

  // The two branches.

  lemma DecodeElse(firstCond: nat, halves: nat)
    requires firstCond < 14 && 4 + 2 * halves <= 100
    ensures var h := ItElse(firstCond, 4 + 2 * halves);
            C.Decode16(h) == C.BCond(firstCond, 4 + 2 * halves) && !IsThumb32(h)
  {
    hide C.Decode16, IsThumb32;
    C.Decodes16(0xD0 + firstCond, 2 + halves);
  }

  lemma DecodeThen(halves: nat)
    requires 2 * halves <= 128
    ensures C.Decode16(ItThen(2 * halves)) == C.B(2 * halves) && !IsThumb32(ItThen(2 * halves))
  {
    hide C.Decode16, IsThumb32;
    C.Decodes16(0xE0, halves);
  }

  lemma DecodeNop()
    ensures C.Decode16(NOP) == C.Nop && !IsThumb32(NOP)
  {
    hide C.Decode16, IsThumb32;
    C.Decodes16(0xBF, 0);
  }

  /** Where the parts of the code are. */
  lemma BlockLayout(it: It, target: Word32, info: Info)
    ensures var words, elses, thens := BlockWords(it, target, info), ElseWords(it, target, info), ThenWords(it, target, info);
            && |words| == 4 + |elses| + |thens|
            && words[0] == ItElse(it.firstCond, 4 + 2 * |elses|) && words[1] == NOP
            && words[2..2 + |elses|] == elses && words[2 + |elses|] == ItThen(2 * |thens|)
            && words[4 + |elses|..4 + |elses| + |thens|] == thens
  {
    hide ElseWords, ThenWords, ItElse, ItThen;
  }

  /** B<c> leads to the first image of the arm that the flags choose. */
  lemma ElseBranchRuns(sem: C.Sem, it: It, target: Word32, info: Info, p: Word32, c: C.Machine, code: set<int>)
    requires it.firstCond < 14 && Placed(c, p, BlockWords(it, target, info), code)
    requires 4 + 2 * |ElseWords(it, target, info)| <= 100
    ensures |BlockWords(it, target, info)| >= 4 + |ElseWords(it, target, info)|
    ensures S.Reaches(sem, C.At(p, c),
                      C.At(p + 2 * if CondHolds(it.firstCond, c.flags) then 4 + |ElseWords(it, target, info)| else 2, c))
  {
    BlockLayout(it, target, info);
    hide ElseWords, ThenWords, ItElse, BlockWords, C.Decode16, IsThumb32, CondHolds, C.HalfAt, S.Reaches;
    var words, elses := BlockWords(it, target, info), |ElseWords(it, target, info)|;
    S.ReachesSelf(sem, C.At(p, c));
    DecodeElse(it.firstCond, elses);
    S.Executes16(sem, C.At(p, c), p, words, 0, c);
    if !CondHolds(it.firstCond, c.flags) {
      DecodeNop();
      S.Executes16(sem, C.At(p, c), p, words, 1, c);
    }
  }

  /** B leads behind the block. */
  lemma ThenBranchRuns(sem: C.Sem, s: C.Cpu, it: It, target: Word32, info: Info, p: Word32, c: C.Machine, code: set<int>)
    requires Placed(c, p, BlockWords(it, target, info), code) && 2 * |ThenWords(it, target, info)| <= 128
    requires |BlockWords(it, target, info)| == 4 + |ElseWords(it, target, info)| + |ThenWords(it, target, info)|
    requires S.Reaches(sem, s, C.At(p + 2 * (2 + |ElseWords(it, target, info)|), c))
    ensures S.Reaches(sem, s, C.At(p + 2 * |BlockWords(it, target, info)|, c))
  {
    BlockLayout(it, target, info);
    hide ElseWords, ThenWords, ItThen, BlockWords, C.Decode16, IsThumb32, C.HalfAt, S.Reaches;
    DecodeThen(|ThenWords(it, target, info)|);
    S.Executes16(sem, s, p, BlockWords(it, target, info), 2 + |ElseWords(it, target, info)|, c);
  }

  // The block.

  /** The block was written, and its code is in memory. */
  ghost predicate Ready(it: It, target: Word32, info: Info, p: Word32, h: C.Machine, code: set<int>) {
    && it.firstCond < 14 && it.elseCount <= 3 && |it.parts| <= 4 && info.startAddr % 2 == 0 && info.endAddr % 2 == 0
    && BlockRewritable(it, target, info) && NoNestedIt(it) && Placed(h, p, BlockWords(it, target, info), code)
  }

  /** The instructions whose condition holds in state `c`. */
  function ArmOf(it: It, c: C.Machine): seq<Part>
    requires it.firstCond < 14
  {
    if CondHolds(it.firstCond, c.flags) then it.parts[it.elseCount..] else it.parts[..it.elseCount]
  }

  /** Where their images start. */
  function ArmStart(it: It, target: Word32, info: Info, p: int, c: C.Machine): int
    requires it.firstCond < 14
  {
    p + 2 * if CondHolds(it.firstCond, c.flags) then 4 + |ElseWords(it, target, info)| else 2
  }

  lemma BlockIsFilled(it: It, target: Word32, info: Info)
    requires BlockRewritable(it, target, info) && NoNestedIt(it)
    ensures Filled(it.parts[it.elseCount..], target, info) && Filled(it.parts[..it.elseCount], target, info)
  {
    hide Rewrite, IsIt;
    forall part | part in it.parts ensures ImageOf(part, target, info) != [] && !IsIt(part.instr) {
      var k: nat :| k < |it.parts| && it.parts[k] == part;
      assert PartWords(it.parts, target, info)[k] in PartWords(it.parts, target, info);
    }
  }

  lemma ThenArmSteps(sem: C.Sem, it: It, target: Word32, info: Info, p: Word32, c: C.Machine, h: C.Machine, hidden: set<int>,
                     writes: seq<set<int>>, code: set<int>)
    returns (e: C.Machine)
    requires Ready(it, target, info, p, h, code) && Agree(c, h, {}, hidden) && CondHolds(it.firstCond, c.flags)
    requires ArmTracks(sem, it.parts[it.elseCount..], target, info, c, hidden, writes, code)
    ensures SameBytesIn(h.rest.mem, e.rest.mem, code)
    ensures ArmArrives(sem, it.parts[it.elseCount..], 0, target, info, p + 2 * (4 + |ElseWords(it, target, info)|),
                       p + 2 * |BlockWords(it, target, info)|, c, C.At(p, h), e,
                       ArmHidden(sem, it.parts[it.elseCount..], target, c, hidden, writes))
  {
    hide *;
    ReadyTells(it, target, info, p, h, code);
    SameView(c, h, hidden);
    ArmsAreShort(it, target, info);
    BlockIsFilled(it, target, info);
    ElseBranchRuns(sem, it, target, info, p, h, code);
    BlockLayout(it, target, info);
    ElseWordsAre(it, target, info);
    var arm, words, at := it.parts[it.elseCount..], BlockWords(it, target, info), 4 + |ElseWords(it, target, info)|;
    EvenElse(it, target, info);
    ArmIsLaid(arm, target, info, p, words, at, h, code);
    assert arm[0..] == arm;
    e := ArmSteps(sem, arm, 0, target, info, p + 2 * at, c, h, hidden, writes, code);
    ArmEnds(arm, target, info, p + 2 * at);
    EndOfCode(p + 2 * at);
    ArrivesFrom(sem, arm, 0, target, info, p + 2 * at, p + 2 * |words|, c, C.At(p, h), C.At(p + 2 * at, h), e,
                ArmHidden(sem, arm, target, c, hidden, writes));
  }

  lemma EvenElse(it: It, target: Word32, info: Info)
    requires Filled(it.parts[..it.elseCount], target, info)
    ensures |ElseWords(it, target, info)| % 2 == 0
  {
    hide Filled;
    ElseWordsAre(it, target, info);
    hide ElseWords, ThenWords;
    var arm := it.parts[..it.elseCount];
    ArmIsEven(arm, target, info, |arm|);
    assert PartWords(arm, target, info)[..|arm|] == PartWords(arm, target, info);
  }

  lemma ArmEnds(parts: seq<Part>, target: Word32, info: Info, q: int)
    ensures ImageAt(parts, target, info, q, 0) == q
    ensures ImageAt(parts, target, info, q, |parts|) == q + 2 * |Concat(PartWords(parts, target, info))|
  {
    hide Rewrite;
    NothingYet(PartWords(parts, target, info));
    assert PartWords(parts, target, info)[..|parts|] == PartWords(parts, target, info);
  }

  lemma ReadyTells(it: It, target: Word32, info: Info, p: Word32, h: C.Machine, code: set<int>)
    requires Ready(it, target, info, p, h, code)
    ensures it.firstCond < 14 && it.elseCount <= 3 && |it.parts| <= 4 && info.startAddr % 2 == 0 && info.endAddr % 2 == 0
    ensures BlockRewritable(it, target, info) && NoNestedIt(it) && Placed(h, p, BlockWords(it, target, info), code)
    ensures p + 2 * |BlockWords(it, target, info)| < S.CODE_END
  {
    hide BlockRewritable, NoNestedIt, BlockWords, C.CodeAt;
  }

  lemma ElseArmSteps(sem: C.Sem, it: It, target: Word32, info: Info, p: Word32, c: C.Machine, h: C.Machine, hidden: set<int>,
                     writes: seq<set<int>>, code: set<int>)
    returns (e: C.Machine)
    requires Ready(it, target, info, p, h, code) && Agree(c, h, {}, hidden) && !CondHolds(it.firstCond, c.flags)
    requires ArmTracks(sem, it.parts[..it.elseCount], target, info, c, hidden, writes, code)
    ensures SameBytesIn(h.rest.mem, e.rest.mem, code)
    ensures ArmArrives(sem, it.parts[..it.elseCount], 0, target, info, p + 4,
                       p + 2 * |BlockWords(it, target, info)|, c, C.At(p, h), e,
                       ArmHidden(sem, it.parts[..it.elseCount], target, c, hidden, writes))
  {
    hide *;
    ReadyTells(it, target, info, p, h, code);
    SameView(c, h, hidden);
    ArmsAreShort(it, target, info);
    BlockIsFilled(it, target, info);
    ElseBranchRuns(sem, it, target, info, p, h, code);
    BlockLayout(it, target, info);
    ElseWordsAre(it, target, info);
    var arm, words := it.parts[..it.elseCount], BlockWords(it, target, info);
    ArmIsLaid(arm, target, info, p, words, 2, h, code);
    assert arm[0..] == arm;
    e := ArmSteps(sem, arm, 0, target, info, p + 4, c, h, hidden, writes, code);
    ArmEnds(arm, target, info, p + 4);
    EndOfCode(p + 4);
    EndOfCode(p + 2 * (2 + |ElseWords(it, target, info)|));
    EndOfCode(p + 2 * |words|);
    PlacedKept(h, e, p, words, code);
    ArrivesFrom(sem, arm, 0, target, info, p + 4, p + 2 * (2 + |ElseWords(it, target, info)|), c, C.At(p, h), C.At(p + 4, h), e,
                ArmHidden(sem, arm, target, c, hidden, writes));
    OverThen(sem, it, target, info, p, c, h, e, ArmHidden(sem, arm, target, c, hidden, writes), code);
  }

  lemma PlacedKept(h: C.Machine, e: C.Machine, p: Word32, words: seq<Half>, code: set<int>)
    requires Placed(h, p, words, code) && SameBytesIn(h.rest.mem, e.rest.mem, code)
    ensures Placed(e, p, words, code)
  {
    S.BytesAreCode(h.rest.mem, e.rest.mem, p, words);
  }

  /** What falls through the ELSE arm is led over the THEN arm. */
  lemma OverThen(sem: C.Sem, it: It, target: Word32, info: Info, p: Word32, c: C.Machine, h: C.Machine, e: C.Machine,
                 hidden: set<int>, code: set<int>)
    requires Placed(e, p, BlockWords(it, target, info), code) && 2 * |ThenWords(it, target, info)| <= 128
    requires |BlockWords(it, target, info)| == 4 + |ElseWords(it, target, info)| + |ThenWords(it, target, info)|
    requires ArmArrives(sem, it.parts[..it.elseCount], 0, target, info, p + 4, p + 2 * (2 + |ElseWords(it, target, info)|), c,
                        C.At(p, h), e, hidden)
    ensures ArmArrives(sem, it.parts[..it.elseCount], 0, target, info, p + 4, p + 2 * |BlockWords(it, target, info)|, c,
                       C.At(p, h), e, hidden)
  {
    hide Agree, S.Reaches, FixAddr, Returns, BackOf, RunStraight, Meant, BlockWords, ElseWords, ThenWords, C.CodeAt;
    if RunStraight(it.parts[..it.elseCount][0..], Meant(sem, target), c).Done? {
      ThenBranchRuns(sem, C.At(p, h), it, target, info, p, e, code);
    }
  }

  /** The processor executes the code of a split block: the instructions of one arm do, in order, what they do at their own
      addresses, and the code ends behind the block, or where one of them goes. */
  lemma BlockSteps(sem: C.Sem, it: It, target: Word32, info: Info, p: Word32, c: C.Machine, h: C.Machine, hidden: set<int>,
                   writes: seq<set<int>>, code: set<int>)
    returns (e: C.Machine)
    requires Ready(it, target, info, p, h, code) && Agree(c, h, {}, hidden)
    requires ArmTracks(sem, ArmOf(it, c), target, info, c, hidden, writes, code)
    ensures SameBytesIn(h.rest.mem, e.rest.mem, code)
    ensures ArmArrives(sem, ArmOf(it, c), 0, target, info, ArmStart(it, target, info, p, c),
                       p + 2 * |BlockWords(it, target, info)|, c, C.At(p, h), e,
                       ArmHidden(sem, ArmOf(it, c), target, c, hidden, writes))
  {
    hide ArmTracks, ArmHidden, ArmArrives, Ready, CondHolds, Agree, SameBytesIn, ElseWords, BlockWords;
    ReadyTells(it, target, info, p, h, code);
    if CondHolds(it.firstCond, c.flags) {
      e := ThenArmSteps(sem, it, target, info, p, c, h, hidden, writes, code);
    } else {
      e := ElseArmSteps(sem, it, target, info, p, c, h, hidden, writes, code);
    }
  }

  // What the block does where it was.

  /** The instructions that are executed in the block do the same outside it, and none turns the condition of those behind
      it. */
  ghost predicate KeepsCond(parts: seq<Part>, firstCond: nat, inside: Meaning<C.Rest>, moved: Meaning<C.Rest>, c: C.Machine)
    requires firstCond < 14
    decreases |parts|
  {
    parts != [] ==>
      if !CondHolds(PartCond(firstCond, parts[0]), c.flags) then KeepsCond(parts[1..], firstCond, inside, moved, c)
      else
        var o := inside(parts[0].instr, parts[0].at, c);
        && o == moved(parts[0].instr, parts[0].at, c)
        && (o.Next? ==>
              && (|parts| == 1 || CondHolds(firstCond, o.core.flags) == CondHolds(firstCond, c.flags))
              && KeepsCond(parts[1..], firstCond, inside, moved, o.core))
  }

  lemma {:induction false} BlockIsArm(parts: seq<Part>, firstCond: nat, inside: Meaning<C.Rest>, moved: Meaning<C.Rest>,
                                      c: C.Machine)
    requires firstCond < 14 && KeepsCond(parts, firstCond, inside, moved, c)
    ensures RunBlock(parts, firstCond, inside, c) == RunStraight(Only(parts, !CondHolds(firstCond, c.flags)), moved, c)
    decreases |parts|
  {
    hide CondHolds, PartCond, Only;
    if parts == [] {
      NothingOnly(!CondHolds(firstCond, c.flags));
    } else {
      var part, rest := parts[0], parts[1..];
      assert parts == [part] + rest;
      OnlyFront(part, rest, !CondHolds(firstCond, c.flags));
      CondsAreOpposite(firstCond, part, c.flags);
      if CondHolds(firstCond, c.flags) == part.isElse {
        BlockIsArm(rest, firstCond, inside, moved, c);
        assert [] + Only(rest, !part.isElse) == Only(rest, !part.isElse);
      } else {
        var o := inside(part.instr, part.at, c);
        assert ([part] + Only(rest, part.isElse))[1..] == Only(rest, part.isElse);
        if o.Next? {
          BlockIsArm(rest, firstCond, inside, moved, o.core);
          if rest == [] {
            NothingOnly(part.isElse);
            NothingOnly(!CondHolds(firstCond, o.core.flags));
          }
        }
      }
    }
  }

  /** The exact condition of ThumbArms is enough for that. */
  lemma {:induction false} MaySplitKeepsCond(parts: seq<Part>, firstCond: nat, writers: set<nat>, inside: Meaning<C.Rest>,
                                             moved: Meaning<C.Rest>, c: C.Machine)
    requires firstCond < 14 && OnlyLastWrites(parts, writers)
    requires KeepsFlags(parts, writers, inside) && MovesWell(parts, {}, inside, moved)
    ensures KeepsCond(parts, firstCond, inside, moved, c)
    decreases |parts|
  {
    hide CondHolds, PartCond;
    if parts != [] {
      var rest := parts[1..];
      assert parts[0] in parts;
      assert KeepsFlags(rest, writers, inside) && MovesWell(rest, {}, inside, moved);
      assert forall i | 0 <= i < |rest| - 1 :: rest[i] == parts[i + 1];
      MaySplitKeepsCond(rest, firstCond, writers, inside, moved, c);
      var o := inside(parts[0].instr, parts[0].at, c);
      if o.Next? {
        MaySplitKeepsCond(rest, firstCond, writers, inside, moved, o.core);
      }
    }
  }
}
