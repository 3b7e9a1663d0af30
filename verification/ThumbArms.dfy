/** What the two arms of a split IT block compute (arch/arm/sh_t16.c, arch/arm/sh_inst.c), against what the block computes
    (sections A8.3 and A8.8, entries B and IT, of the Arm Architecture Reference Manual, DDI 0406), and when it is the
    same. */
module ThumbArms {
  import opened Words
  import opened Layout
  import opened Masks
  import opened ThumbRewrite
  import opened ThumbIt

  datatype Flags = Flags(n: bool, z: bool, c: bool, v: bool)

  /** The flags, and everything else an instruction may read or write. */
  datatype Core<T> = Core(flags: Flags, rest: T)

  datatype Outcome<T> = Next(core: Core<T>) | Taken(core: Core<T>, addr: nat)

  /** What an instruction, placed at some halfword, does when its condition holds. */
  type Meaning<!T> = (Instr, nat, Core<T>) -> Outcome<T>

  predicate CondHolds(cond: nat, f: Flags)
    requires cond < 16
  {
    var holds := [f.z, f.c, f.n, f.v, f.c && !f.z, f.n == f.v, !f.z && f.n == f.v, true][cond / 2];
    if cond % 2 == 1 && cond != 15 then !holds else holds
  }

  /** How a stretch of code is left: at its end, by a branch, by an undefined instruction, or in no proper way. */
  datatype Result<T> = Done(core: Core<T>) | Left(core: Core<T>, addr: nat) | Undefined | Stray

  // The block in its place: each instruction under its own condition.

  function PartCond(firstCond: nat, part: Part): (cond: nat)
    requires firstCond < 16
    ensures cond < 16
  {
    if part.isElse then firstCond / 2 * 2 + 1 - firstCond % 2 else firstCond
  }

  function RunBlock<T>(parts: seq<Part>, firstCond: nat, sem: Meaning<T>, s: Core<T>): (r: Result<T>)
    requires firstCond < 16
    ensures r.Done? || r.Left?
  {
    if parts == [] then Done(s)
    else if !CondHolds(PartCond(firstCond, parts[0]), s.flags) then RunBlock(parts[1..], firstCond, sem, s)
    else
      match sem(parts[0].instr, parts[0].at, s)
      case Next(t) => RunBlock(parts[1..], firstCond, sem, t)
      case Taken(t, addr) => Left(t, addr)
  }

  // The code that is written instead: halfwords the processor decodes, and images that act like their instruction.

  datatype Item = Word(half: Half) | Image(part: Part, words: seq<Half>)

  function ItemWords(item: Item): seq<Half> {
    match item case Word(h) => [h] case Image(_, words) => words
  }

  function ArmItems(parts: seq<Part>, target: Word32, info: Info): (items: seq<Item>)
    ensures |items| == |parts|
  {
    seq(|parts|, (i: nat) requires i < |parts| =>
      Image(parts[i], Rewrite(parts[i].instr, PcOf(target, parts[i].at), info)))
  }

  function BlockItems(it: It, target: Word32, info: Info): seq<Item> {
    var elses, thens := ElseWords(it, target, info), ThenWords(it, target, info);
    [Word(ItElse(it.firstCond, 4 + 2 * |elses|)), Word(NOP)] + ArmItems(it.parts[..it.elseCount], target, info)
    + [Word(ItThen(2 * |thens|)), Word(NOP)] + ArmItems(it.parts[it.elseCount..], target, info)
  }

  function Flat(items: seq<Item>): seq<Half> {
    if items == [] then [] else ItemWords(items[0]) + Flat(items[1..])
  }

  /** The item that starts at halfword p. */
  function ItemAt(items: seq<Item>, p: int): (found: seq<Item>)
    ensures |found| <= 1
  {
    if items == [] || p < 0 then []
    else if p == 0 then [items[0]]
    else ItemAt(items[1..], p - |ItemWords(items[0])|)
  }

  /** Runs from halfword p to the end of the items. A branch is relative to the address four bytes on; all branches that
      are written here go forward. */
  function Run<T>(items: seq<Item>, p: int, sem: Meaning<T>, s: Core<T>): Result<T>
    decreases |Flat(items)| - p
  {
    if p == |Flat(items)| then Done(s)
    else if p > |Flat(items)| || ItemAt(items, p) == [] then Stray
    else
      match ItemAt(items, p)[0]
      case Image(part, words) =>
        if words == [] then Stray
        else (
          match sem(part.instr, part.at, s)
          case Next(t) => Run(items, p + |words|, sem, t)
          case Taken(t, addr) => Left(t, addr)
        )
      case Word(h) =>
        if h == NOP then Run(items, p + 1, sem, s)
        else if h / 0x1000 == 0xD && h / 0x100 % 0x10 == 0xE then Undefined
        else if h / 0x1000 == 0xD && h / 0x100 % 0x10 != 0xF then
          if CondHolds(h / 0x100 % 0x10, s.flags) then GoTo(items, p, p + 2 + SignExtend(h % 0x100, 0x100), sem, s)
          else Run(items, p + 1, sem, s)
        else if h / 0x800 == 0x1C then GoTo(items, p, p + 2 + SignExtend(h % 0x800, 0x800), sem, s)
        else Stray
  }

  function GoTo<T>(items: seq<Item>, p: int, to: int, sem: Meaning<T>, s: Core<T>): Result<T>
    requires p < |Flat(items)|
    decreases |Flat(items)| - p, 0
  {
    if to > p then Run(items, to, sem, s) else Stray
  }

  // The items are the halfwords that are written.

  lemma {:induction false} FlatAppend(a: seq<Item>, b: seq<Item>)
    ensures Flat(a + b) == Flat(a) + Flat(b)
  {
    if a == [] {
      assert a + b == b;
    } else {
      assert (a + b)[1..] == a[1..] + b;
      FlatAppend(a[1..], b);
    }
  }

  lemma {:induction false} ArmItemsFlat(parts: seq<Part>, target: Word32, info: Info)
    ensures Flat(ArmItems(parts, target, info)) == Concat(PartWords(parts, target, info))
  {
    hide Rewrite;
    if parts != [] {
      var front := parts[..|parts| - 1];
      ArmItemsFlat(front, target, info);
      assert PartWords(parts, target, info)[..|front|] == PartWords(front, target, info);
      var last := ArmItems(parts, target, info)[|front|];
      assert ArmItems(parts, target, info) == ArmItems(front, target, info) + [last];
      FlatAppend(ArmItems(front, target, info), [last]);
      FlatOne(last);
    }
  }

  lemma FlatOne(item: Item)
    ensures Flat([item]) == ItemWords(item)
  {
    assert [item][1..] == [];
  }

  lemma FlatTwo(a: Item, b: Item)
    ensures Flat([a, b]) == ItemWords(a) + ItemWords(b)
  {
    assert [a, b][1..] == [b];
    FlatOne(b);
  }

  /** What is run below is what is emitted. */
  lemma ItemsAreTheCode(it: It, target: Word32, info: Info)
    ensures Flat(BlockItems(it, target, info)) == BlockWords(it, target, info)
  {
    hide Rewrite, Flat, ArmItems, PartWords, ItElse, ItThen;
    var elses, thens := ElseWords(it, target, info), ThenWords(it, target, info);
    var first, second := [Word(ItElse(it.firstCond, 4 + 2 * |elses|)), Word(NOP)], [Word(ItThen(2 * |thens|)), Word(NOP)];
    var arm0, arm1 := ArmItems(it.parts[..it.elseCount], target, info), ArmItems(it.parts[it.elseCount..], target, info);
    FlatAppend(first + arm0 + second, arm1);
    FlatAppend(first + arm0, second);
    FlatAppend(first, arm0);
    FlatTwo(first[0], first[1]);
    FlatTwo(second[0], second[1]);
    ArmItemsFlat(it.parts[..it.elseCount], target, info);
    ArmItemsFlat(it.parts[it.elseCount..], target, info);
  }

  lemma {:induction false} ItemAtEndOf(a: seq<Item>, item: Item, b: seq<Item>)
    requires forall x | x in a :: ItemWords(x) != []
    ensures ItemAt(a + [item] + b, |Flat(a)|) == [item]
  {
    hide ItemWords;
    if a == [] {
      assert a + [item] + b == [item] + b;
    } else {
      ItemAtEndOf(a[1..], item, b);
      assert (a + [item] + b)[1..] == a[1..] + [item] + b;
      assert (a + [item] + b)[0] in a;
    }
  }

  // Straight-line code.

  function RunStraight<T>(parts: seq<Part>, sem: Meaning<T>, s: Core<T>): (r: Result<T>)
    ensures r.Done? || r.Left?
  {
    if parts == [] then Done(s)
    else
      match sem(parts[0].instr, parts[0].at, s)
      case Next(t) => RunStraight(parts[1..], sem, t)
      case Taken(t, addr) => Left(t, addr)
  }

  lemma ImageRuns<T>(before: seq<Item>, image: Item, after: seq<Item>, sem: Meaning<T>, s: Core<T>)
    requires forall x | x in before + [image] :: ItemWords(x) != []
    requires image.Image?
    ensures var items, p := before + [image] + after, |Flat(before)|;
            && p + |image.words| == |Flat(before + [image])| <= |Flat(items)|
            && Run(items, p, sem, s)
               == match sem(image.part.instr, image.part.at, s)
                  case Next(t) => Run(items, p + |image.words|, sem, t)
                  case Taken(t, addr) => Left(t, addr)
  {
    hide SignExtend, CondHolds;
    assert image in before + [image];
    ItemAtEndOf(before, image, after);
    FlatAppend(before, [image]);
    FlatAppend(before + [image], after);
    FlatOne(image);
  }

  /** Running an arm runs its instructions, and then whatever is behind the arm. */
  lemma {:induction false} ArmRuns<T>(before: seq<Item>, arm: seq<Item>, after: seq<Item>, parts: seq<Part>,
                                      sem: Meaning<T>, s: Core<T>)
    requires forall x | x in before + arm :: ItemWords(x) != []
    requires |arm| == |parts| && forall i | 0 <= i < |arm| :: arm[i].Image? && arm[i].part == parts[i]
    ensures var items, r := before + arm + after, RunStraight(parts, sem, s);
            Run(items, |Flat(before)|, sem, s)
            == if r.Done? then Run(items, |Flat(before + arm)|, sem, r.core) else r
    decreases |arm|
  {
    hide ItemAt, Flat, Run;
    if arm == [] {
      assert before + arm == before;
    } else {
      var one := before + [arm[0]];
      assert before + arm + after == one + (arm[1..] + after) && before + arm + after == one + arm[1..] + after;
      assert one + arm[1..] == before + arm;
      ImageRuns(before, arm[0], arm[1..] + after, sem, s);
      match sem(parts[0].instr, parts[0].at, s)
      case Next(t) => ArmRuns(one, arm[1..], after, parts[1..], sem, t);
      case Taken(_, _) =>
    }
  }

  // The two branches.

  lemma {:induction false} SumUpTo32(lens: seq<nat>)
    requires forall i | 0 <= i < |lens| :: lens[i] <= 32
    ensures Sum(lens) <= 32 * |lens|
  {
    if lens != [] {
      SumUpTo32(lens[..|lens| - 1]);
    }
  }

  /** The arms are short enough for the branches over them: at most 3 and 4 instructions of at most 32 bytes. */
  lemma ArmsAreShort(it: It, target: Word32, info: Info)
    requires BlockRewritable(it, target, info) && NoNestedIt(it)
    requires it.elseCount <= 3 && |it.parts| <= 4
    ensures 4 + 2 * |ElseWords(it, target, info)| <= 100
    ensures 2 * |ThenWords(it, target, info)| <= 128
  {
    hide TableLen, ElseWords, ThenWords, BlockRewritable, NoNestedIt;
    BlockLength(it, target, info);
    forall i | 0 <= i < |it.parts| ensures PartLens(it.parts)[i] <= 32 {
      TableLenIsAligned(it.parts[i].instr);
    }
    SumUpTo32(PartLens(it.parts)[..it.elseCount]);
    SumUpTo32(PartLens(it.parts)[it.elseCount..]);
  }

  lemma ElseBranchDecodes(firstCond: nat, armHalves: nat)
    requires firstCond < 16 && 4 + 2 * armHalves <= 254
    ensures var h := ItElse(firstCond, 4 + 2 * armHalves);
            && h != NOP && h / 0x1000 == 0xD && h / 0x100 % 0x10 == firstCond
            && SignExtend(h % 0x100, 0x100) == 2 + armHalves
  {
  }

  lemma ThenBranchDecodes(armHalves: nat)
    requires 2 * armHalves <= 2046
    ensures var h := ItThen(2 * armHalves);
            && h != NOP && h / 0x1000 == 0xE && h / 0x800 == 0x1C
            && SignExtend(h % 0x800, 0x800) == armHalves
  {
  }

  lemma WordAt(before: seq<Item>, word: Item, after: seq<Item>)
    requires forall x | x in before :: ItemWords(x) != []
    requires word.Word?
    ensures var items := before + [word] + after;
            && ItemAt(items, |Flat(before)|) == [word]
            && |Flat(before + [word])| == |Flat(before)| + 1 <= |Flat(items)|
  {
    hide Flat, ItemAt;
    ItemAtEndOf(before, word, after);
    FlatAppend(before, [word]);
    FlatAppend(before + [word], after);
    FlatOne(word);
  }

  lemma CondBranchRuns<T>(before: seq<Item>, h: Half, after: seq<Item>, dist: nat, sem: Meaning<T>, s: Core<T>)
    requires forall x | x in before :: ItemWords(x) != []
    requires h != NOP && h / 0x1000 == 0xD && h / 0x100 % 0x10 < 14 && SignExtend(h % 0x100, 0x100) == dist
    ensures var items, p := before + [Word(h)] + after, |Flat(before)|;
            Run(items, p, sem, s)
            == if CondHolds(h / 0x100 % 0x10, s.flags) then Run(items, p + 2 + dist, sem, s) else Run(items, p + 1, sem, s)
  {
    hide Flat, ItemAt, SignExtend, CondHolds;
    WordAt(before, Word(h), after);
  }

  lemma BranchRuns<T>(before: seq<Item>, h: Half, after: seq<Item>, dist: nat, sem: Meaning<T>, s: Core<T>)
    requires forall x | x in before :: ItemWords(x) != []
    requires h != NOP && h / 0x1000 == 0xE && h / 0x800 == 0x1C && SignExtend(h % 0x800, 0x800) == dist
    ensures var items, p := before + [Word(h)] + after, |Flat(before)|;
            Run(items, p, sem, s) == Run(items, p + 2 + dist, sem, s)
  {
    hide Flat, ItemAt, SignExtend, CondHolds;
    WordAt(before, Word(h), after);
  }

  lemma NopRuns<T>(before: seq<Item>, after: seq<Item>, sem: Meaning<T>, s: Core<T>)
    requires forall x | x in before :: ItemWords(x) != []
    ensures var items, p := before + [Word(NOP)] + after, |Flat(before)|;
            Run(items, p, sem, s) == Run(items, p + 1, sem, s)
  {
    hide Flat, ItemAt, SignExtend, CondHolds;
    WordAt(before, Word(NOP), after);
  }

  /** B<c> lands on the first instruction of the THEN arm. */
  lemma ElseBranchLands<T>(it: It, target: Word32, info: Info, sem: Meaning<T>, s: Core<T>)
    requires it.firstCond < 14
    requires BlockRewritable(it, target, info) && NoNestedIt(it) && it.elseCount <= 3 && |it.parts| <= 4
    ensures var items, elses := BlockItems(it, target, info), |ElseWords(it, target, info)|;
            Run(items, 0, sem, s)
            == (if CondHolds(it.firstCond, s.flags) then Run(items, 4 + elses, sem, s) else Run(items, 2, sem, s))
  {
    hide Flat, SignExtend, ItElse, ItThen, CondHolds, ArmItems, ElseWords, ThenWords, BlockRewritable, NoNestedIt, Run;
    var elses := |ElseWords(it, target, info)|;
    var items, h := BlockItems(it, target, info), ItElse(it.firstCond, 4 + 2 * elses);
    ArmsAreShort(it, target, info);
    ElseBranchDecodes(it.firstCond, elses);
    assert items == [] + [Word(h)] + items[1..] && items == [Word(h)] + [Word(NOP)] + items[2..];
    FlatNothing();
    FlatOne(Word(h));
    CondBranchRuns([], h, items[1..], 2 + elses, sem, s);
    NopRuns([Word(h)], items[2..], sem, s);
  }

  /** B lands on the end of the block. */
  lemma ThenBranchLands<T>(it: It, target: Word32, info: Info, sem: Meaning<T>, s: Core<T>)
    requires BlockRewritable(it, target, info) && NoNestedIt(it) && it.elseCount <= 3 && |it.parts| <= 4
    ensures Run(BlockItems(it, target, info), 2 + |ElseWords(it, target, info)|, sem, s) == Done(s)
  {
    hide Flat, SignExtend, ItElse, ItThen, CondHolds, ArmItems, ElseWords, ThenWords, BlockRewritable, NoNestedIt, Run;
    var elses, thens := |ElseWords(it, target, info)|, |ThenWords(it, target, info)|;
    var items, n := BlockItems(it, target, info), it.elseCount;
    ArmsAreShort(it, target, info);
    ThenBranchDecodes(thens);
    BlockItemsFilled(it, target, info);
    BlockItemsMeasure(it, target, info);
    var h := ItThen(2 * thens);
    assert items == items[..2 + n] + [Word(h)] + items[3 + n..];
    BranchRuns(items[..2 + n], h, items[3 + n..], thens, sem, s);
    RunsOut(items, sem, s);
  }

  lemma RunsOut<T>(items: seq<Item>, sem: Meaning<T>, s: Core<T>)
    ensures Run(items, |Flat(items)|, sem, s) == Done(s)
  {
    hide Flat;
  }

  lemma BlockItemsMeasure(it: It, target: Word32, info: Info)
    ensures var items, n := BlockItems(it, target, info), it.elseCount;
            var elses, thens := |ElseWords(it, target, info)|, |ThenWords(it, target, info)|;
            && |items| == 4 + |it.parts|
            && |Flat(items[..2])| == 2
            && |Flat(items[..2 + n])| == 2 + elses
            && |Flat(items[..4 + n])| == 4 + elses
            && |Flat(items)| == 4 + elses + thens
  {
    hide Flat, ItElse, ItThen, ArmItems, ElseWords, ThenWords, PartWords, Concat;
    var items, n := BlockItems(it, target, info), it.elseCount;
    ItemsAreTheCode(it, target, info);
    ElseWordsAre(it, target, info);
    ArmItemsFlat(it.parts[..n], target, info);
    var arm0 := ArmItems(it.parts[..n], target, info);
    assert items[..2] == [items[0], items[1]] && items[..2 + n] == items[..2] + arm0;
    assert items[..4 + n] == items[..2 + n] + [items[2 + n], items[3 + n]];
    FlatTwo(items[0], items[1]);
    FlatAppend(items[..2], arm0);
    FlatTwo(items[2 + n], items[3 + n]);
    FlatAppend(items[..2 + n], [items[2 + n], items[3 + n]]);
  }

  lemma FlatNothing()
    ensures Flat([]) == []
  {
  }

  lemma ElseWordsAre(it: It, target: Word32, info: Info)
    ensures ElseWords(it, target, info) == Concat(PartWords(it.parts[..it.elseCount], target, info))
    ensures ThenWords(it, target, info) == Concat(PartWords(it.parts[it.elseCount..], target, info))
  {
  }

  lemma BlockItemsFilled(it: It, target: Word32, info: Info)
    requires BlockRewritable(it, target, info)
    ensures forall x | x in BlockItems(it, target, info) :: ItemWords(x) != []
  {
    hide Rewrite, ItElse, ItThen, ElseWords, ThenWords;
    var n := it.elseCount;
    ArmsCover(it, target, info);
    ArmFilled(it.parts[..n], target, info);
    ArmFilled(it.parts[n..], target, info);
  }

  lemma ArmFilled(parts: seq<Part>, target: Word32, info: Info)
    requires [] !in PartWords(parts, target, info)
    ensures forall x | x in ArmItems(parts, target, info) :: ItemWords(x) != []
  {
    hide Rewrite;
    forall i | 0 <= i < |parts| ensures ItemWords(ArmItems(parts, target, info)[i]) != [] {
      assert PartWords(parts, target, info)[i] in PartWords(parts, target, info);
    }
  }

  /** For any instructions at all: the code runs one arm, from start to end, and then goes on behind the block. */
  lemma BlockRunsOneArm<T>(it: It, target: Word32, info: Info, sem: Meaning<T>, s: Core<T>)
    requires it.firstCond < 14
    requires BlockRewritable(it, target, info) && NoNestedIt(it) && it.elseCount <= 3 && |it.parts| <= 4
    ensures Run(BlockItems(it, target, info), 0, sem, s)
            == RunStraight(if CondHolds(it.firstCond, s.flags) then it.parts[it.elseCount..] else it.parts[..it.elseCount],
                           sem, s)
  {
    hide Flat, Run, RunStraight, ItElse, ItThen, CondHolds, ElseWords, ThenWords, BlockRewritable, NoNestedIt, Rewrite;
    var items, n := BlockItems(it, target, info), it.elseCount;
    ElseBranchLands(it, target, info, sem, s);
    BlockItemsFilled(it, target, info);
    BlockItemsMeasure(it, target, info);
    if CondHolds(it.firstCond, s.flags) {
      assert items == items[..4 + n] + items[4 + n..] + [];
      assert items[..4 + n] + items[4 + n..] == items;
      ArmRuns(items[..4 + n], items[4 + n..], [], it.parts[n..], sem, s);
      var r := RunStraight(it.parts[n..], sem, s);
      if r.Done? {
        RunsOut(items, sem, r.core);
      }
    } else {
      assert items == items[..2] + items[2..2 + n] + items[2 + n..];
      assert items[..2] + items[2..2 + n] == items[..2 + n];
      ArmRuns(items[..2], items[2..2 + n], items[2 + n..], it.parts[..n], sem, s);
      var r := RunStraight(it.parts[..n], sem, s);
      if r.Done? {
        ThenBranchLands(it, target, info, sem, r.core);
      }
    }
  }

  // What may happen to the flags. An instruction that writes them in its block may turn the condition of those behind it;
  // and one that writes them only outside a block, as most 16-bit encodings do, writes them once it is moved.

  /** In the block, only the instructions at the halfwords `writers` write flags. */
  ghost predicate KeepsFlags<T(!new)>(parts: seq<Part>, writers: set<nat>, sem: Meaning<T>) {
    forall part, s: Core<T> | part in parts && part.at !in writers ::
      var out := sem(part.instr, part.at, s);
      out.Next? ==> out.core.flags == s.flags
  }

  ghost predicate SameButFlags<T>(a: Outcome<T>, b: Outcome<T>) {
    match (a, b)
    case (Next(x), Next(y)) => x.rest == y.rest
    case (Taken(x, m), Taken(y, n)) => x.rest == y.rest && m == n
    case _ => false
  }

  /** Outside the block, only the instructions at `setters` do anything else than inside: they write other flags. */
  ghost predicate MovesWell<T(!new)>(parts: seq<Part>, setters: set<nat>, inside: Meaning<T>, moved: Meaning<T>) {
    forall part, s: Core<T> | part in parts ::
      var was, after := inside(part.instr, part.at, s), moved(part.instr, part.at, s);
      if part.at in setters then SameButFlags(was, after) else was == after
  }

  lemma {:induction false} OnlyAppend(a: seq<Part>, b: seq<Part>, isElse: bool)
    ensures Only(a + b, isElse) == Only(a, isElse) + Only(b, isElse)
  {
    if b == [] {
      assert a + b == a;
    } else {
      var front := b[..|b| - 1];
      var tail := if b[|front|].isElse == isElse then [b[|front|]] else [];
      OnlyAppend(a, front, isElse);
      assert (a + b)[..|a + b| - 1] == a + front;
      assert Only(a + b, isElse) == Only(a + front, isElse) + tail && Only(b, isElse) == Only(front, isElse) + tail;
    }
  }

  lemma OnlyFront(part: Part, rest: seq<Part>, isElse: bool)
    ensures Only([part] + rest, isElse) == (if part.isElse == isElse then [part] else []) + Only(rest, isElse)
  {
    OnlyAppend([part], rest, isElse);
    assert [part][..0] == [];
  }

  /** The lowest bit of a condition negates it. */
  lemma CondsAreOpposite(firstCond: nat, part: Part, f: Flags)
    requires firstCond < 14
    ensures CondHolds(PartCond(firstCond, part), f) == (CondHolds(firstCond, f) != part.isElse)
  {
    assert PartCond(firstCond, part) / 2 == firstCond / 2;
  }

  /** No instruction but the last one may turn the condition. */
  predicate OnlyLastWrites(parts: seq<Part>, writers: set<nat>) {
    forall i | 0 <= i < |parts| - 1 :: parts[i].at !in writers
  }

  lemma {:induction false} BlockIsOneArm<T(!new)>(parts: seq<Part>, firstCond: nat, writers: set<nat>, sem: Meaning<T>,
                                                  s: Core<T>)
    requires firstCond < 14 && KeepsFlags(parts, writers, sem) && OnlyLastWrites(parts, writers)
    ensures RunBlock(parts, firstCond, sem, s) == RunStraight(Only(parts, !CondHolds(firstCond, s.flags)), sem, s)
    decreases |parts|
  {
    hide CondHolds, PartCond, Only;
    if parts == [] {
      assert Only(parts, !CondHolds(firstCond, s.flags)) <= parts by { NothingOnly(!CondHolds(firstCond, s.flags)); }
    } else {
      var part, rest := parts[0], parts[1..];
      assert parts == [part] + rest && part in parts;
      OnlyFront(part, rest, !CondHolds(firstCond, s.flags));
      CondsAreOpposite(firstCond, part, s.flags);
      assert KeepsFlags(rest, writers, sem);
      assert OnlyLastWrites(rest, writers) by {
        assert forall i | 0 <= i < |rest| - 1 :: rest[i] == parts[i + 1];
      }
      if CondHolds(firstCond, s.flags) == part.isElse {
        BlockIsOneArm(rest, firstCond, writers, sem, s);
        assert [] + Only(rest, !part.isElse) == Only(rest, !part.isElse);
      } else {
        var out := sem(part.instr, part.at, s);
        assert ([part] + Only(rest, part.isElse))[1..] == Only(rest, part.isElse);
        if out.Next? {
          BlockIsOneArm(rest, firstCond, writers, sem, out.core);
          if rest == [] {
            NothingOnly(part.isElse);
            NothingOnly(!CondHolds(firstCond, out.core.flags));
          }
        }
      }
    }
  }

  lemma NothingOnly(isElse: bool)
    ensures Only([], isElse) == []
  {
  }

  lemma {:induction false} OnlyFrom(parts: seq<Part>, isElse: bool)
    ensures forall part | part in Only(parts, isElse) :: part in parts
  {
    if parts != [] {
      OnlyFrom(parts[..|parts| - 1], isElse);
    }
  }

  /** An arm does outside what it does inside, if each of its instructions does. */
  lemma {:induction false} ArmMovesWell<T(!new)>(parts: seq<Part>, inside: Meaning<T>, moved: Meaning<T>, s: Core<T>)
    requires MovesWell(parts, {}, inside, moved)
    ensures RunStraight(parts, inside, s) == RunStraight(parts, moved, s)
    decreases |parts|
  {
    if parts != [] {
      var out := inside(parts[0].instr, parts[0].at, s);
      assert parts[0] in parts;
      assert moved(parts[0].instr, parts[0].at, s) == out;
      if out.Next? {
        assert MovesWell(parts[1..], {}, inside, moved);
        ArmMovesWell(parts[1..], inside, moved, out.core);
      }
    }
  }

  /** The encoding leaves no block with condition 1111. */
  lemma FirstCondOfIt(it: Half)
    requires IsIt(T16(it))
    ensures FirstCond(it) < 15
  {
    hide And;
    AndBy16(it, 0xF);
    AndLow4(it / 16);
  }

  lemma AlwaysBlockTraps<T>(it: It, target: Word32, info: Info, sem: Meaning<T>, s: Core<T>)
    requires it.firstCond == 14
    requires BlockRewritable(it, target, info) && NoNestedIt(it) && it.elseCount <= 3 && |it.parts| <= 4
    ensures Run(BlockItems(it, target, info), 0, sem, s) == Undefined
  {
    hide Flat, SignExtend, ItElse, ItThen, ArmItems, ElseWords, ThenWords, BlockRewritable, NoNestedIt, CondHolds;
    var elses := |ElseWords(it, target, info)|;
    var items, h := BlockItems(it, target, info), ItElse(14, 4 + 2 * elses);
    ArmsAreShort(it, target, info);
    ElseBranchDecodes(14, elses);
    assert items == [] + [Word(h)] + items[1..];
    FlatNothing();
    WordAt([], Word(h), items[1..]);
  }

  /** What is asked of the code: it was parsed as a block, and every instruction of it could be rewritten. */
  ghost predicate IsSplit(code: Code, k: nat, target: Word32, info: Info) {
    IsIt(T16(code(k))) && BlockRewritable(ItAt(code, k), target, info) && NoNestedIt(ItAt(code, k))
  }

  /** The split block, where the instructions act as `moved`, does what the block does, where they act as `inside`. */
  ghost predicate SplitIsRight<T>(code: Code, k: nat, target: Word32, info: Info, inside: Meaning<T>, moved: Meaning<T>,
                                  s: Core<T>)
  {
    Run(BlockItems(ItAt(code, k), target, info), 0, moved, s) == RunBlock(AllParts(code, k), FirstCond(code(k)), inside, s)
  }

  /** The exact condition: the block is not unconditional, none but its last instruction writes flags in the block, and
      none writes flags only when it is moved. */
  predicate MaySplit(code: Code, k: nat, writers: set<nat>, setters: set<nat>) {
    && FirstCond(code(k)) != 14
    && OnlyLastWrites(AllParts(code, k), writers)
    && forall part | part in AllParts(code, k) :: part.at !in setters
  }

  /** Under that condition splitting preserves the meaning of the block, for all instructions and in every state. */
  lemma SplitKeepsMeaning<T(!new)>(code: Code, k: nat, target: Word32, info: Info, writers: set<nat>, setters: set<nat>,
                                   inside: Meaning<T>, moved: Meaning<T>, s: Core<T>)
    requires IsSplit(code, k, target, info) && MaySplit(code, k, writers, setters)
    requires KeepsFlags(AllParts(code, k), writers, inside) && MovesWell(AllParts(code, k), setters, inside, moved)
    ensures SplitIsRight(code, k, target, info, inside, moved, s)
  {
    hide IsIt, AllParts, BlockRewritable, NoNestedIt, BlockItems, Run, RunStraight, CondHolds, FirstCond, Only, ItCount,
         KeepsFlags, OnlyLastWrites;
    var it, all := ItAt(code, k), AllParts(code, k);
    FirstCondOfIt(code(k));
    ParsedBlock(code, k);
    ThenArmIsNotEmpty(code, k);
    var arm := Only(all, !CondHolds(FirstCond(code(k)), s.flags));
    BlockRunsOneArm(it, target, info, moved, s);
    BlockIsOneArm(all, FirstCond(code(k)), writers, inside, s);
    OnlyFrom(all, !CondHolds(FirstCond(code(k)), s.flags));
    ArmMovesWell(arm, inside, moved, s);
  }

  // Without it there are instructions, within what is allowed, and a state that show the difference.

  /** Flags under which a condition holds, or does not. */
  function FlagsFor(firstCond: nat, holds: bool): (f: Flags)
    requires firstCond < 14
    ensures CondHolds(firstCond, f) == holds
  {
    var base := holds == (firstCond % 2 == 0);
    if firstCond / 2 == 0 then Flags(true, base, true, true)
    else if base then Flags(true, false, true, true)
    else Flags(firstCond / 2 >= 5, false, false, false)
  }

  // Every instruction is logged; those at `turns` also set the flags to `f`.
  function Logging(turns: set<nat>, f: Flags): Meaning<seq<nat>> {
    (instr: Instr, here: nat, s: Core<seq<nat>>) => Next(Core(if here in turns then f else s.flags, s.rest + [here]))
  }

  function Places(parts: seq<Part>): (ats: seq<nat>)
    ensures |ats| == |parts|
  {
    seq(|parts|, (i: nat) requires i < |parts| => parts[i].at)
  }

  predicate Turned(parts: seq<Part>, turns: set<nat>) {
    exists part | part in parts :: part.at in turns
  }

  lemma {:induction false} StraightLogs(parts: seq<Part>, turns: set<nat>, f: Flags, s: Core<seq<nat>>)
    ensures RunStraight(parts, Logging(turns, f), s)
            == Done(Core(if Turned(parts, turns) then f else s.flags, s.rest + Places(parts)))
    decreases |parts|
  {
    if parts != [] {
      var here := parts[0].at;
      var t := Core(if here in turns then f else s.flags, s.rest + [here]);
      assert Logging(turns, f)(parts[0].instr, here, s) == Next(t);
      StraightLogs(parts[1..], turns, f, t);
      assert Places(parts) == [here] + Places(parts[1..]);
      assert s.rest + [here] + Places(parts[1..]) == s.rest + Places(parts);
      assert Turned(parts, turns) <==> here in turns || Turned(parts[1..], turns) by {
        assert parts == [parts[0]] + parts[1..];
      }
    } else {
      assert s.rest + Places(parts) == s.rest;
    }
  }

  lemma {:induction false} PartsAscend(code: Code, k: nat, n: nat)
    requires n <= ItCount(code(k))
    ensures forall i, j | 0 <= i < j < n :: PartsOf(code, k, n)[i].at < PartsOf(code, k, n)[j].at
    ensures forall i | 0 <= i < n :: PartsOf(code, k, n)[i].at < k + 1 + PartHalves(PartsOf(code, k, n))
    decreases n
  {
    if n > 0 {
      PartsAscend(code, k, n - 1);
      PartHalvesSnoc(PartsOf(code, k, n - 1), PartsOf(code, k, n)[n - 1]);
    }
  }

  predicate DistinctPlaces(parts: seq<Part>) {
    forall i, j | 0 <= i < j < |parts| :: parts[i].at != parts[j].at
  }

  /** A block with condition AL. */
  lemma UnconditionalBreaks(code: Code, k: nat, target: Word32, info: Info, s: Core<seq<nat>>)
    requires IsSplit(code, k, target, info) && FirstCond(code(k)) == 14
    ensures !SplitIsRight(code, k, target, info, Logging({}, s.flags), Logging({}, s.flags), s)
  {
    hide IsIt, AllParts, BlockRewritable, NoNestedIt, BlockItems, Run, FirstCond, Only, ItCount;
    ParsedBlock(code, k);
    ThenArmIsNotEmpty(code, k);
    AlwaysBlockTraps(ItAt(code, k), target, info, Logging({}, s.flags), s);
  }

  /** An instruction that writes flags once it is moved. */
  lemma SetterBreaks(code: Code, k: nat, target: Word32, info: Info, part: Part) returns (s: Core<seq<nat>>, f: Flags)
    requires IsSplit(code, k, target, info) && FirstCond(code(k)) < 14 && part in AllParts(code, k)
    ensures !SplitIsRight(code, k, target, info, Logging({}, f), Logging({part.at}, f), s)
  {
    hide IsIt, AllParts, BlockRewritable, NoNestedIt, BlockItems, Run, RunStraight, CondHolds, FirstCond, Only, ItCount;
    var it, all, cond := ItAt(code, k), AllParts(code, k), FirstCond(code(k));
    s := Core(FlagsFor(cond, !part.isElse), []);
    f := s.flags.(n := !s.flags.n);
    ParsedBlock(code, k);
    ThenArmIsNotEmpty(code, k);
    var arm := Only(all, part.isElse);
    BlockRunsOneArm(it, target, info, Logging({part.at}, f), s);
    BlockIsOneArm(all, cond, {}, Logging({}, f), s);
    StraightLogs(arm, {part.at}, f, s);
    StraightLogs(arm, {}, f, s);
    var i: nat :| i < |all| && all[i] == part;
    OnlyHas(all, i);
    assert Turned(arm, {part.at}) && !Turned(arm, {});
  }

  lemma {:induction false} RunBlockAppend<T>(a: seq<Part>, b: seq<Part>, firstCond: nat, sem: Meaning<T>, s: Core<T>)
    requires firstCond < 16
    ensures var r := RunBlock(a, firstCond, sem, s);
            RunBlock(a + b, firstCond, sem, s) == if r.Done? then RunBlock(b, firstCond, sem, r.core) else r
    decreases |a|
  {
    hide CondHolds, PartCond;
    if a == [] {
      assert a + b == b;
    } else {
      assert (a + b)[1..] == a[1..] + b;
      RunBlockAppend(a[1..], b, firstCond, sem, s);
      var out := sem(a[0].instr, a[0].at, s);
      if out.Next? {
        RunBlockAppend(a[1..], b, firstCond, sem, out.core);
      }
    }
  }

  /** What a block does in which `part` turns the condition. */
  lemma TurningLogs(before: seq<Part>, part: Part, rest: seq<Part>, firstCond: nat, f: Flags, s: Core<seq<nat>>)
    requires firstCond < 14 && DistinctPlaces(before + [part] + rest)
    requires CondHolds(firstCond, s.flags) != part.isElse && CondHolds(firstCond, f) == part.isElse
    ensures RunBlock(before + [part] + rest, firstCond, Logging({part.at}, f), s)
            == Done(Core(f, s.rest + Places(Only(before, part.isElse)) + [part.at] + Places(Only(rest, !part.isElse))))
  {
    hide CondHolds, PartCond, Only, RunStraight, Turned;
    var sem, all := Logging({part.at}, f), before + [part] + rest;
    forall q | q in before || q in rest ensures q.at != part.at {
      OthersElsewhere(before, part, rest, q);
    }
    assert all == before + ([part] + rest);
    RunBlockAppend(before, [part] + rest, firstCond, sem, s);
    BlockIsOneArm(before, firstCond, {}, sem, s);
    NotTurned(before, part.isElse, part.at);
    StraightLogs(Only(before, part.isElse), {part.at}, f, s);
    var t := Core(s.flags, s.rest + Places(Only(before, part.isElse)));
    CondsAreOpposite(firstCond, part, t.flags);
    assert ([part] + rest)[0] == part && ([part] + rest)[1..] == rest;
    var u := Core(f, t.rest + [part.at]);
    assert sem(part.instr, part.at, t) == Next(u);
    BlockIsOneArm(rest, firstCond, {}, sem, u);
    StraightLogs(Only(rest, !part.isElse), {part.at}, f, u);
  }

  lemma OthersElsewhere(before: seq<Part>, part: Part, rest: seq<Part>, q: Part)
    requires DistinctPlaces(before + [part] + rest) && (q in before || q in rest)
    ensures q.at != part.at
  {
    var all := before + [part] + rest;
    assert all[|before|] == part;
    if q in before {
      var i :| 0 <= i < |before| && before[i] == q;
      assert all[i] == q;
    } else {
      var i :| 0 <= i < |rest| && rest[i] == q;
      assert all[|before| + 1 + i] == q;
    }
  }

  lemma NotTurned(parts: seq<Part>, isElse: bool, at: nat)
    requires forall q | q in parts :: q.at != at
    ensures !Turned(Only(parts, isElse), {at})
  {
    OnlyFrom(parts, isElse);
  }

  /** The two arms behind the part that turns the condition are told apart by the first instruction there. */
  lemma ArmsDiffer(rest: seq<Part>)
    requires rest != [] && DistinctPlaces(rest)
    ensures forall isElse :: Places(Only(rest, isElse)) != Places(Only(rest, !isElse))
  {
    var q := rest[0];
    OnlyHas(rest, 0);
    var own, other := Only(rest, q.isElse), Only(rest, !q.isElse);
    var i: nat :| i < |own| && own[i] == q;
    if Places(own) == Places(other) {
      assert Places(own)[i] == q.at && Places(other)[i] == other[i].at;
      OnlyKeeps(rest, !q.isElse, other[i]);
      var j: nat :| j < |rest| && rest[j] == other[i];
    }
  }

  lemma {:induction false} OnlyKeeps(parts: seq<Part>, isElse: bool, part: Part)
    requires part in Only(parts, isElse)
    ensures part in parts && part.isElse == isElse
  {
    if parts != [] && part in Only(parts[..|parts| - 1], isElse) {
      OnlyKeeps(parts[..|parts| - 1], isElse, part);
    }
  }

  lemma {:induction false} OnlyAround(before: seq<Part>, part: Part, rest: seq<Part>)
    ensures Only(before + [part] + rest, part.isElse) == Only(before, part.isElse) + [part] + Only(rest, part.isElse)
  {
    hide Only;
    OnlyAppend(before + [part], rest, part.isElse);
    OnlyAppend(before, [part], part.isElse);
    NothingOnly(part.isElse);
    OnlyFront(part, [], part.isElse);
    assert [part] + [] == [part];
  }

  lemma PlacesAppend(a: seq<Part>, b: seq<Part>)
    ensures Places(a + b) == Places(a) + Places(b)
  {
  }

  lemma TurningDiffers(before: seq<Part>, part: Part, rest: seq<Part>, firstCond: nat, f: Flags, s: Core<seq<nat>>)
    requires firstCond < 14 && DistinctPlaces(before + [part] + rest) && rest != [] && s.rest == []
    requires CondHolds(firstCond, s.flags) != part.isElse && CondHolds(firstCond, f) == part.isElse
    ensures var all, sem := before + [part] + rest, Logging({part.at}, f);
            RunBlock(all, firstCond, sem, s) != RunStraight(Only(all, part.isElse), sem, s)
  {
    hide RunStraight, RunBlock, CondHolds, Only, Places, Turned, Logging;
    var all := before + [part] + rest;
    StraightLogs(Only(all, part.isElse), {part.at}, f, s);
    TurningLogs(before, part, rest, firstCond, f, s);
    OnlyAround(before, part, rest);
    var own, other := Only(rest, part.isElse), Only(rest, !part.isElse);
    PlacesAppend(Only(before, part.isElse) + [part], own);
    PlacesAppend(Only(before, part.isElse), [part]);
    RestIsDistinct(before + [part], rest);
    ArmsDiffer(rest);
    LogsDiffer(Places(Only(before, part.isElse)), Places([part]), Places(own), Places(other));
    PlaceOf(part);
  }

  lemma RestIsDistinct(front: seq<Part>, rest: seq<Part>)
    requires DistinctPlaces(front + rest)
    ensures DistinctPlaces(rest)
  {
    var all := front + rest;
    assert forall m, n | 0 <= m < n < |rest| :: rest[m] == all[|front| + m] && rest[n] == all[|front| + n];
  }

  /** An instruction that writes flags in the block, with others behind it. */
  lemma WriterBreaks(code: Code, k: nat, target: Word32, info: Info, i: nat) returns (s: Core<seq<nat>>, f: Flags)
    requires IsSplit(code, k, target, info) && FirstCond(code(k)) < 14 && i < |AllParts(code, k)| - 1
    ensures var sem := Logging({AllParts(code, k)[i].at}, f); !SplitIsRight(code, k, target, info, sem, sem, s)
  {
    hide IsIt, BlockRewritable, NoNestedIt, BlockItems, Run, RunStraight, RunBlock, CondHolds, FirstCond, Only, Logging;
    var it, all, cond := ItAt(code, k), AllParts(code, k), FirstCond(code(k));
    PartsAscend(code, k, ItCount(code(k)));
    ParsedBlock(code, k);
    ThenArmIsNotEmpty(code, k);
    hide ItAt, AllParts, ItCount;
    var before, part, rest := all[..i], all[i], all[i + 1..];
    assert all == before + [part] + rest;
    s, f := Core(FlagsFor(cond, !part.isElse), []), FlagsFor(cond, part.isElse);
    BlockRunsOneArm(it, target, info, Logging({part.at}, f), s);
    TurningDiffers(before, part, rest, cond, f, s);
  }

  lemma PlaceOf(part: Part)
    ensures Places([part]) == [part.at]
  {
  }

  lemma LogsDiffer(a: seq<nat>, b: seq<nat>, c: seq<nat>, d: seq<nat>)
    requires c != d
    ensures [] + (a + b + c) != [] + a + b + d
  {
    assert (a + b + c)[|a| + |b|..] == c;
    assert ([] + a + b + d)[|a| + |b|..] == d;
  }

  /** Right for all instructions that are allowed, in every state. */
  ghost predicate AlwaysRight(code: Code, k: nat, target: Word32, info: Info, writers: set<nat>, setters: set<nat>) {
    forall inside: Meaning<seq<nat>>, moved: Meaning<seq<nat>>, s: Core<seq<nat>> ::
      KeepsFlags(AllParts(code, k), writers, inside) && MovesWell(AllParts(code, k), setters, inside, moved) ==>
        SplitIsRight(code, k, target, info, inside, moved, s)
  }

  lemma LoggingIsAllowed(parts: seq<Part>, writers: set<nat>, setters: set<nat>, turns: set<nat>, f: Flags)
    ensures turns <= writers ==>
              KeepsFlags(parts, writers, Logging(turns, f)) && MovesWell(parts, setters, Logging(turns, f), Logging(turns, f))
    ensures turns <= setters ==>
              KeepsFlags(parts, writers, Logging({}, f)) && MovesWell(parts, setters, Logging({}, f), Logging(turns, f))
  {
  }

  /** Splitting a block is right for all instructions exactly when the condition holds. */
  lemma MaySplitIsExact(code: Code, k: nat, target: Word32, info: Info, writers: set<nat>, setters: set<nat>)
    requires IsSplit(code, k, target, info)
    ensures AlwaysRight(code, k, target, info, writers, setters) <==> MaySplit(code, k, writers, setters)
  {
    hide IsSplit, KeepsFlags, MovesWell, SplitIsRight, Logging, FirstCond, AllParts;
    var all := AllParts(code, k);
    if MaySplit(code, k, writers, setters) {
      forall inside: Meaning<seq<nat>>, moved: Meaning<seq<nat>>, s: Core<seq<nat>>
        | KeepsFlags(all, writers, inside) && MovesWell(all, setters, inside, moved)
        ensures SplitIsRight(code, k, target, info, inside, moved, s)
      {
        SplitKeepsMeaning(code, k, target, info, writers, setters, inside, moved, s);
      }
    } else {
      SplitFails(code, k, target, info, writers, setters);
    }
  }

  lemma SplitFails(code: Code, k: nat, target: Word32, info: Info, writers: set<nat>, setters: set<nat>)
    requires IsSplit(code, k, target, info) && !MaySplit(code, k, writers, setters)
    ensures !AlwaysRight(code, k, target, info, writers, setters)
  {
    hide KeepsFlags, MovesWell, SplitIsRight, Logging, FirstCond, AllParts, BlockRewritable, NoNestedIt, IsIt;
    var all := AllParts(code, k);
    FirstCondOfIt(code(k));
    if FirstCond(code(k)) == 14 {
      var s := Core(Flags(false, false, false, false), []);
      UnconditionalBreaks(code, k, target, info, s);
      LoggingIsAllowed(all, writers, setters, {}, s.flags);
    } else if part :| part in all && part.at in setters {
      var s, f := SetterBreaks(code, k, target, info, part);
      LoggingIsAllowed(all, writers, setters, {part.at}, f);
    } else {
      var i: nat :| i < |all| - 1 && all[i].at in writers;
      var s, f := WriterBreaks(code, k, target, info, i);
      LoggingIsAllowed(all, writers, setters, {all[i].at}, f);
    }
  }

  // The 16-bit encodings that set the flags exactly when they stand outside IT blocks (section A8.8 of DDI 0406, where
  // setflags is !InITBlock()): shifts, ADD, SUB and MOV with low registers, and data processing but for TST, CMP and CMN.

  predicate SetsFlagsWhenMoved(i: Instr) {
    i.T16? && ((i.inst < 0x4000 && i.inst / 0x800 != 5) || (i.inst / 0x400 == 0x10 && i.inst / 0x40 % 0x10 !in {8, 10, 11}))
  }

  function Setters(parts: seq<Part>): set<nat> {
    set part | part in parts && SetsFlagsWhenMoved(part.instr) :: part.at
  }

  /** A block with such an instruction in it is split all the same, and that is not right for what it may do. */
  lemma LowRegistersBreak(code: Code, k: nat, target: Word32, info: Info, writers: set<nat>, part: Part)
    requires IsSplit(code, k, target, info) && part in AllParts(code, k) && SetsFlagsWhenMoved(part.instr)
    ensures !AlwaysRight(code, k, target, info, writers, Setters(AllParts(code, k)))
  {
    hide IsSplit, AlwaysRight, AllParts, FirstCond, SetsFlagsWhenMoved, OnlyLastWrites;
    assert part.at in Setters(AllParts(code, k));
    MaySplitIsExact(code, k, target, info, writers, Setters(AllParts(code, k)));
  }

  // Both failures in one block: ITE EQ; CMPEQ R0, #0; MOVNE R0, #1.

  function CompareCode(k: nat): Half {
    [0xBF0C, 0x2800, 0x2001][if k < 3 then k else 2]
  }

  function CompareMeaning(instr: Instr, at: nat, s: Core<int>): Outcome<int> {
    if instr == T16(0x2800) then Next(Core(s.flags.(z := s.rest == 0), s.rest)) else Next(Core(s.flags, 1))
  }

  /** Moved, the MOV is a MOVS. */
  function MovedMeaning(instr: Instr, at: nat, s: Core<int>): Outcome<int> {
    if instr == T16(0x2800) then CompareMeaning(instr, at, s) else Next(Core(s.flags.(n := false, z := false), 1))
  }

  lemma CompareTypes()
    ensures T16TypeOf(0xBF0C) == IT_T1 && T16TypeOf(0x2800) == IGNORED16 && T16TypeOf(0x2001) == IGNORED16
  {
    hide And;
    AndBy16(0xBF0C, 0xFF0);
    AndBy16(0xBF0, 0xFF);
    AndOdd(0xBF, 0xFF);
    AndOdd(0x5F, 0x7F);
    AndOdd(0x2F, 0x3F);
    AndOdd(0x17, 0x1F);
    AndLow4(0xB);
    AndLow4(0xBF0C);
    AndBy16(0xBF0C, 0xF);
    AndLow4(0xBF0);
  }

  /** What is read behind the IT instruction. */
  lemma CompareHalves()
    ensures InstrAt(CompareCode, 1) == T16(0x2800) && InstrAt(CompareCode, 2) == T16(0x2001)
    ensures !IsElse(0xBF0C, 0) && IsElse(0xBF0C, 1) && ItCount(0xBF0C) == 2 && FirstCond(0xBF0C) == 0
  {
  }

  lemma CompareAllParts()
    ensures AllParts(CompareCode, 0) == [Part(T16(0x2800), 1, false), Part(T16(0x2001), 2, true)]
  {
    CompareHalves();
    hide InstrAt, IsElse, ItCount;
    var then0, else0 := Part(T16(0x2800), 1, false), Part(T16(0x2001), 2, true);
    assert [then0][..0] == [] && PartHalves([then0]) == 1;
    assert PartsOf(CompareCode, 0, 1) == [then0];
    assert PartsOf(CompareCode, 0, 2) == [then0, else0];
  }

  lemma CompareParts()
    ensures var then0, else0 := Part(T16(0x2800), 1, false), Part(T16(0x2001), 2, true);
            && AllParts(CompareCode, 0) == [then0, else0]
            && ItAt(CompareCode, 0) == ItBlock(0, [else0, then0], 1)
  {
    CompareHalves();
    CompareAllParts();
    hide AllParts, FirstCond;
    var then0, else0 := Part(T16(0x2800), 1, false), Part(T16(0x2001), 2, true);
    assert [then0][..0] == [] && [then0, else0][..1] == [then0];
    assert Only([then0], true) == [] && Only([then0], false) == [then0];
    assert Only([then0, else0], true) == [else0] && Only([then0, else0], false) == [then0];
  }

  lemma CompareBlock(info: Info)
    ensures var it := ItAt(CompareCode, 0);
            IsIt(T16(CompareCode(0))) && NoNestedIt(it) && BlockRewritable(it, 0, info)
  {
    hide T16TypeOf, And, ItAt;
    CompareTypes();
    CompareParts();
    var it := ItAt(CompareCode, 0);
    assert PartWords(it.parts, 0, info) == [[0x2001, NOP], [0x2800, NOP]];
  }

  /** The split runs one arm although the comparison in it has turned the condition. */
  lemma FlagWriterBreaksSplit(info: Info)
    ensures IsIt(T16(CompareCode(0)))
    ensures var s := Core(Flags(false, true, false, false), 5);
            var it := ItAt(CompareCode, 0);
            && Run(BlockItems(it, 0, info), 0, CompareMeaning, s) == Done(Core(Flags(false, false, false, false), 5))
            && RunBlock(AllParts(CompareCode, 0), 0, CompareMeaning, s) == Done(Core(Flags(false, false, false, false), 1))
  {
    hide AllParts, ItAt, BlockItems, Run, IsIt, NoNestedIt, BlockRewritable;
    var s := Core(Flags(false, true, false, false), 5);
    var it := ItAt(CompareCode, 0);
    CompareParts();
    CompareBlock(info);
    BlockRunsOneArm(it, 0, info, CompareMeaning, s);
    var then0, else0 := Part(T16(0x2800), 1, false), Part(T16(0x2001), 2, true);
    assert it.parts[it.elseCount..] == [then0];
    assert [then0][1..] == [] && [then0, else0][1..] == [else0] && [else0][1..] == [];
    var t := Core(Flags(false, false, false, false), 5);
    assert RunBlock([else0], 0, CompareMeaning, t) == RunBlock([], 0, CompareMeaning, Core(t.flags, 1));
    assert RunBlock([then0, else0], 0, CompareMeaning, s) == RunBlock([else0], 0, CompareMeaning, t);
    assert RunStraight([then0], CompareMeaning, s) == RunStraight([], CompareMeaning, t);
  }

  /** The other arm: the moved MOV writes flags that the MOV in the block leaves alone. */
  lemma MovedMovBreaksSplit(info: Info)
    ensures SetsFlagsWhenMoved(T16(CompareCode(2)))
    ensures var s := Core(Flags(true, false, false, false), 5);
            var it := ItAt(CompareCode, 0);
            && Run(BlockItems(it, 0, info), 0, MovedMeaning, s) == Done(Core(Flags(false, false, false, false), 1))
            && RunBlock(AllParts(CompareCode, 0), 0, CompareMeaning, s) == Done(Core(Flags(true, false, false, false), 1))
  {
    hide AllParts, ItAt, BlockItems, Run, IsIt, NoNestedIt, BlockRewritable;
    var s := Core(Flags(true, false, false, false), 5);
    var it := ItAt(CompareCode, 0);
    CompareParts();
    CompareBlock(info);
    BlockRunsOneArm(it, 0, info, MovedMeaning, s);
    var then0, else0 := Part(T16(0x2800), 1, false), Part(T16(0x2001), 2, true);
    assert it.parts[..it.elseCount] == [else0];
    assert [then0, else0][1..] == [else0] && [else0][1..] == [];
    assert RunBlock([else0], 0, CompareMeaning, s) == RunBlock([], 0, CompareMeaning, Core(s.flags, 1));
    assert RunBlock([then0, else0], 0, CompareMeaning, s) == RunBlock([else0], 0, CompareMeaning, s);
    assert RunStraight([else0], MovedMeaning, s) == RunStraight([], MovedMeaning, Core(Flags(false, false, false, false), 1));
  }
}
