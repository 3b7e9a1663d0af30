/** IT blocks: parsing one into its ELSE and THEN instructions, and writing them out as two straight-line arms
    (arch/arm/sh_t16.c, and the IT branches of arch/arm/sh_inst.c). */
module ThumbIt {
  import opened Words
  import opened Layout
  import opened ThumbRewrite

  // The halfwords from the target address on.
  type Code = nat -> Half

  function InstrAt(code: Code, k: nat): Instr {
    if IsThumb32(code(k)) then T32(code(k), code(k + 1)) else T16(code(k))
  }

  function PcOf(target: Word32, at: nat): Word32 {
    Wrap32(target + 2 * at + 4)
  }

  // The block as the architecture reads it (section A8.8, entry IT, of the Arm Architecture Reference Manual, DDI 0406).

  function FirstCond(it: Half): (cond: nat)
    ensures cond < 16
  {
    it / 16 % 16
  }

  /** Bit 4 - i of the instruction. */
  function MaskX(it: Half, i: nat): nat
    requires i < 4
  {
    it / [16, 8, 4, 2][i] % 2
  }

  predicate IsElse(it: Half, i: nat)
    requires i < 4
  {
    MaskX(it, i) != FirstCond(it) % 2
  }

  /** sh_t16_get_it_insts_count */
  function ItCount(it: Half): (n: nat)
    ensures 1 <= n <= 4
  {
    if it % 2 != 0 then 4 else if it / 2 % 2 != 0 then 3 else if it / 4 % 2 != 0 then 2 else 1
  }

  /** An instruction of a block and the halfword it starts at. */
  datatype Part = Part(instr: Instr, at: nat, isElse: bool)

  function PartHalves(parts: seq<Part>): nat {
    if parts == [] then 0 else PartHalves(parts[..|parts| - 1]) + Size(parts[|parts| - 1].instr)
  }

  /** The first n instructions behind the IT instruction at halfword k, in program order. */
  function PartsOf(code: Code, k: nat, n: nat): (parts: seq<Part>)
    requires n <= ItCount(code(k))
    ensures |parts| == n
  {
    if n == 0 then []
    else
      var before := PartsOf(code, k, n - 1);
      var at := k + 1 + PartHalves(before);
      before + [Part(InstrAt(code, at), at, IsElse(code(k), n - 1))]
  }

  function AllParts(code: Code, k: nat): seq<Part> {
    PartsOf(code, k, ItCount(code(k)))
  }

  function Only(parts: seq<Part>, isElse: bool): (some: seq<Part>)
    ensures |some| <= |parts|
  {
    if parts == [] then []
    else
      var last := parts[|parts| - 1];
      Only(parts[..|parts| - 1], isElse) + if last.isElse == isElse then [last] else []
  }

  /** sh_t16_it_t: first the ELSE instructions, then the THEN instructions. */
  datatype ItBlock = ItBlock(firstCond: nat, parts: seq<Part>, elseCount: nat)

  type It = it: ItBlock | it.elseCount <= |it.parts| witness ItBlock(0, [], 0)

  function ItAt(code: Code, k: nat): It {
    var all := AllParts(code, k);
    ItBlock(FirstCond(code(k)), Only(all, true) + Only(all, false), |Only(all, true)|)
  }

  lemma PartsStep(code: Code, k: nat, i: nat, isElse: bool)
    requires i < ItCount(code(k))
    ensures var before := PartsOf(code, k, i);
            var instr := InstrAt(code, k + 1 + PartHalves(before));
            && PartHalves(PartsOf(code, k, i + 1)) == PartHalves(before) + Size(instr)
            && Only(PartsOf(code, k, i + 1), isElse)
               == Only(before, isElse)
                  + if IsElse(code(k), i) == isElse then [Part(instr, k + 1 + PartHalves(before), isElse)] else []
  {
    hide InstrAt, IsElse, Size, ItCount;
    assert PartsOf(code, k, i + 1)[..i] == PartsOf(code, k, i);
  }

  /** One round over the block: appends its ELSE or its THEN instructions to those already found. */
  method ParseRound(code: Code, k: nat, found: seq<Part>, parseElse: bool) returns (parts: seq<Part>, count: nat, len: nat)
    ensures parts == found + Only(AllParts(code, k), parseElse)
    ensures count == |Only(AllParts(code, k), parseElse)|
    ensures len == PartHalves(AllParts(code, k))
  {
    hide InstrAt, IsElse, Only, Size, PartsOf, PartHalves, ItCount;
    parts, count, len := found, 0, 0;
    NoParts(code, k, parseElse);
    for i := 0 to ItCount(code(k))
      invariant len == PartHalves(PartsOf(code, k, i))
      invariant parts == found + Only(PartsOf(code, k, i), parseElse)
      invariant count == |Only(PartsOf(code, k, i), parseElse)|
    {
      PartsStep(code, k, i, parseElse);
      var at := k + 1 + len;
      var instr := InstrAt(code, at);
      if IsElse(code(k), i) == parseElse {
        parts := parts + [Part(instr, at, parseElse)];
        count := count + 1;
      }
      len := len + Size(instr);
    }
  }

  lemma NoParts(code: Code, k: nat, isElse: bool)
    ensures PartHalves(PartsOf(code, k, 0)) == 0 && Only(PartsOf(code, k, 0), isElse) == []
  {
  }

  /** sh_t16_parse_it: one round for ELSE, one for THEN. `len` is in halfwords. */
  method ParseIt(code: Code, k: nat) returns (isIt: bool, it: It, len: nat)
    ensures isIt == IsIt(T16(code(k)))
    ensures isIt ==> it == ItAt(code, k) && len == PartHalves(AllParts(code, k))
  {
    hide T16TypeOf, Only, AllParts, FirstCond;
    it := ItBlock(0, [], 0);
    len := 0;
    isIt := T16TypeOf(code(k)).IT_T1?;
    if isIt {
      var parts, elseCount, thenCount;
      parts, elseCount, len := ParseRound(code, k, [], true);
      parts, thenCount, len := ParseRound(code, k, parts, false);
      it := ItBlock(FirstCond(code(k)), parts, elseCount);
    }
  }

  // Putting ELSE first moves instructions but loses none.

  lemma {:induction false} PartHalvesAppend(a: seq<Part>, b: seq<Part>)
    ensures PartHalves(a + b) == PartHalves(a) + PartHalves(b)
  {
    if b == [] {
      assert a + b == a;
    } else {
      PartHalvesAppend(a, b[..|b| - 1]);
      assert (a + b)[..|a + b| - 1] == a + b[..|b| - 1];
    }
  }

  lemma PartHalvesSnoc(parts: seq<Part>, part: Part)
    ensures PartHalves(parts + [part]) == PartHalves(parts) + Size(part.instr)
  {
    hide Size;
    assert (parts + [part])[..|parts|] == parts;
  }

  lemma {:induction false} OnlySplitsHalves(parts: seq<Part>)
    ensures PartHalves(Only(parts, true)) + PartHalves(Only(parts, false)) == PartHalves(parts)
  {
    hide PartHalves;
    if parts == [] {
      PartHalvesAppend(Only(parts, true), Only(parts, false));
      assert Only(parts, true) + Only(parts, false) == parts;
    } else {
      var front, last := parts[..|parts| - 1], parts[|parts| - 1];
      OnlySplitsHalves(front);
      PartHalvesSnoc(Only(front, last.isElse), last);
      PartHalvesSnoc(front, last);
      assert parts == front + [last];
      assert Only(parts, last.isElse) == Only(front, last.isElse) + [last];
      assert Only(parts, !last.isElse) == Only(front, !last.isElse);
    }
  }

  lemma {:induction false} OnlySplits(parts: seq<Part>)
    ensures multiset(Only(parts, true)) + multiset(Only(parts, false)) == multiset(parts)
  {
    if parts != [] {
      var front, last := parts[..|parts| - 1], parts[|parts| - 1];
      OnlySplits(front);
      assert parts == front + [last];
    }
  }

  lemma {:induction false} OnlyHas(parts: seq<Part>, i: nat)
    requires i < |parts|
    ensures parts[i] in Only(parts, parts[i].isElse)
  {
    if i < |parts| - 1 {
      OnlyHas(parts[..|parts| - 1], i);
    }
  }

  /** The parsed block holds the instructions of the block, and spans what they span. */
  lemma ParsedBlock(code: Code, k: nat)
    ensures var it, all := ItAt(code, k), AllParts(code, k);
            && multiset(it.parts) == multiset(all)
            && PartHalves(it.parts) == PartHalves(all)
            && |it.parts| == ItCount(code(k))
            && it.parts[..it.elseCount] == Only(all, true) && it.parts[it.elseCount..] == Only(all, false)
  {
    var all := AllParts(code, k);
    OnlySplits(all);
    OnlySplitsHalves(all);
    PartHalvesAppend(Only(all, true), Only(all, false));
    assert |multiset(all)| == |all| && |multiset(ItAt(code, k).parts)| == |ItAt(code, k).parts|;
  }

  lemma {:induction false} FirstIsThen(code: Code, k: nat, n: nat)
    requires 1 <= n <= ItCount(code(k))
    ensures PartsOf(code, k, n)[0] == PartsOf(code, k, 1)[0] && !PartsOf(code, k, n)[0].isElse
  {
    if n == 1 {
      assert PartsOf(code, k, 0) == [];
    } else {
      FirstIsThen(code, k, n - 1);
    }
  }

  /** The first instruction is never an ELSE, so the THEN arm is never empty and the second branch always written. */
  lemma ThenArmIsNotEmpty(code: Code, k: nat)
    ensures ItAt(code, k).elseCount < |ItAt(code, k).parts|
  {
    hide FirstCond, MaskX, IsElse;
    var all := AllParts(code, k);
    FirstIsThen(code, k, ItCount(code(k)));
    OnlyHas(all, 0);
  }

  // Writing the two arms.

  /** sh_t16_rewrite_it_else */
  function ItElse(firstCond: nat, imm9: nat): Half {
    (0xD000 + firstCond * 0x100 + imm9 / 2) % 0x1_0000
  }

  /** sh_t16_rewrite_it_then */
  function ItThen(imm12: nat): Half {
    (0xE000 + imm12 / 2) % 0x1_0000
  }

  function PartWords(parts: seq<Part>, target: Word32, info: Info): (words: seq<seq<Half>>)
    ensures |words| == |parts|
  {
    seq(|parts|, (i: nat) requires i < |parts| => Rewrite(parts[i].instr, PcOf(target, parts[i].at), info))
  }

  predicate BlockRewritable(it: It, target: Word32, info: Info) {
    [] !in PartWords(it.parts, target, info)
  }

  function ElseWords(it: It, target: Word32, info: Info): seq<Half> {
    Concat(PartWords(it.parts[..it.elseCount], target, info))
  }

  function ThenWords(it: It, target: Word32, info: Info): seq<Half> {
    Concat(PartWords(it.parts[it.elseCount..], target, info))
  }

  /** B<c> to the THEN arm, the ELSE arm, B over the THEN arm, the THEN arm. */
  function BlockWords(it: It, target: Word32, info: Info): seq<Half> {
    var elses, thens := ElseWords(it, target, info), ThenWords(it, target, info);
    [ItElse(it.firstCond, 4 + 2 * |elses|), NOP] + elses + [ItThen(2 * |thens|), NOP] + thens
  }

  /** The loop over one arm. */
  method EmitArm(parts: seq<Part>, target: Word32, info: Info, buf: array<Half>, at: nat, ghost end: nat)
    returns (ok: bool, len: nat)
    requires at + |Concat(PartWords(parts, target, info))| <= end <= buf.Length
    modifies buf
    ensures ok == ([] !in PartWords(parts, target, info))
    ensures ok ==> len == at + |Concat(PartWords(parts, target, info))|
    ensures ok ==> buf[..len] == old(buf[..at]) + Concat(PartWords(parts, target, info))
    ensures buf[end..] == old(buf[end..])
  {
    hide Rewrite, Concat;
    ghost var all := PartWords(parts, target, info);
    ok, len := true, at;
    NoPartsYet(all);
    var i := 0;
    while ok && i < |parts|
      invariant 0 <= i <= |parts|
      invariant len == at + |Concat(all[..i])| <= end
      invariant buf[..len] == old(buf[..at]) + Concat(all[..i])
      invariant if ok then [] !in all[..i] else [] in all
      invariant buf[end..] == old(buf[end..])
      decreases |parts| - i, ok
    {
      var words := Rewrite(parts[i].instr, PcOf(target, parts[i].at), info);
      OneMorePart(all, i);
      if words == [] {
        ok := false;
      } else {
        Append(buf, len, words, end);
        len := len + |words|;
        i := i + 1;
      }
    }
    assert all[..|parts|] == all;
  }

  /** Fills in a branch that was left open in front of an arm. */
  method Fill(buf: array<Half>, at: nat, branch: Half, ghost arm: seq<Half>, ghost end: nat)
    requires at + 2 + |arm| <= end <= buf.Length && buf[at + 2..at + 2 + |arm|] == arm
    modifies buf
    ensures buf[..at + 2 + |arm|] == old(buf[..at]) + [branch, NOP] + arm
    ensures buf[end..] == old(buf[end..])
  {
    buf[at], buf[at + 1] := branch, NOP;
  }

  /** The branch in front of an arm: over ELSE and the branch behind it, or over THEN. */
  function ArmBranch(firstCond: nat, isElse: bool, armLen: nat): Half {
    if isElse then ItElse(firstCond, 4 + armLen) else ItThen(armLen)
  }

  /** Leaves room for the branch, writes the arm, then fills in the branch. */
  method EmitBranchAndArm(firstCond: nat, isElse: bool, parts: seq<Part>, target: Word32, info: Info,
                          buf: array<Half>, at: nat, ghost end: nat)
    returns (ok: bool, len: nat)
    requires at + 2 + |Concat(PartWords(parts, target, info))| <= end <= buf.Length
    modifies buf
    ensures ok == ([] !in PartWords(parts, target, info))
    ensures ok ==> len == at + 2 + |Concat(PartWords(parts, target, info))|
    ensures ok ==> var arm := Concat(PartWords(parts, target, info));
                   buf[..len] == old(buf[..at]) + [ArmBranch(firstCond, isElse, 2 * |arm|), NOP] + arm
    ensures buf[end..] == old(buf[end..])
  {
    hide Concat, PartWords, ArmBranch;
    ghost var arm := Concat(PartWords(parts, target, info));
    ghost var front := buf[..at];
    ghost var open := buf[..at + 2];
    assert open[..at] == front;
    ok, len := EmitArm(parts, target, info, buf, at + 2, end);
    if ok {
      assert buf[..len] == open + arm;
      assert buf[..at] == (open + arm)[..at] && buf[at + 2..len] == (open + arm)[at + 2..];
      assert (open + arm)[..at] == front && (open + arm)[at + 2..] == arm;
      Fill(buf, at, ArmBranch(firstCond, isElse, 2 * (len - at - 2)), arm, end);
    }
  }

  lemma LayoutBehind(front: seq<Half>, it: It, target: Word32, info: Info)
    ensures var elses, thens := ElseWords(it, target, info), ThenWords(it, target, info);
            && elses == Concat(PartWords(it.parts[..it.elseCount], target, info))
            && thens == Concat(PartWords(it.parts[it.elseCount..], target, info))
            && |BlockWords(it, target, info)| == 4 + |elses| + |thens|
            && front + BlockWords(it, target, info)
               == front + [ItElse(it.firstCond, 4 + 2 * |elses|), NOP] + elses + [ItThen(2 * |thens|), NOP] + thens
  {
    hide Concat, PartWords, ItElse, ItThen;
  }

  /** The IT branch of sh_inst_thumb_rewrite. */
  method EmitBlock(it: It, target: Word32, info: Info, buf: array<Half>, at: nat, ghost end: nat)
    returns (ok: bool, len: nat)
    requires at + |BlockWords(it, target, info)| <= end <= buf.Length
    modifies buf
    ensures ok == BlockRewritable(it, target, info)
    ensures ok ==> len == at + |BlockWords(it, target, info)|
    ensures ok ==> buf[..len] == old(buf[..at]) + BlockWords(it, target, info)
    ensures buf[end..] == old(buf[end..])
  {
    hide Concat, PartWords, ItElse, ItThen, BlockRewritable, BlockWords, ElseWords, ThenWords;
    LayoutBehind(buf[..at], it, target, info);
    ArmsCover(it, target, info);
    ok, len := EmitBranchAndArm(it.firstCond, true, it.parts[..it.elseCount], target, info, buf, at, end);
    if ok {
      ok, len := EmitBranchAndArm(it.firstCond, false, it.parts[it.elseCount..], target, info, buf, len, end);
    }
  }

  lemma ArmsCover(it: It, target: Word32, info: Info)
    ensures BlockRewritable(it, target, info) <==>
            && [] !in PartWords(it.parts[..it.elseCount], target, info)
            && [] !in PartWords(it.parts[it.elseCount..], target, info)
    ensures PartWords(it.parts[..it.elseCount], target, info) == PartWords(it.parts, target, info)[..it.elseCount]
    ensures PartWords(it.parts[it.elseCount..], target, info) == PartWords(it.parts, target, info)[it.elseCount..]
  {
    hide Rewrite;
    var words, n := PartWords(it.parts, target, info), it.elseCount;
    assert PartWords(it.parts[..n], target, info) == words[..n] && PartWords(it.parts[n..], target, info) == words[n..];
    assert words == words[..n] + words[n..];
  }

  function PartLens(parts: seq<Part>): seq<nat> {
    seq(|parts|, (i: nat) requires i < |parts| => TableLen(parts[i].instr))
  }

  /** No IT instruction stands inside a block; the architecture does not allow it. */
  predicate NoNestedIt(it: It) {
    forall part | part in it.parts :: !IsIt(part.instr)
  }

  lemma BlockLength(it: It, target: Word32, info: Info)
    requires BlockRewritable(it, target, info) && NoNestedIt(it)
    ensures 2 * |ElseWords(it, target, info)| == Sum(PartLens(it.parts)[..it.elseCount])
    ensures 2 * |ThenWords(it, target, info)| == Sum(PartLens(it.parts)[it.elseCount..])
    ensures 2 * |BlockWords(it, target, info)| == 8 + Sum(PartLens(it.parts))
  {
    hide Rewrite, TableLen, ItElse, ItThen, IsIt;
    var words, lens, n := PartWords(it.parts, target, info), PartLens(it.parts), it.elseCount;
    forall i | 0 <= i < |words| ensures 2 * |words[i]| == lens[i] {
      assert words[i] in words && it.parts[i] in it.parts;
      EmittedLenIsTableLen(it.parts[i].instr, PcOf(target, it.parts[i].at), info);
    }
    ArmsCover(it, target, info);
    ConcatLength(words[..n], lens[..n], 2);
    ConcatLength(words[n..], lens[n..], 2);
    assert lens == lens[..n] + lens[n..];
    SumAppend(lens[..n], lens[n..]);
  }
}
