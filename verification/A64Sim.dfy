/** Relocated A64 instructions mean what they meant at their old address. */
module A64Sim {
  import opened Words
  import opened I = A64Isa
  import R = A64Rewrite
  import D = A64Decode

  ghost predicate CodeAt(m: Memory, base: int, words: seq<bv32>) {
    forall k | 0 <= k < |words| :: Fetch32(m, base + 4 * k) == words[k]
  }

  /** The 16 bytes below SP, where the rewritten code keeps X16 and X17. */
  ghost function Scratch(sp: Word64): set<int> {
    Span(sp - 16, 16)
  }

  /** The bytes that hold `count` words at `base`. */
  ghost function Bytes(base: int, count: nat): set<int> {
    Span(base, 4 * count)
  }

  /** STP X16, X17, [SP, #-16]. */
  function Spill(h: Core): Core {
    h.(mem := Store64(Store64(h.mem, h.sp - 16, h.x[16]), h.sp - 8, h.x[17]))
  }

  lemma SpillFrame(h: Core, a: int)
    requires a !in Scratch(h.sp)
    ensures ByteAt(Spill(h).mem, a) == ByteAt(h.mem, a)
  {
    hide Store64;
    Store64Frame(h.mem, h.sp - 16, h.x[16], a);
    Store64Frame(Store64(h.mem, h.sp - 16, h.x[16]), h.sp - 8, h.x[17], a);
  }

  lemma SpillSaves(h: Core)
    ensures Load64(Spill(h).mem, h.sp - 16) == h.x[16] && Load64(Spill(h).mem, h.sp - 8) == h.x[17]
  {
    hide Store64, Load64;
    var m := Store64(h.mem, h.sp - 16, h.x[16]);
    Load64Store64(h.mem, h.sp - 16, h.x[16]);
    Load64Store64(m, h.sp - 8, h.x[17]);
    forall a | h.sp - 16 <= a < h.sp - 8 ensures ByteAt(Spill(h).mem, a) == ByteAt(m, a) {
      Store64Frame(m, h.sp - 8, h.x[17], a);
    }
    SameBytes(Spill(h).mem, m, h.sp - 16, 8);
  }

  lemma SameBytes(m: Memory, m': Memory, a: int, count: nat)
    requires forall b | a <= b < a + count :: ByteAt(m, b) == ByteAt(m', b)
    ensures count >= 4 ==> Fetch32(m, a) == Fetch32(m', a)
    ensures count >= 8 ==> Load64(m, a) == Load64(m', a)
  {
    hide Join, Word, ByteAt;
    if count >= 8 {
      assert Fetch32(m, a + 4) == Fetch32(m', a + 4);
    }
  }

  lemma CodeKept(m: Memory, m': Memory, base: int, words: seq<bv32>)
    requires CodeAt(m, base, words)
    requires forall a | a in Bytes(base, |words|) :: ByteAt(m, a) == ByteAt(m', a)
    ensures CodeAt(m', base, words)
  {
    forall k | 0 <= k < |words| ensures Fetch32(m', base + 4 * k) == words[k] {
      forall b | base + 4 * k <= b < base + 4 * k + 4 ensures ByteAt(m, b) == ByteAt(m', b) {
        assert b in Bytes(base, |words|);
      }
      SameBytes(m, m', base + 4 * k, 4);
    }
  }

  lemma SpillKeepsCode(h: Core, base: int, words: seq<bv32>)
    requires CodeAt(h.mem, base, words) && Scratch(h.sp) !! Bytes(base, |words|)
    ensures CodeAt(Spill(h).mem, base, words)
  {
    forall a | a in Bytes(base, |words|) ensures ByteAt(h.mem, a) == ByteAt(Spill(h).mem, a) {
      SpillFrame(h, a);
    }
    CodeKept(h.mem, Spill(h).mem, base, words);
  }

  lemma CodeFrom(m: Memory, base: int, words: seq<bv32>, k: nat)
    requires CodeAt(m, base, words) && k <= |words|
    ensures CodeAt(m, base + 4 * k, words[k..])
  {
    forall j | 0 <= j < |words| - k ensures Fetch32(m, base + 4 * k + 4 * j) == words[k..][j] {
      assert Fetch32(m, base + 4 * (k + j)) == words[k + j];
    }
  }

  lemma CodeWord(m: Memory, base: int, words: seq<bv32>, k: nat)
    requires CodeAt(m, base, words) && k < |words|
    ensures Fetch32(m, base + 4 * k) == words[k]
  {
  }

  lemma CodeTo(m: Memory, base: int, words: seq<bv32>, k: nat)
    requires CodeAt(m, base, words) && k <= |words|
    ensures CodeAt(m, base, words[..k])
  {
    forall j | 0 <= j < k ensures Fetch32(m, base + 4 * j) == words[..k][j] {
      assert Fetch32(m, base + 4 * j) == words[j];
    }
  }

  // No code is placed in the last page of the address space, so addresses in it do not wrap.
  const CODE_END: int := 0xFFFF_FFFF_FFFF_F000

  lemma Branches(sem: Semantics, s: State, h: Core, p: Word64, w: bv32, off: nat)
    requires p + off < CODE_END
    requires Reaches(sem, s, State(p, h)) && Fetch32(h.mem, p) == w && Decode(w) == B(off)
    ensures Reaches(sem, s, State(p + off, h))
  {
    hide Decode, Fetch32, Word, Bits;
    Executes(sem, s, State(p, h), w);
  }

  lemma BranchesToReg(sem: Semantics, s: State, h: Core, p: Word64, w: bv32, r: nat)
    requires p + 4 < CODE_END && r < 31
    requires Reaches(sem, s, State(p, h)) && Fetch32(h.mem, p) == w && Decode(w) in {Br(r), Blr(r), Ret(r)}
    ensures Reaches(sem, s, State(h.x[r], if Decode(w).Blr? then SetReg(h, 30, p + 4) else h))
  {
    hide Decode, Fetch32, Word, Bits;
    Executes(sem, s, State(p, h), w);
  }

  /** LDR Xr, #off: the literal is the pair of words at p + off. */
  lemma LoadsPair(sem: Semantics, s: State, h: Core, p: Word64, w: bv32, r: nat, off: nat, addr: Word64)
    requires p + off < CODE_END && off < 0x100
    requires Reaches(sem, s, State(p, h)) && Fetch32(h.mem, p) == w && Decode(w) == LdrLit(r, off, X64)
    requires Fetch32(h.mem, p + off) == Low32(addr) && Fetch32(h.mem, p + off + 4) == High32(addr)
    ensures Reaches(sem, s, State(p + 4, SetReg(h, r, addr)))
  {
    hide Decode, Fetch32, Word, Bits, Low32, High32, Load64;
    PairIsValue(h.mem, p + off, addr);
    Executes(sem, s, State(p, h), w);
  }

  function Landed(h: Core, addr: Word64): Core {
    h.(x := h.x[17 := addr])
  }

  lemma SpillStep(sem: Semantics, s: State, h: Core, p: Word64)
    requires p < CODE_END && h.sp >= 16
    requires Reaches(sem, s, State(p, h)) && Fetch32(h.mem, p) == R.STP_IP
    ensures Reaches(sem, s, State(p + 4, Spill(h)))
  {
    hide Decode, Fetch32, Word, Bits, Store64;
    D.DecodeIpLoads();
    Executes(sem, s, State(p, h), R.STP_IP);
  }

  /** LDR X17, #8; B #12; <addr>; BR or BLR X17. */
  lemma JumpTail(sem: Semantics, s: State, h: Core, p: Word64, addr: Word64, call: bool)
    requires p + 20 < CODE_END && Reaches(sem, s, State(p, h))
    requires CodeAt(h.mem, p, [R.LDR_X17_8, 0x1400_0003, Low32(addr), High32(addr),
                               if call then 0xD63F_0220 else 0xD61F_0220])
    ensures Reaches(sem, s, State(addr, if call then SetReg(Landed(h, addr), 30, p + 20) else Landed(h, addr)))
  {
    hide Decode, Fetch32, Word, Bits, Low32, High32, Step, Exec;
    D.DecodeShortBranches();
    D.DecodeRegisterBranches();
    D.DecodeIpLoads();
    var words := [R.LDR_X17_8, 0x1400_0003, Low32(addr), High32(addr),
                  if call then 0xD63F_0220 else 0xD61F_0220];
    assert Fetch32(h.mem, p + 4 * 0) == words[0] && Fetch32(h.mem, p + 4 * 1) == words[1];
    assert Fetch32(h.mem, p + 4 * 2) == words[2] && Fetch32(h.mem, p + 4 * 3) == words[3];
    assert Fetch32(h.mem, p + 4 * 4) == words[4];
    LoadsPair(sem, s, h, p, R.LDR_X17_8, 17, 8, addr);
    Branches(sem, s, Landed(h, addr), p + 4, 0x1400_0003, 12);
    BranchesToReg(sem, s, Landed(h, addr), p + 16, if call then 0xD63F_0220 else 0xD61F_0220, 17);
  }

  /** LDR Xr, #8; BR or RET Xr; <addr>. */
  lemma AbsoluteJumpRuns(sem: Semantics, s: State, h: Core, p: Word64, load: bv32, jump: bv32, r: nat, addr: Word64)
    requires p + 16 < CODE_END && r < 31 && Reaches(sem, s, State(p, h))
    requires CodeAt(h.mem, p, [load, jump, Low32(addr), High32(addr)])
    requires Decode(load) == LdrLit(r, 8, X64) && Decode(jump) in {Br(r), Ret(r)}
    ensures Reaches(sem, s, State(addr, SetReg(h, r, addr)))
  {
    hide Decode, Fetch32, Step, Exec, Low32, High32, CodeAt, Reaches;
    var words := [load, jump, Low32(addr), High32(addr)];
    CodeWord(h.mem, p, words, 0);
    CodeWord(h.mem, p, words, 1);
    CodeWord(h.mem, p, words, 2);
    CodeWord(h.mem, p, words, 3);
    LoadsPair(sem, s, h, p, load, r, 8, addr);
    BranchesToReg(sem, s, SetReg(h, r, addr), p + 4, jump, r);
  }

  /** LDR X17, #8; BR X17; <addr>. */
  lemma TestTail(sem: Semantics, s: State, h: Core, p: Word64, addr: Word64)
    requires p + 16 < CODE_END && Reaches(sem, s, State(p, h))
    requires CodeAt(h.mem, p, [R.LDR_X17_8, 0xD61F_0220, Low32(addr), High32(addr)])
    ensures Reaches(sem, s, State(addr, Landed(h, addr)))
  {
    hide Decode, Fetch32, Low32, High32, CodeAt, Reaches;
    D.DecodeRegisterBranches();
    D.DecodeIpLoads();
    AbsoluteJumpRuns(sem, s, h, p, R.LDR_X17_8, 0xD61F_0220, 17, addr);
  }

  /** With an island the branch first saves X16 and X17. */
  function Departed(h: Core, addr: Word64, useIsland: bool): Core {
    Landed(if useIsland then Spill(h) else h, addr)
  }

  ghost predicate ScratchApart(h: Core, base: int, words: seq<bv32>) {
    h.sp >= 16 && Scratch(h.sp) !! Bytes(base, |words|)
  }

  lemma SuffixApart(h: Core, base: int, words: seq<bv32>, k: nat)
    requires ScratchApart(h, base, words) && k <= |words|
    ensures ScratchApart(h, base + 4 * k, words[k..])
  {
    assert Bytes(base + 4 * k, |words| - k) <= Bytes(base, |words|);
  }

  /** The image of B and BL, and the taken side of the image of B.cond. */
  lemma RunsB(sem: Semantics, s: State, h: Core, at: Word64, addr: Word64, useIsland: bool, link: bool)
    requires at + 0x20 < CODE_END
    requires Reaches(sem, s, State(at, h)) && CodeAt(h.mem, at, R.RewriteB(addr, useIsland, link))
    requires useIsland ==> ScratchApart(h, at, R.RewriteB(addr, useIsland, link))
    ensures var core := Departed(h, addr, useIsland);
            var end := at + 4 * |R.RewriteB(addr, useIsland, link)|;
            Reaches(sem, s, State(addr, if link then SetReg(core, 30, end) else core))
  {
    hide Decode, Fetch32, Word, Bits, Step, Exec, Low32, High32, Store64;
    var words := R.RewriteB(addr, useIsland, link);
    if useIsland {
      assert Fetch32(h.mem, at + 4 * 0) == words[0];
      SpillStep(sem, s, h, at);
      SpillKeepsCode(h, at, words);
      CodeFrom(Spill(h).mem, at, words, 1);
      JumpTail(sem, s, Spill(h), at + 4, addr, link);
    } else {
      assert words == [R.LDR_X17_8, 0x1400_0003, Low32(addr), High32(addr),
                       if link then 0xD63F_0220 else 0xD61F_0220];
      JumpTail(sem, s, h, at, addr, link);
    }
  }

  /** A conditional branch over the next word. */
  lemma SkipsOrNot(sem: Semantics, s: State, h: Core, at: Word64, head: bv32)
    requires at + 0x40 < CODE_END && Reaches(sem, s, State(at, h)) && Fetch32(h.mem, at) == head
    requires IsSkip(Decode(head))
    ensures Reaches(sem, s, State(if Taken(Decode(head), h) then at + 8 else at + 4, h))
  {
    hide Decode, Fetch32, Word, Bits, Taken;
    Executes(sem, s, State(at, h), head);
  }

  predicate IsSkip(i: Inst) {
    (i.BCond? || i.Cbz? || i.Tbz?) && i.off == 8
  }

  lemma RunsBCond(sem: Semantics, s: State, head: bv32, h: Core, at: Word64, addr: Word64, useIsland: bool)
    requires IsSkip(Decode(head)) && at + 0x40 < CODE_END
    requires Reaches(sem, s, State(at, h)) && CodeAt(h.mem, at, R.RewriteBCond(head, addr, useIsland))
    requires useIsland && Taken(Decode(head), h) ==> ScratchApart(h, at, R.RewriteBCond(head, addr, useIsland))
    ensures Reaches(sem, s, if Taken(Decode(head), h) then State(addr, Departed(h, addr, useIsland))
                            else State(at + 4 * |R.RewriteBCond(head, addr, useIsland)|, h))
  {
    hide Decode, Fetch32, Word, Bits, Step, Exec, R.RewriteB, Taken, Departed;
    var words := R.RewriteBCond(head, addr, useIsland);
    assert Fetch32(h.mem, at + 4 * 0) == words[0] && Fetch32(h.mem, at + 4 * 1) == words[1];
    SkipsOrNot(sem, s, h, at, head);
    if Taken(Decode(head), h) {
      CodeFrom(h.mem, at, words, 2);
      if useIsland {
        SuffixApart(h, at, words, 2);
      }
      assert words[2..] == R.RewriteB(addr, useIsland, false);
      RunsB(sem, s, h, at + 8, addr, useIsland, false);
    } else {
      D.DecodeShortBranches();
      Branches(sem, s, h, at + 4, if useIsland then 0x1400_0007 else 0x1400_0006, if useIsland then 28 else 24);
    }
  }

  lemma RunsTestBranch(sem: Semantics, s: State, head: bv32, h: Core, at: Word64, addr: Word64, useIsland: bool)
    requires IsSkip(Decode(head)) && at + 0x40 < CODE_END
    requires Reaches(sem, s, State(at, h)) && CodeAt(h.mem, at, R.RewriteTestBranch(head, addr, useIsland))
    requires useIsland && Taken(Decode(head), h) ==> ScratchApart(h, at, R.RewriteTestBranch(head, addr, useIsland))
    ensures Reaches(sem, s, if Taken(Decode(head), h) then State(addr, Departed(h, addr, useIsland))
                            else State(at + 4 * |R.RewriteTestBranch(head, addr, useIsland)|, h))
  {
    hide Decode, Fetch32, Word, Bits, Step, Exec, Low32, High32, Store64, Taken;
    var words := R.RewriteTestBranch(head, addr, useIsland);
    assert Fetch32(h.mem, at + 4 * 0) == words[0] && Fetch32(h.mem, at + 4 * 1) == words[1];
    D.DecodeShortBranches();
    SkipsOrNot(sem, s, h, at, head);
    if Taken(Decode(head), h) {
      if useIsland {
        assert Fetch32(h.mem, at + 4 * 2) == words[2];
        SpillStep(sem, s, h, at + 8);
        SpillKeepsCode(h, at, words);
        CodeFrom(Spill(h).mem, at, words, 3);
        TestTail(sem, s, Spill(h), at + 12, addr);
      } else {
        CodeFrom(h.mem, at, words, 2);
        TestTail(sem, s, h, at + 8, addr);
      }
    } else {
      Branches(sem, s, h, at + 4, if useIsland then 0x1400_0006 else 0x1400_0005, if useIsland then 24 else 20);
    }
  }

  lemma RunsAdr(sem: Semantics, s: State, load: bv32, d: nat, h: Core, at: Word64, addr: Word64)
    requires Decode(load) == LdrLit(d, 8, X64) && at + 0x40 < CODE_END
    requires Reaches(sem, s, State(at, h)) && CodeAt(h.mem, at, R.RewriteAdr(load, addr))
    ensures Reaches(sem, s, State(at + 16, SetReg(h, d, addr)))
  {
    hide Decode, Fetch32, Word, Bits, Step, Exec, Low32, High32;
    var words := R.RewriteAdr(load, addr);
    assert Fetch32(h.mem, at + 4 * 0) == words[0] && Fetch32(h.mem, at + 4 * 1) == words[1];
    assert Fetch32(h.mem, at + 4 * 2) == words[2] && Fetch32(h.mem, at + 4 * 3) == words[3];
    D.DecodeShortBranches();
    LoadsPair(sem, s, h, at, load, d, 8, addr);
    Branches(sem, s, SetReg(h, d, addr), at + 4, 0x1400_0003, 12);
  }

  /** LDR Xt, #12; LDR <t>, [Xt]; B #12; <addr>. */
  lemma RunsLdr(sem: Semantics, s: State, load: bv32, through: bv32, d: nat, width: Width, h: Core, at: Word64,
                addr: Word64)
    requires Decode(load) == LdrLit(d, 12, X64) && Decode(through) == Ldr(d, d, width) && at + 0x40 < CODE_END
    requires Reaches(sem, s, State(at, h)) && CodeAt(h.mem, at, R.RewriteLdr(load, through, addr))
    ensures Reaches(sem, s, State(at + 20, SetReg(h, d, LoadWidth(h.mem, addr, width))))
  {
    hide Decode, Fetch32, Word, Bits, Step, Exec, Low32, High32, LoadWidth;
    var words := R.RewriteLdr(load, through, addr);
    assert Fetch32(h.mem, at + 4 * 0) == words[0] && Fetch32(h.mem, at + 4 * 1) == words[1];
    assert Fetch32(h.mem, at + 4 * 2) == words[2] && Fetch32(h.mem, at + 4 * 3) == words[3];
    assert Fetch32(h.mem, at + 4 * 4) == words[4];
    D.DecodeShortBranches();
    LoadsPair(sem, s, h, at, load, d, 12, addr);
    LoadsThrough(sem, s, h, at + 4, through, d, width, addr);
    Branches(sem, s, SetReg(h, d, LoadWidth(h.mem, addr, width)), at + 8, 0x1400_0003, 12);
  }

  /** LDR <t>, [Xt] when Xt holds the literal's address; for XZR nothing changes. */
  lemma LoadsThrough(sem: Semantics, s: State, h: Core, p: Word64, w: bv32, t: nat, width: Width, addr: Word64)
    requires p + 4 < CODE_END && Decode(w) == Ldr(t, t, width) && Fetch32(h.mem, p) == w
    requires Reaches(sem, s, State(p, SetReg(h, t, addr)))
    ensures Reaches(sem, s, State(p + 4, SetReg(h, t, LoadWidth(h.mem, addr, width))))
  {
    hide Decode, Fetch32, Word, Bits, LoadWidth;
    Executes(sem, s, State(p, SetReg(h, t, addr)), w);
    if t < 31 {
      var v := LoadWidth(h.mem, addr, width);
      assert h.x[t := addr][t := v] == h.x[t := v];
    }
  }

  predicate UsesBase17(i: Inst) {
    i == Prfm(17) || (i.LdrV? && i.n == 17)
  }

  /** What PRFM [X17] or LDR <Vt>, [X17] does when X17 holds `addr`. */
  function Used(c: Core, i: Inst, addr: Word64): Core {
    if i.LdrV? then SetV(c, i.t, LoadV(c.mem, addr, i.size)) else c
  }

  lemma UsesX17(sem: Semantics, s: State, g: Core, p: Word64, use: bv32, i: Inst, addr: Word64)
    requires p + 4 < CODE_END && Fetch32(g.mem, p) == use && i == Decode(use) && UsesBase17(i)
    requires Reaches(sem, s, State(p, Landed(g, addr)))
    ensures Reaches(sem, s, State(p + 4, Used(Landed(g, addr), i, addr)))
  {
    hide Decode, Fetch32, Word, Bits, LoadV;
    Executes(sem, s, State(p, Landed(g, addr)), use);
  }

  /** LDR X17, [SP, #-8] undoes the use of X17 as a scratch register. */
  lemma RestoresX17(sem: Semantics, s: State, g: Core, used: Core, p: Word64)
    requires p + 4 < CODE_END && Fetch32(g.mem, p) == 0xF85F_83F1 && g.sp >= 16
    requires Reaches(sem, s, State(p, used)) && Load64(g.mem, g.sp - 8) == g.x[17]
    requires used.sp == g.sp && used.mem == g.mem && used.x == g.x[17 := used.x[17]]
    ensures Reaches(sem, s, State(p + 4, used.(x := g.x)))
  {
    hide Decode, Fetch32, Word, Bits, Load64;
    D.DecodeIpLoads();
    Executes(sem, s, State(p, used), 0xF85F_83F1);
    assert g.x[17 := used.x[17]][17 := g.x[17]] == g.x;
  }

  lemma ViaX17Words(m: Memory, at: int, use: bv32, addr: Word64)
    requires CodeAt(m, at, R.RewriteViaX17(use, addr))
    ensures Fetch32(m, at) == R.STP_IP && Fetch32(m, at + 4) == 0x5800_0091 && Fetch32(m, at + 8) == use
    ensures Fetch32(m, at + 12) == 0xF85F_83F1 && Fetch32(m, at + 16) == 0x1400_0003
    ensures Fetch32(m, at + 20) == Low32(addr) && Fetch32(m, at + 24) == High32(addr)
  {
    hide Word, Fetch32, Low32, High32;
    var words := R.RewriteViaX17(use, addr);
    assert Fetch32(m, at + 4 * 0) == words[0] && Fetch32(m, at + 4 * 1) == words[1];
    assert Fetch32(m, at + 4 * 2) == words[2] && Fetch32(m, at + 4 * 3) == words[3];
    assert Fetch32(m, at + 4 * 4) == words[4];
    assert Fetch32(m, at + 4 * 5) == words[5] && Fetch32(m, at + 4 * 6) == words[6];
  }

  /** LDR X17, #16; <use> [X17]: words 1, 2, 5 and 6 of the image. */
  lemma LoadsViaX17(sem: Semantics, s: State, use: bv32, i: Inst, g: Core, at: Word64, addr: Word64)
    requires i == Decode(use) && UsesBase17(i) && at + 0x40 < CODE_END
    requires Reaches(sem, s, State(at + 4, g)) && CodeAt(g.mem, at, R.RewriteViaX17(use, addr))
    ensures Reaches(sem, s, State(at + 12, Used(Landed(g, addr), i, addr)))
  {
    hide Decode, Fetch32, Word, Bits, Step, Exec, Low32, High32, LoadV, Reaches, Used, UsesBase17, CodeAt;
    hide R.RewriteViaX17;
    ViaX17Words(g.mem, at, use, addr);
    D.DecodeIpLoads();
    LoadsPair(sem, s, g, at + 4, 0x5800_0091, 17, 16, addr);
    UsesX17(sem, s, g, at + 8, use, i, addr);
  }

  /** STP X16, X17; LDR X17, #16; <use> [X17]; LDR X17, [SP, #-8]; B #12; <addr>. */
  lemma RunsViaX17(sem: Semantics, s: State, use: bv32, i: Inst, h: Core, at: Word64, addr: Word64)
    requires i == Decode(use) && UsesBase17(i) && at + 0x40 < CODE_END
    requires Reaches(sem, s, State(at, h)) && CodeAt(h.mem, at, R.RewriteViaX17(use, addr))
    requires ScratchApart(h, at, R.RewriteViaX17(use, addr))
    ensures Reaches(sem, s, State(at + 28, Used(Spill(h), i, addr)))
  {
    hide Decode, Fetch32, Word, Bits, Step, Exec, Low32, High32, LoadV, Store64, Reaches, UsesBase17, CodeAt;
    hide R.RewriteViaX17;
    var words := R.RewriteViaX17(use, addr);
    var g := Spill(h);
    ViaX17Words(h.mem, at, use, addr);
    SpillStep(sem, s, h, at);
    SpillKeepsCode(h, at, words);
    LoadsViaX17(sem, s, use, i, g, at, addr);
    SpillSaves(h);
    ViaX17Words(g.mem, at, use, addr);
    RestoresX17(sem, s, g, Used(Landed(g, addr), i, addr), at + 12);
    D.DecodeShortBranches();
    Branches(sem, s, Used(g, i, addr), at + 16, 0x1400_0003, 12);
  }
}
