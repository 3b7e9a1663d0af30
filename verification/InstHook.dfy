/** Patching one target (arch/arm64/sh_inst.c with islands, and sh_island.c as its allocator): hook, any number of
    rehooks, unhook. What the allocators return, and whether memory protection, rewriting and patching succeed, are
    parameters; a patch is all or nothing. */
module InstHook {
  import opened Words
  import R = A64Rewrite
  import W = A64Window
  import I = A64Isa
  import S = A64Sim
  import L = A64Relocation
  import Reach

  datatype Errno =
    | OK
    | HOOK_ENTER | HOOK_ISLAND_ENTER | HOOK_ISLAND_EXIT | HOOK_REWRITE_FAILED | HOOK_REWRITE_CRASH
    | MPROT
    | WRITE_FAILED
    | UNHOOK_TRAMPO_MISMATCH

  // What the environment decides during one call. Address 0 is a failed allocation.
  datatype Outcomes = Outcomes(
    enter: Word64,
    islandEnter: Word64,
    islandRewrite: Word64,
    islandExit: Word64,
    protects: bool,
    crashes: bool,
    writes: bool)

  type Code = seq<bv32>

  /** Live blocks and the code in them. */
  type Blocks = map<Word64, Code>

  predicate IsBranchType(w: bv32) {
    R.GetType(w) in {R.B, R.B_COND, R.BL, R.CBZ, R.CBNZ, R.TBZ, R.TBNZ}
  }

  class Inst {
    // sh_inst_t
    var enter: Word64
    var backup: bv32
    var exit: bv32
    var islandExit: Word64
    var islandEnter: Word64
    var islandRewrite: Word64
    // the rest of the process
    const target: Word64
    const procStart: bool
    var targetWord: bv32
    var islands: Blocks
    var enters: Blocks

    constructor (target: Word64, procStart: bool, targetWord: bv32, islands: Blocks, enters: Blocks)
      ensures Unhooked() && this.target == target && this.procStart == procStart
      ensures this.targetWord == targetWord && this.islands == islands && this.enters == enters
    {
      this.target, this.procStart, this.targetWord, this.islands, this.enters :=
        target, procStart, targetWord, islands, enters;
      enter, islandExit, islandEnter, islandRewrite := 0, 0, 0, 0;
    }

    ghost predicate Unhooked()
      reads this
    {
      islandExit == 0 && islandEnter == 0 && islandRewrite == 0
    }

    /** The islands that this hook holds. */
    ghost function OwnIslands(): set<Word64>
      reads this
    {
      {islandExit, islandEnter, islandRewrite} - {0}
    }

    function Win(resume: Word64): R.Window
      reads this`backup, this`enter, this`islandRewrite
    {
      R.Window(target, [backup], enter, procStart, if procStart then R.NoIsland else R.At(islandRewrite), resume)
    }

    function Resume(): Word64
      reads this`islandEnter
    {
      if procStart then Wrap64(target + 4) else islandEnter
    }

    /** Where a branch that is sent through the island must come out: sh_a64_fix_addr of the address that it names. */
    function BranchTarget(): Word64
      reads this`backup, this`enter
    {
      var win := R.Window(target, [backup], enter, procStart, if procStart then R.NoIsland else R.At(0), 0);
      R.FixAddr(R.NamedAddr(backup, R.PcOf(win, 0)), R.InfoOf(win))
    }

    /** The enter buffer holds the rewritten instruction, and the islands behind it hold what they must. */
    ghost predicate Rewritten()
      reads this
    {
      && enter in enters && R.Rewritable(Win(Resume())) && enters[enter] == R.EnterWords(Win(Resume()))
      && (procStart ==> islandEnter == 0 && islandRewrite == 0)
      && (!procStart ==> islandEnter != 0 && islandEnter in islands
                         && islands[islandEnter] == W.PadWords(islandEnter, Wrap64(target + 4)))
      && (islandRewrite != 0 <==> !procStart && IsBranchType(backup))
      && (islandRewrite != 0 ==> islandRewrite in islands && islandRewrite != islandEnter
                                 && islands[islandRewrite] == W.PadWords(islandRewrite, BranchTarget()))
    }

    /** And the target leads to the exit island. */
    ghost predicate Hooked()
      reads this
    {
      && enter != 0 && Rewritten() && 0 !in islands
      && islandExit != 0 && islandExit in islands && islandExit !in {islandEnter, islandRewrite}
      && exit == R.RelativeJump(islandExit, target)
    }

    predicate Fresh(o: Outcomes)
      reads this`islands, this`enters
    {
      && o.enter !in enters && 0 !in enters && 0 !in islands
      && o.islandEnter !in islands && o.islandRewrite !in islands && o.islandExit !in islands
      && (o.islandEnter != 0 ==> o.islandEnter != o.islandRewrite && o.islandEnter != o.islandExit)
      && (o.islandRewrite != 0 ==> o.islandRewrite != o.islandExit)
    }

    /** sh_island_free: only ever called for a live island. */
    method FreeIsland(addr: Word64) returns (none: Word64)
      requires addr in islands
      modifies this`islands
      ensures islands == old(islands) - {addr} && none == 0
    {
      islands := islands - {addr};
      none := 0;
    }

    method FreeEnter()
      requires enter in enters
      modifies this`enters
      ensures enters == old(enters) - {enter}
    {
      enters := enters - {enter};
    }

    /** Free the enter and branch islands. */
    method GiveBack()
      requires 0 !in islands && (islandEnter != 0 ==> islandEnter in islands)
      requires islandRewrite != 0 ==> islandRewrite in islands && islandRewrite != islandEnter
      modifies this`islandEnter, this`islandRewrite, this`islands
      ensures islandEnter == 0 && islandRewrite == 0
      ensures islands == old(islands - {islandEnter, islandRewrite})
    {
      ghost var before, a, b := islands, islandEnter, islandRewrite;
      if islandEnter != 0 {
        islandEnter := FreeIsland(islandEnter);
      }
      if islandRewrite != 0 {
        islandRewrite := FreeIsland(islandRewrite);
      }
      assert islands == before - {a, b};
    }

    /** sh_inst_rewrite inside sh_inst_safe_rewrite. */
    method SafeRewrite(o: Outcomes, resume: Word64) returns (r: Errno)
      requires enter in enters && islandRewrite == 0 && 0 !in islands && o.islandRewrite !in islands
      modifies this`backup, this`islandRewrite, this`islands, this`enters
      ensures enter in enters && enters == old(enters)[enter := enters[enter]]
      ensures islandRewrite in {0, o.islandRewrite}
      ensures if islandRewrite == 0 then islands == old(islands)
              else islands == old(islands)[islandRewrite := W.PadWords(islandRewrite, BranchTarget())]
      ensures r == OK ==>
                && backup == targetWord && R.Rewritable(Win(resume)) && enters[enter] == R.EnterWords(Win(resume))
                && (islandRewrite != 0 <==> !procStart && IsBranchType(backup))
    {
      hide R.Rewritable, R.EnterWords, R.FixAddr, R.NamedAddr, R.GetType, R.InfoOf, W.PadWords, IsBranchType;
      if !o.protects {
        return MPROT;
      }
      backup := targetWord;
      if !procStart && IsBranchType(backup) {
        if o.islandRewrite == 0 {
          return HOOK_REWRITE_FAILED;
        }
        islandRewrite := o.islandRewrite;
        islands := islands[islandRewrite := W.PadWords(islandRewrite, BranchTarget())];
      }
      if o.crashes {
        return HOOK_REWRITE_CRASH;
      }
      if !R.Rewritable(Win(resume)) {
        return HOOK_REWRITE_FAILED;
      }
      enters := enters[enter := R.EnterWords(Win(resume))];
      return OK;
    }

    /** sh_inst_rewrite_with_island: on failure its islands are given back. */
    method RewriteWithIsland(o: Outcomes) returns (r: Errno)
      requires enter in enters && islandEnter == 0 && islandRewrite == 0 && 0 !in islands
      requires o.islandEnter !in islands && o.islandRewrite !in islands
      requires o.islandEnter != 0 ==> o.islandEnter != o.islandRewrite
      modifies this`backup, this`islandEnter, this`islandRewrite, this`islands, this`enters
      ensures enter in enters && enters == old(enters)[enter := enters[enter]]
      ensures r != OK ==> islandEnter == 0 && islandRewrite == 0 && islands == old(islands)
      ensures islandEnter in {0, o.islandEnter} && islandRewrite in {0, o.islandRewrite}
      ensures r == OK ==>
                && Rewritten() && backup == targetWord && islands - {islandEnter, islandRewrite} == old(islands)
                && islands.Keys == old(islands.Keys) + ({islandEnter, islandRewrite} - {0})
    {
      hide R.Rewritable, R.EnterWords, R.FixAddr, R.NamedAddr, R.GetType, R.InfoOf, W.PadWords, IsBranchType;
      var resume := Wrap64(target + 4);
      if !procStart {
        if o.islandEnter == 0 {
          return HOOK_ISLAND_ENTER;
        }
        islandEnter := o.islandEnter;
        islands := islands[islandEnter := W.PadWords(islandEnter, Wrap64(target + 4))];
        resume := islandEnter;
      }
      r := SafeRewrite(o, resume);
      if r != OK {
        GiveBack();
      }
    }

    /** sh_inst_reloc_with_island: a new exit island, the patch, and only then the old exit island goes. */
    method RelocWithIsland(newAddr: Word64, toInterceptor: bool, o: Outcomes) returns (r: Errno)
      requires 0 !in islands && o.islandExit !in islands && (islandExit != 0 ==> islandExit in islands)
      modifies this`exit, this`islandExit, this`islands, this`targetWord
      ensures r != OK ==> islands == old(islands) && islandExit == old(islandExit) && exit == old(exit)
                          && targetWord == old(targetWord)
      ensures r == OK ==>
                && islandExit == o.islandExit != 0
                && islands == old(islands - {islandExit})[islandExit := R.ExitIsland(procStart, toInterceptor, newAddr)]
                && targetWord == exit == R.RelativeJump(islandExit, target)
    {
      hide R.RelativeJump, R.ExitIsland;
      if o.islandExit == 0 {
        return HOOK_ISLAND_EXIT;
      }
      islands := islands[o.islandExit := R.ExitIsland(procStart, toInterceptor, newAddr)];
      var newExit := R.RelativeJump(o.islandExit, target);
      if !o.writes {
        var _ := FreeIsland(o.islandExit);
        return WRITE_FAILED;
      }
      targetWord := newExit;
      if islandExit != 0 {
        islandExit := FreeIsland(islandExit);
      }
      islandExit := o.islandExit;
      exit := newExit;
      return OK;
    }

    /** sh_inst_hook_with_island. */
    method HookWithIsland(newAddr: Word64, toInterceptor: bool, o: Outcomes) returns (r: Errno)
      requires Unhooked() && enter != 0 && enter in enters && 0 !in islands
      requires o.islandEnter !in islands && o.islandRewrite !in islands && o.islandExit !in islands
      requires o.islandEnter != 0 ==> o.islandEnter != o.islandRewrite && o.islandEnter != o.islandExit
      requires o.islandRewrite != 0 ==> o.islandRewrite != o.islandExit
      modifies this`backup, this`exit, this`islandExit, this`islandEnter, this`islandRewrite
      modifies this`islands, this`enters, this`targetWord
      ensures enter in enters && enters == old(enters)[enter := enters[enter]]
      ensures r != OK ==> Unhooked() && targetWord == old(targetWord) && islands == old(islands)
      ensures r == OK ==>
                && Hooked() && targetWord == exit && backup == old(targetWord)
                && islands[islandExit] == R.ExitIsland(procStart, toInterceptor, newAddr)
                && islands - OwnIslands() == old(islands)
    {
      hide R.Rewritable, R.EnterWords, R.RelativeJump, R.ExitIsland, IsBranchType, W.PadWords;
      r := RewriteWithIsland(o);
      if r == OK {
        r := RelocWithIsland(newAddr, toInterceptor, o);
        if r != OK {
          GiveBack();
        }
      }
    }

    /** sh_inst_hook. A failed hook leaves no trace; after a successful one this hook holds its enter and its islands,
        and everything else is as before. */
    method Hook(newAddr: Word64, toInterceptor: bool, o: Outcomes) returns (r: Errno)
      requires Unhooked() && Fresh(o)
      modifies this
      ensures r != OK ==> Unhooked() && targetWord == old(targetWord) && islands == old(islands) && enters == old(enters)
      ensures r == OK ==>
                && Hooked() && targetWord == exit && backup == old(targetWord)
                && islands[islandExit] == R.ExitIsland(procStart, toInterceptor, newAddr)
                && islands - OwnIslands() == old(islands) && enters - {enter} == old(enters)
    {
      hide Rewritten, R.ExitIsland, R.RelativeJump;
      enter := o.enter;
      if enter == 0 {
        return HOOK_ENTER;
      }
      enters := enters[enter := []];
      r := HookWithIsland(newAddr, toInterceptor, o);
      if r != OK {
        FreeEnter();
      }
    }

    /** sh_inst_rehook. A failed rehook leaves the hook as it was. */
    method Rehook(newAddr: Word64, toInterceptor: bool, o: Outcomes) returns (r: Errno)
      requires Hooked() && Fresh(o)
      modifies this`exit, this`islandExit, this`islands, this`targetWord
      ensures Hooked() && islands - OwnIslands() == old(islands - OwnIslands())
      ensures r != OK ==> targetWord == old(targetWord) && islands == old(islands) && islandExit == old(islandExit)
      ensures r == OK ==> targetWord == exit && islands[islandExit] == R.ExitIsland(procStart, toInterceptor, newAddr)
    {
      hide R.Rewritable, R.EnterWords, R.RelativeJump, R.ExitIsland, IsBranchType, W.PadWords;
      r := RelocWithIsland(newAddr, toInterceptor, o);
    }

    /** sh_inst_unhook. It gives everything back, or, when the target was changed by somebody else, nothing. */
    method Unhook(writes: bool) returns (r: Errno)
      requires Hooked()
      modifies this`targetWord, this`islandExit, this`islandEnter, this`islandRewrite, this`islands, this`enters
      ensures r == if old(targetWord) == exit then (if writes then OK else WRITE_FAILED) else UNHOOK_TRAMPO_MISMATCH
      ensures r == OK ==> Unhooked() && targetWord == backup && islands == old(islands - OwnIslands())
                          && enters == old(enters) - {enter}
      ensures r != OK ==> Hooked() && targetWord == old(targetWord) && islands == old(islands) && enters == old(enters)
    {
      hide R.Rewritable, R.EnterWords, R.RelativeJump, IsBranchType, W.PadWords;
      if targetWord != exit {
        return UNHOOK_TRAMPO_MISMATCH;
      }
      if !writes {
        return WRITE_FAILED;
      }
      targetWord := backup;
      if islandExit != 0 {
        islandExit := FreeIsland(islandExit);
      }
      GiveBack();
      FreeEnter();
      return OK;
    }

    /** Hook, any number of rehooks, some of which may fail, and unhook: the target has its instruction back, and no
        enter and no island is left over or lost. */
    method HookRehookUnhook(first: Word64, hook: Outcomes, rehooks: seq<(Word64, bool, Outcomes)>) returns (done: bool)
      requires Unhooked() && Fresh(hook)
      modifies this
      ensures targetWord == old(targetWord) && islands == old(islands) && enters == old(enters) && Unhooked()
      ensures done ==> backup == old(targetWord)
    {
      hide R.Rewritable, R.EnterWords, R.RelativeJump, R.ExitIsland, IsBranchType, W.PadWords, Rewritten;
      var r := Hook(first, false, hook);
      if r != OK {
        return false;
      }
      ghost var mine := enter;
      var i := 0;
      while i < |rehooks|
        invariant Hooked() && targetWord == exit && backup == old(targetWord) && enter == mine
        invariant islands - OwnIslands() == old(islands) && enters - {mine} == old(enters)
      {
        var (newAddr, toInterceptor, o) := rehooks[i];
        if Fresh(o) {
          r := Rehook(newAddr, toInterceptor, o);
        }
        i := i + 1;
      }
      r := Unhook(true);
      return true;
    }
  }

  /** A live block is in memory, inside the engine's code. */
  ghost predicate Loaded(m: Memory, at: Word64, words: Code, code: set<int>) {
    S.CodeAt(m, at, words) && S.Bytes(at, |words|) <= code
  }

  /** Where Island.Pool.AllocEnter and Island.Pool.AllocRewrite put an island, as they ensure it. */
  ghost predicate Near(from: Word64, dest: Word64) {
    from + 8 < S.CODE_END && Reach.InBranchRange(from + 4, dest)
  }

  lemma SameInfo(inst: Inst)
    ensures var win := inst.Win(inst.Resume());
            R.FixAddr(R.NamedAddr(inst.backup, R.PcOf(win, 0)), R.InfoOf(win)) == inst.BranchTarget()
  {
    hide R.FixAddr, R.NamedAddr, R.RewriteLen;
    var win := inst.Win(inst.Resume());
    var other := R.Window(inst.target, [inst.backup], inst.enter, inst.procStart,
                          if inst.procStart then R.NoIsland else R.At(0), 0);
    assert R.InfoOf(win).instLens == R.InfoOf(other).instLens;
  }

  /** What a successful hook leaves behind is what the relocation theorems of A64Window start from. */
  lemma HookedIsInstalled(inst: Inst, m: Memory, code: set<int>)
    requires inst.Hooked() && inst.target + 4 < S.CODE_END
    requires Loaded(m, inst.enter, inst.enters[inst.enter], code)
    requires inst.enter + 4 * |inst.enters[inst.enter]| + 0x40 < S.CODE_END
    requires inst.islandEnter != 0 ==>
               Loaded(m, inst.islandEnter, inst.islands[inst.islandEnter], code) && Near(inst.islandEnter, inst.target + 4)
    requires inst.islandRewrite != 0 ==>
               && Loaded(m, inst.islandRewrite, inst.islands[inst.islandRewrite], code)
               && Near(inst.islandRewrite, inst.BranchTarget())
    ensures W.Installed(inst.Win(inst.Resume()), m, code)
  {
    hide S.CodeAt, S.Bytes, R.EnterWords, R.Rewritable, R.FixAddr, R.NamedAddr, R.InfoOf, R.RelativeJump, I.Decode;
    hide R.GetType, R.Head19, R.Head14, S.IsSkip, L.SameTest;
    var win := inst.Win(inst.Resume());
    SameInfo(inst);
    assert W.WindowEnd(win) == inst.target + 4;
    if L.IsBranch(I.Decode(inst.backup)) {
      var t := L.HeadTests(inst.backup);
      assert IsBranchType(inst.backup);
    }
  }
}
