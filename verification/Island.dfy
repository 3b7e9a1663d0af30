/** Islands (sh_island.c): trampolines on anonymous pages first, gaps of the target's ELF second; and what the branch
    ranges of arch/arm64/sh_inst.c and arch/arm64/sh_a64.c make of them. */
module Island {
  import opened Words
  import opened Arith
  import T = Trampo
  import E = ElfAlloc
  import R = Reach

  datatype Kind = AnonPage | ElfGap(gap: nat, first: nat)

  // sh_island_t; the place inside a gap is what the search in sh_elf_free finds again.
  datatype Island = Island(addr: nat, size: nat, kind: Kind)

  predicate PageApart(config: T.Config, ptr: nat, g: E.Gap) {
    ptr + config.pageSize <= g.start || g.end <= ptr
  }

  /** The gaps found by sh_elf.c do not overlap, and mmap returns pages that nobody uses. */
  ghost predicate Apart(config: T.Config, pages: seq<T.Page>, gaps: seq<E.Gap>) {
    && (forall i, j | 0 <= i < j < |gaps| :: gaps[i].end <= gaps[j].start || gaps[j].end <= gaps[i].start)
    && (forall k: nat, i: nat | k < |pages| && i < |gaps| :: PageApart(config, pages[k].ptr, gaps[i]))
    && (forall k: nat | k < |pages| :: pages[k].ptr % 4 == 0)
  }

  ghost predicate MappingOk(config: T.Config, gaps: seq<E.Gap>, mapping: T.Mapping) {
    mapping.Mapped? ==> mapping.ptr % 4 == 0 && forall i: nat | i < |gaps| :: PageApart(config, mapping.ptr, gaps[i])
  }

  /** Distinct gaps with flags of their own, whose units keep instructions aligned. */
  ghost predicate GapsOk(gaps: seq<E.Gap>, unit: nat) {
    && unit > 0 && unit % 4 == 0
    && (forall i, j | 0 <= i < j < |gaps| :: gaps[i] != gaps[j] && gaps[i].flags != gaps[j].flags)
    && (forall i | 0 <= i < |gaps| :: gaps[i].start > 0 && gaps[i].start % 4 == 0 && gaps[i].unitSize == unit)
  }

  lemma IndexOf(gap: E.Gap, first: nat)
    requires gap.Valid()
    ensures gap.unitSize > 0 && gap.Addr(first) >= gap.start && (gap.Addr(first) - gap.start) / gap.unitSize == first
  {
    DivMul(gap.unitSize, first);
  }

  lemma StaysAligned(base: nat, unit: nat, i: nat)
    requires base % 4 == 0 && unit % 4 == 0
    ensures (base + unit * i) % 4 == 0
  {
    assert base + unit * i == 4 * (base / 4 + unit / 4 * i) by {
      assert unit * i == 4 * (unit / 4) * i == 4 * (unit / 4 * i);
    }
  }

  /** A trampoline that was found is aligned and in range, and a page that was mapped stays away from the gaps. */
  lemma TrampoFits(config: T.Config, pages: seq<T.Page>, gaps: seq<E.Gap>, o: T.Outcome, low: nat, high: nat, now: nat,
                   mapping: T.Mapping)
    requires T.PagesOk(config, pages) && Apart(config, pages, gaps) && config.trampoSize % 4 == 0 && high > 0
    requires T.Possible(o, config, pages)
    requires T.Fits(o, config, pages, low, high, now, mapping) && MappingOk(config, gaps, mapping)
    ensures o != T.Refused ==>
              var addr := T.OutcomeAddr(o, config, pages); low <= addr <= high && addr % 4 == 0
    ensures Apart(config, T.OutcomePages(o, config, pages), gaps)
  {
    hide T.PagesOk, PageApart, T.SlotCount, T.FreshSlots;
    match o
    case Refused =>
    case Reused(k, i) => StaysAligned(pages[k].ptr, config.trampoSize, i);
    case FromNewPage(ptr, i) =>
      StaysAligned(ptr, config.trampoSize, i);
      var after := T.OutcomePages(o, config, pages);
      assert forall k | 0 < k < |after| :: after[k] == pages[k - 1];
  }

  lemma SlotFreed(config: T.Config, pages: seq<T.Page>, gaps: seq<E.Gap>, k: nat, i: nat, now: nat)
    requires T.PagesOk(config, pages) && Apart(config, pages, gaps) && T.Exists(pages, k, i)
    ensures var after := T.WithSlot(pages, k, i, T.Slot(false, now));
            && Apart(config, after, gaps)
            && forall a :: T.IsLive(config, after, a) <==> T.IsLive(config, pages, a) && a != T.AddrAt(config, pages, k, i)
  {
    hide T.PagesOk, T.AddrAt, PageApart, T.IsLive;
    forall a ensures T.IsLive(config, T.WithSlot(pages, k, i, T.Slot(false, now)), a)
                     <==> T.IsLive(config, pages, a) && a != T.AddrAt(config, pages, k, i)
    {
      T.LiveAfter(config, pages, k, i, T.Slot(false, now), a);
    }
  }

  lemma RunFits(gap: E.Gap, flags: seq<E.Unit>, first: nat, n: nat, low: nat, high: nat, now: nat)
    requires gap.start % 4 == 0 && gap.unitSize % 4 == 0 && gap.Fits(flags, first, n, low, high, now)
    ensures low <= gap.Addr(first) <= high && gap.Addr(first) % 4 == 0
  {
    StaysAligned(gap.start, gap.unitSize, first);
  }

  class Pool {
    const trampos: T.TrampoManager
    const gaps: seq<E.Gap>
    const unit: nat  // SH_ELF_UNIT_SIZE

    constructor (trampos: T.TrampoManager, gaps: seq<E.Gap>, unit: nat)
      ensures this.trampos == trampos && this.gaps == gaps && this.unit == unit
    {
      this.trampos, this.gaps, this.unit := trampos, gaps, unit;
    }

    function Units(size: nat): nat
      requires unit > 0
    {
      AlignEnd(size, unit) / unit
    }

    /** The island was allocated and not freed since. */
    ghost predicate Live(a: Island)
      reads trampos, set g | g in gaps
      requires unit > 0
    {
      match a.kind
      case AnonPage => T.IsLive(trampos.config, trampos.pages, a.addr)
      case ElfGap(g, first) =>
        g < |gaps| && a.addr == gaps[g].Addr(first) && E.Alloc(first, Units(a.size)) in gaps[g].live
    }

    ghost predicate Valid()
      reads trampos, set g | g in gaps, set g | g in gaps :: g.flags
    {
      && trampos.Valid() && trampos.config.trampoSize % 4 == 0
      && GapsOk(gaps, unit) && Apart(trampos.config, trampos.pages, gaps)
      && forall i | 0 <= i < |gaps| :: gaps[i].Valid()
    }

    /** sh_elf_alloc_in_gaps: the first gap that has room. `protects` tells whether sh_util_mprotect succeeds there. */
    method AllocInGaps(n: nat, low: nat, high: nat, now: nat, protects: nat -> bool) returns (addr: nat, kind: Kind)
      requires Valid() && 0 < n
      modifies (set g | g in gaps)`live, set g | g in gaps :: g.flags
      ensures Valid() && kind.ElfGap?
      ensures addr != 0 ==>
                && kind.gap < |gaps| && addr == gaps[kind.gap].Addr(kind.first)
                && gaps[kind.gap].Fits(old(gaps[kind.gap].flags[..]), kind.first, n, low, high, now)
                && gaps[kind.gap].live == old(gaps[kind.gap].live) + {E.Alloc(kind.first, n)}
                && E.Alloc(kind.first, n) !in old(gaps[kind.gap].live)
      ensures forall i | 0 <= i < |gaps| && (addr == 0 || i != kind.gap) :: gaps[i].live == old(gaps[i].live)
      ensures forall i, k: nat | 0 <= i < |gaps| && protects(i) && (addr == 0 || i < kind.gap) ::
                !gaps[i].Fits(old(gaps[i].flags[..]), k, n, low, high, now)
    {
      hide E.Gap.Valid, E.Gap.Fits, E.Gap.Addr, E.Marked, T.TrampoManager.Valid, Apart;
      var i := 0;
      while i < |gaps|
        invariant 0 <= i <= |gaps| && Valid()
        invariant forall j | 0 <= j < |gaps| :: gaps[j].live == old(gaps[j].live)
        invariant forall j | 0 <= j < |gaps| :: gaps[j].flags[..] == old(gaps[j].flags[..])
        invariant forall j, k: nat | 0 <= j < i && protects(j) :: !gaps[j].Fits(old(gaps[j].flags[..]), k, n, low, high, now)
      {
        var gap := gaps[i];
        ghost var first;
        addr, first := gap.AllocInGap(n, low, high, now, protects(i));
        if addr != 0 {
          IndexOf(gap, first);
          return addr, ElfGap(i, (addr - gap.start) / gap.unitSize);
        }
        i := i + 1;
      }
      return 0, ElfGap(0, 0);
    }

    /** What one allocation tells about the backends: anonymous pages are tried first, and gaps in order. */
    ghost predicate Preferred(island: Island, o: T.Outcome, pages: seq<T.Page>, flags: seq<seq<E.Unit>>, low: nat, high: nat,
                              now: nat, mapping: T.Mapping, protects: nat -> bool)
      requires T.Ok(trampos.config) && |flags| == |gaps| && unit > 0
    {
      && T.Fits(o, trampos.config, pages, low, high, now, mapping)
      && (o != T.Refused <==> island.addr != 0 && island.kind == AnonPage)
      && (island.kind.ElfGap? ==>
            forall i, k: nat | 0 <= i < |gaps| && protects(i) && (island.addr == 0 || i < island.kind.gap) ::
              !gaps[i].Fits(flags[i], k, Units(island.size), low, high, now))
    }

    ghost function Flags(): (flags: seq<seq<E.Unit>>)
      reads set g | g in gaps, set g | g in gaps :: g.flags
      ensures |flags| == |gaps|
    {
      seq(|gaps|, (i: nat) requires i < |gaps|
        reads set g | g in gaps, set g | g in gaps :: g.flags => gaps[i].flags[..])
    }

    /** sh_island_alloc. Address 0 is a failure. An island is new, aligned and in range; nobody loses one. */
    method Alloc(size: nat, low: nat, high: nat, now: nat, mapping: T.Mapping, protects: nat -> bool)
      returns (island: Island, ghost o: T.Outcome)
      requires Valid() && 0 < size && low <= high && high > 0
      requires mapping.Mapped? ==> T.FreshMapping(trampos.config, trampos.pages, mapping.ptr)
      requires MappingOk(trampos.config, gaps, mapping)
      modifies trampos`pages, (set g | g in gaps)`live, set g | g in gaps :: g.flags
      ensures Valid() && island.size == size
      ensures Preferred(island, o, old(trampos.pages), old(Flags()), low, high, now, mapping, protects)
      ensures island.addr != 0 ==> low <= island.addr <= high && island.addr % 4 == 0
      ensures island.addr != 0 ==> Live(island) && !old(Live(island))
      ensures forall a: Island :: old(Live(a)) ==> Live(a)
    {
      assert T.PagesOk(trampos.config, trampos.pages);
      hide E.Gap.Valid, E.Gap.Fits, E.Gap.Addr, T.TrampoManager.Valid, T.Fits, Apart, MappingOk, T.FreshMapping,
           T.PagesOk, T.Possible, T.OutcomeAddr, T.OutcomePages, T.IsLive, Units;
      ghost var pages := trampos.pages;
      var addr;
      addr, o := trampos.AllocBetween(low, high, now, mapping);
      TrampoFits(trampos.config, pages, gaps, o, low, high, now, mapping);
      forall a ensures T.IsLive(trampos.config, trampos.pages, a)
                       <==> T.IsLive(trampos.config, pages, a) || (addr != 0 && a == addr)
      {
        T.AllocatedIsNew(trampos.config, pages, o, low, high, now, mapping, a);
      }
      T.AllocatedIsNew(trampos.config, pages, o, low, high, now, mapping, addr);
      if addr != 0 {
        return Island(addr, size, AnonPage), o;
      }
      assert forall i | 0 <= i < |gaps| :: gaps[i].flags[..] == old(gaps[i].flags[..]);
      var kind;
      UnitsOfSome(size);
      addr, kind := AllocInGaps(Units(size), low, high, now, protects);
      if addr != 0 {
        RunFits(gaps[kind.gap], old(gaps[kind.gap].flags[..]), kind.first, Units(size), low, high, now);
      }
      return Island(addr, size, kind), o;
    }

    /** sh_inst_reloc_with_island: whatever is returned, the patch at `pc` reaches it. */
    method AllocExit(pc: Word64, size: nat, now: nat, mapping: T.Mapping, protects: nat -> bool) returns (island: Island)
      requires Valid() && 0 < size && pc % 4 == 0
      requires mapping.Mapped? ==> T.FreshMapping(trampos.config, trampos.pages, mapping.ptr)
      requires MappingOk(trampos.config, gaps, mapping)
      modifies trampos`pages, (set g | g in gaps)`live, set g | g in gaps :: g.flags
      ensures Valid() && (island.addr != 0 ==> Live(island) && !old(Live(island)))
      ensures island.addr != 0 ==> island.addr <= R.UINTPTR_MAX && R.Jumps(pc, island.addr)
    {
      hide Valid, Live, Preferred, R.Jumps, R.InBranchRange, MappingOk, T.FreshMapping;
      ghost var o;
      island, o := Alloc(size, R.Below(pc, R.A64_B_LOW), R.Above(pc, R.A64_B_HIGH), now, mapping, protects);
      if island.addr != 0 {
        R.A64ExitReachable(pc, island.addr);
      }
    }

    /** sh_inst_rewrite_with_island: its branch, in word 1, reaches the instruction behind the target. */
    method AllocEnter(pc: Word64, size: nat, now: nat, mapping: T.Mapping, protects: nat -> bool) returns (island: Island)
      requires Valid() && 0 < size && pc % 4 == 0
      requires mapping.Mapped? ==> T.FreshMapping(trampos.config, trampos.pages, mapping.ptr)
      requires MappingOk(trampos.config, gaps, mapping)
      modifies trampos`pages, (set g | g in gaps)`live, set g | g in gaps :: g.flags
      ensures Valid() && (island.addr != 0 ==> Live(island) && !old(Live(island)))
      ensures island.addr != 0 ==> island.addr <= R.UINTPTR_MAX && R.InBranchRange(island.addr + 4, pc + 4)
                                   && R.Jumps(Wrap64(island.addr + 4), Wrap64(pc + 4))
    {
      hide Valid, Live, Preferred, R.Jumps, R.InBranchRange, MappingOk, T.FreshMapping;
      ghost var o;
      island, o := Alloc(size, R.Below(pc, R.A64_B_HIGH), R.Above(pc, R.A64_B_LOW), now, mapping, protects);
      if island.addr != 0 {
        R.A64EnterReachable(pc, island.addr);
      }
    }

    /** sh_a64_build_island_rewrite: its branch, in word 1, reaches the address that the moved branch wants. */
    method AllocRewrite(addr: Word64, size: nat, now: nat, mapping: T.Mapping, protects: nat -> bool) returns (island: Island)
      requires Valid() && 0 < size && addr % 4 == 0
      requires mapping.Mapped? ==> T.FreshMapping(trampos.config, trampos.pages, mapping.ptr)
      requires MappingOk(trampos.config, gaps, mapping)
      modifies trampos`pages, (set g | g in gaps)`live, set g | g in gaps :: g.flags
      ensures Valid() && (island.addr != 0 ==> Live(island) && !old(Live(island)))
      ensures island.addr != 0 ==> island.addr <= R.UINTPTR_MAX && R.InBranchRange(island.addr + 4, addr)
                                   && R.Jumps(Wrap64(island.addr + 4), addr)
    {
      hide Valid, Live, Preferred, R.Jumps, R.InBranchRange, MappingOk, T.FreshMapping;
      ghost var o;
      island, o := Alloc(size, R.Below(addr, R.A64_B_HIGH + 4), R.Above(addr, R.A64_B_LOW - 4), now, mapping, protects);
      if island.addr != 0 {
        R.A64RewriteReachable(addr, island.addr);
      }
    }

    lemma UnitsOfSome(size: nat)
      requires unit > 0 && size > 0
      ensures Units(size) > 0 && size <= unit * Units(size)
    {
      AlignFacts(size, unit);
    }

    /** The search of sh_elf_free. */
    method FindGap(addr: nat) returns (i: nat)
      ensures i <= |gaps| && (i < |gaps| ==> gaps[i].start <= addr < gaps[i].end)
      ensures forall j | 0 <= j < i :: !(gaps[j].start <= addr < gaps[j].end)
    {
      i := 0;
      while i < |gaps| && !(gaps[i].start <= addr < gaps[i].end)
        invariant 0 <= i <= |gaps|
        invariant forall j | 0 <= j < i :: !(gaps[j].start <= addr < gaps[j].end)
      {
        i := i + 1;
      }
    }

    /** sh_island_free: the island goes back to the backend it came from, and no other island is affected. */
    method Free(island: Island, now: nat) returns (freed: Island)
      requires Valid() && Live(island) && island.addr != 0 && 0 < island.size
      modifies trampos`pages, trampos`freedAt, (set g | g in gaps)`live, set g | g in gaps :: g.flags
      ensures Valid() && freed == island.(addr := 0)
      ensures !Live(island)
      ensures forall a: Island :: a.addr != island.addr ==> (Live(a) <==> old(Live(a)))
    {
      assert T.PagesOk(trampos.config, trampos.pages);
      hide E.Gap.Valid, T.PagesOk, T.StampsOk, T.IsLive, Apart, Units, T.AddrAt, T.Exists, T.WithSlot;
      freed := island.(addr := 0);
      match island.kind
      case AnonPage =>
        ghost var pages := trampos.pages;
        ghost var found, k, i := trampos.Free(island.addr, now);
        SlotFreed(trampos.config, pages, gaps, k, i, now);
      case ElfGap(g, first) =>
        var i := FindGap(island.addr);
        FoundAgain(island, i);
        UnitsOfSome(island.size);
        gaps[i].Free(island.addr, Units(island.size), now, first);
        assert forall j, n | j != first :: E.Alloc(j, n) in gaps[i].live <==> E.Alloc(j, n) in old(gaps[i].live);
    }

    lemma FoundAgain(island: Island, i: nat)
      requires Valid() && Live(island) && island.kind.ElfGap? && 0 < island.size
      requires i <= |gaps| && forall j | 0 <= j < i :: !(gaps[j].start <= island.addr < gaps[j].end)
      requires i < |gaps| ==> gaps[i].start <= island.addr < gaps[i].end
      ensures i == island.kind.gap
    {
      var g := island.kind.gap;
      UnitsOfSome(island.size);
      gaps[g].LiveInsideGap(E.Alloc(island.kind.first, Units(island.size)));
    }

    /** Live islands never overlap, whichever backend they come from. */
    lemma LiveAreDisjoint(a: Island, b: Island)
      requires Valid() && Live(a) && Live(b) && a.addr != b.addr
      requires 0 < a.size <= trampos.config.trampoSize && 0 < b.size <= trampos.config.trampoSize
      ensures a.addr + a.size <= b.addr || b.addr + b.size <= a.addr
    {
      hide T.IsLive, E.Gap.Valid, E.Gap.Addr, Units;
      match (a.kind, b.kind)
      case (AnonPage, AnonPage) => T.LiveAreDisjoint(trampos.config, trampos.pages, a.addr, b.addr);
      case (ElfGap(g, i), ElfGap(h, j)) =>
        InsideGap(a);
        InsideGap(b);
        if g == h {
          gaps[g].LiveAreDisjoint(E.Alloc(i, Units(a.size)), E.Alloc(j, Units(b.size)));
          UnitsOfSome(a.size);
          UnitsOfSome(b.size);
        }
      case (AnonPage, ElfGap(_, _)) =>
        InsideGap(b);
        InsidePage(a, b.kind.gap);
      case (ElfGap(_, _), AnonPage) =>
        InsideGap(a);
        InsidePage(b, a.kind.gap);
    }

    lemma InsideGap(a: Island)
      requires Valid() && Live(a) && a.kind.ElfGap? && 0 < a.size
      ensures gaps[a.kind.gap].start <= a.addr && a.addr + a.size <= gaps[a.kind.gap].end
    {
      hide T.IsLive, Units;
      UnitsOfSome(a.size);
      gaps[a.kind.gap].LiveInsideGap(E.Alloc(a.kind.first, Units(a.size)));
    }

    lemma InsidePage(a: Island, g: nat)
      requires Valid() && Live(a) && a.kind == AnonPage && 0 < a.size <= trampos.config.trampoSize && g < |gaps|
      ensures a.addr + a.size <= gaps[g].start || gaps[g].end <= a.addr
    {
      hide T.Addr, T.SlotCount;
      var c, pages := trampos.config, trampos.pages;
      var k: nat, i: nat :| T.Exists(pages, k, i) && pages[k].slots[i].used && T.AddrAt(c, pages, k, i) == a.addr;
      T.SlotOnPage(c, pages[k].ptr, i);
      assert PageApart(c, pages[k].ptr, gaps[g]);
    }
  }
}
