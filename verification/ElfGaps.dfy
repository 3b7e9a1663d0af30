/** Finding the unused memory of a loaded ELF (sh_elf_get_gaps_from_phdr, sh_elf_get_gaps_from_useless_symbols and the
    bound of sh_elf_create in sh_elf.c). Load segments are as in the Program Header chapter of the System V gABI. */
module ElfGaps {
  import opened Arith

  datatype Phdr = Phdr(isLoad: bool, vaddr: nat, memsz: nat, filesz: nat, executable: bool)

  // [start, end)
  datatype Extent = Extent(start: nat, end: nat)

  datatype Option<T> = None | Some(value: T)

  /** The page size, and SH_ELF_UNIT_SIZE; both are powers of two. */
  datatype Sizes = Sizes(page: nat, unit: nat)

  // SH_ELF_MIN_ALLOC_SIZE
  const MIN_ALLOC_SIZE: nat := 8

  predicate Ok(z: Sizes) {
    z.unit > 0 && z.page > 0 && Aligned(z.page, z.unit)
  }

  /** The next load segment, which is not looked for when the kernel loaded the ELF. */
  function NextLoad(phdrs: seq<Phdr>, from: nat): (j: nat)
    requires from <= |phdrs|
    ensures from <= j <= |phdrs|
    ensures j < |phdrs| ==> phdrs[j].isLoad
    ensures forall k | from <= k < j :: !phdrs[k].isLoad
    decreases |phdrs| - from
  {
    if from == |phdrs| || phdrs[from].isLoad then from else NextLoad(phdrs, from + 1)
  }

  function End(base: nat, p: Phdr): nat {
    base + p.vaddr + p.memsz
  }

  function NextPageStart(z: Sizes, base: nat, phdrs: seq<Phdr>, i: nat, byKernel: bool): nat
    requires Ok(z) && i < |phdrs|
  {
    var next := if byKernel then |phdrs| else NextLoad(phdrs, i + 1);
    if next == |phdrs| then AlignEnd(End(base, phdrs[i]), z.page) else AlignStart(base + phdrs[next].vaddr, z.page)
  }

  /** The gap behind segment i, if there is one. */
  function GapBehind(z: Sizes, base: nat, phdrs: seq<Phdr>, i: nat, byKernel: bool): Option<Extent>
    requires Ok(z) && i < |phdrs|
  {
    var cur := phdrs[i];
    if !cur.isLoad then None
    else
      var pageEnd := AlignEnd(End(base, cur), z.page);
      var filePageEnd := AlignEnd(base + cur.vaddr + cur.filesz, z.page);
      var nextPageStart := NextPageStart(z, base, phdrs, i, byKernel);
      var gap :=
        if cur.executable || pageEnd > filePageEnd then Extent(AlignEnd(End(base, cur), z.unit), nextPageStart)
        else if nextPageStart > pageEnd then Extent(pageEnd, nextPageStart)
        else Extent(0, 0);
      if gap.end <= gap.start || gap.end - gap.start < MIN_ALLOC_SIZE then None else Some(gap)
  }

  /** The gaps of the first n program headers. */
  function Gaps(z: Sizes, base: nat, phdrs: seq<Phdr>, n: nat, byKernel: bool): seq<Extent>
    requires Ok(z) && n <= |phdrs|
  {
    if n == 0 then []
    else
      Gaps(z, base, phdrs, n - 1, byKernel)
      + match GapBehind(z, base, phdrs, n - 1, byKernel) case Some(gap) => [gap] case None => []
  }

  function Loads(phdrs: seq<Phdr>): nat {
    if phdrs == [] then 0 else Loads(phdrs[..|phdrs| - 1]) + if phdrs[|phdrs| - 1].isLoad then 1 else 0
  }

  /** Load segments ascend and share no page; the load bias is a page address. */
  ghost predicate WellFormed(z: Sizes, base: nat, phdrs: seq<Phdr>) {
    && Ok(z) && Aligned(base, z.page)
    && forall i, j | 0 <= i < j < |phdrs| && phdrs[i].isLoad && phdrs[j].isLoad ::
         AlignEnd(End(base, phdrs[i]), z.page) <= AlignStart(base + phdrs[j].vaddr, z.page)
  }

  /** sh_elf_get_gaps_from_phdr. */
  method GetGapsFromPhdr(z: Sizes, base: nat, phdrs: seq<Phdr>, byKernel: bool) returns (gaps: seq<Extent>)
    requires Ok(z)
    ensures gaps == Gaps(z, base, phdrs, |phdrs|, byKernel)
  {
    gaps := [];
    var i := 0;
    while i < |phdrs|
      invariant 0 <= i <= |phdrs| && gaps == Gaps(z, base, phdrs, i, byKernel)
    {
      var cur := phdrs[i];
      if cur.isLoad {
        var next := |phdrs|;
        if !byKernel {
          next := FindNextLoad(phdrs, i + 1);
        }
        var end := base + cur.vaddr + cur.memsz;
        var pageEnd := AlignEnd(end, z.page);
        var filePageEnd := AlignEnd(base + cur.vaddr + cur.filesz, z.page);
        var nextPageStart := if next == |phdrs| then pageEnd else AlignStart(base + phdrs[next].vaddr, z.page);
        var gap := Extent(0, 0);
        if cur.executable {
          gap := Extent(AlignEnd(end, z.unit), nextPageStart);
        } else if pageEnd > filePageEnd {
          gap := Extent(AlignEnd(end, z.unit), nextPageStart);
        } else if nextPageStart > pageEnd {
          gap := Extent(pageEnd, nextPageStart);
        }
        if !(gap.end <= gap.start) && !(gap.end - gap.start < MIN_ALLOC_SIZE) {
          gaps := gaps + [gap];
        }
      }
      i := i + 1;
    }
  }

  method FindNextLoad(phdrs: seq<Phdr>, from: nat) returns (j: nat)
    requires from <= |phdrs|
    ensures j == NextLoad(phdrs, from)
  {
    j := from;
    while j < |phdrs| && !phdrs[j].isLoad
      invariant from <= j <= |phdrs| && NextLoad(phdrs, from) == NextLoad(phdrs, j)
    {
      j := j + 1;
    }
  }

  /** Segment i ends before its page ends, and that is before the next segment's page starts. */
  lemma BehindSegment(z: Sizes, base: nat, phdrs: seq<Phdr>, i: nat, byKernel: bool)
    requires WellFormed(z, base, phdrs) && i < |phdrs| && phdrs[i].isLoad
    ensures var end := End(base, phdrs[i]);
            var next := NextPageStart(z, base, phdrs, i, byKernel);
            && end <= AlignEnd(end, z.unit) <= AlignEnd(end, z.page) <= next
            && Aligned(AlignEnd(end, z.unit), z.unit) && Aligned(AlignEnd(end, z.page), z.unit) && Aligned(next, z.unit)
  {
    hide AlignStart, AlignEnd, Aligned;
    var end := End(base, phdrs[i]);
    AlignFacts(end, z.unit);
    AlignFacts(end, z.page);
    AlignedTwice(AlignEnd(end, z.page), z.page, z.unit);
    AlignEndIsLeast(end, AlignEnd(end, z.page), z.unit);
    var next := if byKernel then |phdrs| else NextLoad(phdrs, i + 1);
    if next < |phdrs| {
      AlignFacts(base + phdrs[next].vaddr, z.page);
      AlignedTwice(AlignStart(base + phdrs[next].vaddr, z.page), z.page, z.unit);
    }
  }

  /** A gap is unit-aligned, big enough, and lies behind its segment and before the page of every later one. */
  lemma GapIsBetween(z: Sizes, base: nat, phdrs: seq<Phdr>, i: nat, byKernel: bool, gap: Extent)
    requires WellFormed(z, base, phdrs) && i < |phdrs| && GapBehind(z, base, phdrs, i, byKernel) == Some(gap)
    ensures phdrs[i].isLoad && gap.end - gap.start >= MIN_ALLOC_SIZE
    ensures Aligned(gap.start, z.unit) && Aligned(gap.end, z.unit)
    ensures End(base, phdrs[i]) <= gap.start
    ensures forall j | i < j < |phdrs| && phdrs[j].isLoad :: gap.end <= base + phdrs[j].vaddr
  {
    hide AlignStart, AlignEnd, Aligned;
    BehindSegment(z, base, phdrs, i, byKernel);
    forall j | i < j < |phdrs| && phdrs[j].isLoad ensures gap.end <= base + phdrs[j].vaddr {
      NextIsBelow(z, base, phdrs, i, byKernel, j);
    }
  }

  lemma NextIsBelow(z: Sizes, base: nat, phdrs: seq<Phdr>, i: nat, byKernel: bool, j: nat)
    requires WellFormed(z, base, phdrs) && i < j < |phdrs| && phdrs[i].isLoad && phdrs[j].isLoad
    ensures NextPageStart(z, base, phdrs, i, byKernel) <= base + phdrs[j].vaddr
  {
    hide AlignStart, AlignEnd, Aligned;
    AlignFacts(base + phdrs[j].vaddr, z.page);
    var next := if byKernel then |phdrs| else NextLoad(phdrs, i + 1);
    if next < |phdrs| && next != j {
      AlignFacts(base + phdrs[next].vaddr, z.page);
      AlignFacts(End(base, phdrs[next]), z.page);
      assert next < j;
    }
  }

  predicate Disjoint(start: nat, end: nat, start': nat, end': nat) {
    end <= start' || end' <= start
  }

  /** No gap touches the memory image of any segment. */
  lemma GapAvoidsSegments(z: Sizes, base: nat, phdrs: seq<Phdr>, i: nat, byKernel: bool, gap: Extent, j: nat)
    requires WellFormed(z, base, phdrs) && i < |phdrs| && GapBehind(z, base, phdrs, i, byKernel) == Some(gap)
    requires j < |phdrs| && phdrs[j].isLoad
    ensures Disjoint(gap.start, gap.end, base + phdrs[j].vaddr, End(base, phdrs[j]))
  {
    hide AlignStart, AlignEnd, Aligned, GapBehind;
    GapIsBetween(z, base, phdrs, i, byKernel, gap);
    if j < i {
      AlignFacts(base + phdrs[i].vaddr, z.page);
      AlignFacts(End(base, phdrs[j]), z.page);
      assert End(base, phdrs[j]) <= base + phdrs[i].vaddr;
    }
  }

  /** The gap that a segment contributes, at its place in the list. */
  lemma {:induction false} GapOrigin(z: Sizes, base: nat, phdrs: seq<Phdr>, n: nat, byKernel: bool, k: nat) returns (i: nat)
    requires Ok(z) && n <= |phdrs| && k < |Gaps(z, base, phdrs, n, byKernel)|
    ensures i < n && GapBehind(z, base, phdrs, i, byKernel) == Some(Gaps(z, base, phdrs, n, byKernel)[k])
    ensures k == |Gaps(z, base, phdrs, i, byKernel)|
  {
    hide GapBehind;
    if k < |Gaps(z, base, phdrs, n - 1, byKernel)| {
      i := GapOrigin(z, base, phdrs, n - 1, byKernel, k);
    } else {
      i := n - 1;
    }
  }

  lemma {:induction false} GapsGrow(z: Sizes, base: nat, phdrs: seq<Phdr>, m: nat, n: nat, byKernel: bool)
    requires Ok(z) && m <= n <= |phdrs|
    ensures |Gaps(z, base, phdrs, m, byKernel)| <= |Gaps(z, base, phdrs, n, byKernel)|
    decreases n
  {
    hide GapBehind;
    if m < n {
      GapsGrow(z, base, phdrs, m, n - 1, byKernel);
    }
  }

  /** Every gap is aligned and big enough, no gap touches a segment, and no two gaps touch each other. */
  lemma GapsAreSound(z: Sizes, base: nat, phdrs: seq<Phdr>, byKernel: bool, k: nat)
    requires WellFormed(z, base, phdrs) && k < |Gaps(z, base, phdrs, |phdrs|, byKernel)|
    ensures var gaps := Gaps(z, base, phdrs, |phdrs|, byKernel);
            && Aligned(gaps[k].start, z.unit) && Aligned(gaps[k].end, z.unit)
            && gaps[k].end - gaps[k].start >= MIN_ALLOC_SIZE
            && (forall j | 0 <= j < |phdrs| && phdrs[j].isLoad ::
                  Disjoint(gaps[k].start, gaps[k].end, base + phdrs[j].vaddr, End(base, phdrs[j])))
            && (forall l | k < l < |gaps| :: gaps[k].end <= gaps[l].start)
  {
    hide AlignStart, AlignEnd, Aligned, GapBehind;
    var gaps := Gaps(z, base, phdrs, |phdrs|, byKernel);
    var i := GapOrigin(z, base, phdrs, |phdrs|, byKernel, k);
    GapIsBetween(z, base, phdrs, i, byKernel, gaps[k]);
    forall j: nat | j < |phdrs| && phdrs[j].isLoad
      ensures Disjoint(gaps[k].start, gaps[k].end, base + phdrs[j].vaddr, End(base, phdrs[j]))
    {
      GapAvoidsSegments(z, base, phdrs, i, byKernel, gaps[k], j);
    }
    forall l: nat | k < l < |gaps| ensures gaps[k].end <= gaps[l].start {
      var j := GapOrigin(z, base, phdrs, |phdrs|, byKernel, l);
      GapIsBetween(z, base, phdrs, j, byKernel, gaps[l]);
      if j <= i {
        GapsGrow(z, base, phdrs, j, i, byKernel);
      }
    }
  }

  // The bound of the gaps array.

  /** A symbol of the useless-symbol table: the API levels it exists in, and where it was found, if it was. */
  datatype Symbol = Symbol(minApi: nat, maxApi: nat, addr: nat, size: nat)

  function InApi(symbols: seq<Symbol>, api: nat): nat {
    if symbols == [] then 0
    else InApi(symbols[..|symbols| - 1], api)
         + if symbols[|symbols| - 1].minApi <= api <= symbols[|symbols| - 1].maxApi then 1 else 0
  }

  /** gaps_max of sh_elf_create. */
  function GapsMax(phdrs: seq<Phdr>, symbols: seq<Symbol>, api: nat): nat {
    Loads(phdrs) + InApi(symbols, api)
  }

  lemma {:induction false} AtMostOneGapEach(z: Sizes, base: nat, phdrs: seq<Phdr>, n: nat, byKernel: bool)
    requires Ok(z) && n <= |phdrs|
    ensures |Gaps(z, base, phdrs, n, byKernel)| <= Loads(phdrs[..n])
  {
    if n > 0 {
      AtMostOneGapEach(z, base, phdrs, n - 1, byKernel);
      assert phdrs[..n][..n - 1] == phdrs[..n - 1];
    }
  }

  /** sh_elf_get_gaps_from_useless_symbols: appends to the same array, and stays within the bound it was made for. */
  method AddSymbolGaps(z: Sizes, gaps: seq<Extent>, symbols: seq<Symbol>, api: nat) returns (all: seq<Extent>)
    requires Ok(z)
    ensures gaps <= all && |all| <= |gaps| + InApi(symbols, api)
    ensures forall k | |gaps| <= k < |all| ::
              && all[k].end - all[k].start >= MIN_ALLOC_SIZE
              && Aligned(all[k].start, z.unit) && Aligned(all[k].end, z.unit)
              && exists sym | sym in symbols :: sym.addr <= all[k].start && all[k].end <= sym.addr + sym.size
  {
    hide AlignStart, AlignEnd, Aligned;
    all := gaps;
    var i := 0;
    while i < |symbols|
      invariant 0 <= i <= |symbols| && gaps <= all && |all| <= |gaps| + InApi(symbols[..i], api)
      invariant forall k | |gaps| <= k < |all| ::
                  && all[k].end - all[k].start >= MIN_ALLOC_SIZE
                  && Aligned(all[k].start, z.unit) && Aligned(all[k].end, z.unit)
                  && exists sym | sym in symbols :: sym.addr <= all[k].start && all[k].end <= sym.addr + sym.size
    {
      var sym := symbols[i];
      assert symbols[..i + 1][..i] == symbols[..i];
      if sym.minApi <= api <= sym.maxApi && sym.addr != 0 && sym.size != 0 {
        AlignFacts(sym.addr, z.unit);
        AlignFacts(sym.addr + sym.size, z.unit);
        var start := AlignEnd(sym.addr, z.unit);
        var end := AlignStart(sym.addr + sym.size, z.unit);
        if !(end <= start) && !(end - start < MIN_ALLOC_SIZE) {
          all := all + [Extent(start, end)];
        }
      }
      i := i + 1;
    }
    assert symbols[..|symbols|] == symbols;
  }

  /** All gaps together fit into the array that sh_elf_create allocates. */
  method AllGaps(z: Sizes, base: nat, phdrs: seq<Phdr>, byKernel: bool, symbols: seq<Symbol>, api: nat)
    returns (gaps: seq<Extent>)
    requires Ok(z)
    ensures |gaps| <= GapsMax(phdrs, symbols, api)
    ensures Gaps(z, base, phdrs, |phdrs|, byKernel) <= gaps
  {
    gaps := GetGapsFromPhdr(z, base, phdrs, byKernel);
    AtMostOneGapEach(z, base, phdrs, |phdrs|, byKernel);
    assert phdrs[..|phdrs|] == phdrs;
    gaps := AddSymbolGaps(z, gaps, symbols, api);
  }
}
