/** Allocation in the unused memory of a loaded ELF (sh_elf.c): runs of free units in a gap. */
module ElfAlloc {
  import opened Arith

  // One flag word for each unit of a gap: a bit for used, 31 bits for the time of the last free.
  datatype Unit = Unit(used: bool, ts: nat)

  // SH_ELF_TRAMPO_DELAY_SEC
  const DELAY_SEC: nat := 15

  predicate IsFree(u: Unit, now: nat) {
    !u.used && now > u.ts && now - u.ts > DELAY_SEC
  }

  /** All units of [i, i + n) are free and out of quarantine. */
  predicate RunIsFree(flags: seq<Unit>, i: nat, n: nat, now: nat) {
    i + n <= |flags| && forall j | i <= j < i + n :: IsFree(flags[j], now)
  }

  /** The units [i, i + n) marked as used, or freed at `now`. */
  function Marked(flags: seq<Unit>, i: nat, n: nat, now: nat, used: bool): (r: seq<Unit>)
    requires i + n <= |flags|
    ensures |r| == |flags|
  {
    seq(|flags|, (j: nat) requires j < |flags| =>
      if i <= j < i + n then (if used then flags[j].(used := true) else Unit(false, now)) else flags[j])
  }

  // An allocation: its first unit and its number of units.
  datatype Alloc = Alloc(first: nat, count: nat)

  predicate Overlap(a: Alloc, b: Alloc) {
    a.first < b.first + b.count && b.first < a.first + a.count
  }

  /** sh_elf_gap_t. */
  class Gap {
    const start: nat
    const end: nat
    const unitSize: nat
    const flags: array<Unit>
    ghost var live: set<Alloc>

    ghost predicate Valid()
      reads this, flags
    {
      && unitSize > 0 && start <= end && flags.Length == (end - start) / unitSize
      && (forall a | a in live :: a.count > 0 && a.first + a.count <= flags.Length)
      && (forall a, j | a in live && a.first <= j < a.first + a.count :: flags[j].used)
      && (forall a, b | a in live && b in live && a != b :: !Overlap(a, b))
    }

    constructor (start: nat, end: nat, unitSize: nat)
      requires 0 < unitSize && start <= end
      ensures Valid() && fresh(flags) && live == {} && this.start == start && this.end == end
      ensures this.unitSize == unitSize && forall j | 0 <= j < flags.Length :: flags[j] == Unit(false, 0)
    {
      this.start, this.end, this.unitSize := start, end, unitSize;
      flags := new Unit[(end - start) / unitSize](_ => Unit(false, 0));
      live := {};
    }

    function Addr(i: nat): nat {
      start + unitSize * i
    }

    /** A start that the naive search would accept. */
    predicate Fits(units: seq<Unit>, i: nat, n: nat, low: nat, high: nat, now: nat) {
      low <= Addr(i) <= high && RunIsFree(units, i, n, now)
    }

    /** The units that the run starting at `i` needs, up to the first blocked one. */
    method FreeUnits(i: nat, n: nat, now: nat) returns (j: nat)
      requires i + n <= flags.Length
      ensures i <= j <= i + n && (forall k | i <= k < j :: IsFree(flags[k], now))
      ensures j < i + n ==> !IsFree(flags[j], now)
    {
      j := i;
      while j < i + n
        invariant i <= j <= i + n && forall k | i <= k < j :: IsFree(flags[k], now)
      {
        if flags[j].used {
          break;
        }
        if now <= flags[j].ts || now - flags[j].ts <= DELAY_SEC {
          break;
        }
        j := j + 1;
      }
    }

    /** The search loop of sh_elf_alloc_in_gap, which jumps behind the first blocked unit. It finds what a search that
        tries every start would find: the least one, or none (the index is the number of units then). */
    method FindRun(n: nat, low: nat, high: nat, now: nat) returns (i: nat)
      requires Valid() && 0 < n
      ensures i < flags.Length ==> Fits(flags[..], i, n, low, high, now)
      ensures forall k: nat | k < i && k < flags.Length :: !Fits(flags[..], k, n, low, high, now)
      ensures i <= flags.Length
    {
      if flags.Length < n {
        return flags.Length;
      }
      i := 0;
      while i < flags.Length - n + 1
        invariant 0 <= i
        invariant forall k: nat | k < i :: !Fits(flags[..], k, n, low, high, now)
        decreases flags.Length - i
      {
        var addr := Addr(i);
        if low <= addr <= high {
          var j := FreeUnits(i, n, now);
          if j == i + n {
            return i;
          }
          // Every start in (i, j] needs unit j as well.
          assert forall k: nat | i <= k <= j :: flags[..][j] == flags[j] && !RunIsFree(flags[..], k, n, now);
          i := j;
        }
        i := i + 1;
      }
      return flags.Length;
    }

    /** sh_elf_alloc_in_gap. `protect` tells whether sh_util_mprotect succeeds. */
    method AllocInGap(n: nat, low: nat, high: nat, now: nat, protect: bool) returns (addr: nat, ghost i: nat)
      requires Valid() && 0 < n && start > 0
      modifies this`live, flags
      ensures Valid()
      ensures addr != 0 ==>
                && Fits(old(flags[..]), i, n, low, high, now) && addr == Addr(i) && protect
                && (forall k: nat | k < i :: !Fits(old(flags[..]), k, n, low, high, now))
                && flags[..] == Marked(old(flags[..]), i, n, now, true)
                && live == old(live) + {Alloc(i, n)} && Alloc(i, n) !in old(live)
      ensures addr == 0 ==> flags[..] == old(flags[..]) && live == old(live)
      ensures addr == 0 && protect ==> forall k: nat :: !Fits(old(flags[..]), k, n, low, high, now)
    {
      var at := FindRun(n, low, high, now);
      i := at;
      if at == flags.Length {
        return 0, i;
      }
      if !protect {
        return 0, i;
      }
      ghost var before := flags[..];
      FreeRunIsNobodys(at, n, now);
      MarkUsed(at, n, now);
      live := live + {Alloc(at, n)};
      assert flags[..] == Marked(before, at, n, now, true);
      assert forall j | 0 <= j < flags.Length :: before[j].used ==> flags[..][j].used;
      return Addr(at), i;
    }

    lemma FreeRunIsNobodys(i: nat, n: nat, now: nat)
      requires Valid() && 0 < n && RunIsFree(flags[..], i, n, now)
      ensures forall a | a in live :: !Overlap(a, Alloc(i, n))
    {
      forall a | a in live ensures !Overlap(a, Alloc(i, n)) {
        var j := if a.first < i then i else a.first;
        assert a.first <= j < a.first + a.count ==> flags[j].used;
        assert i <= j < i + n ==> IsFree(flags[..][j], now);
      }
    }

    method MarkUsed(i: nat, n: nat, ghost now: nat)
      requires i + n <= flags.Length
      modifies flags
      ensures flags[..] == Marked(old(flags[..]), i, n, now, true)
    {
      var j := i;
      while j < i + n
        invariant i <= j <= i + n
        invariant forall k | 0 <= k < flags.Length ::
                    flags[k] == if i <= k < j then old(flags[k]).(used := true) else old(flags[k])
      {
        flags[j] := flags[j].(used := true);
        j := j + 1;
      }
    }

    /** sh_elf_free, in the gap that holds the address. */
    method Free(addr: nat, n: nat, now: nat, ghost i: nat)
      requires Valid() && Alloc(i, n) in live && addr == Addr(i)
      modifies this`live, flags
      ensures Valid() && live == old(live) - {Alloc(i, n)}
      ensures flags[..] == Marked(old(flags[..]), i, n, now, false)
    {
      var j := (addr - start) / unitSize;
      assert j == i by {
        DivMul(unitSize, i);
      }
      ghost var before := flags[..];
      var k := j;
      while k < j + n
        invariant j <= k <= j + n && live == old(live)
        invariant forall m | 0 <= m < flags.Length :: flags[m] == if j <= m < k then Unit(false, now) else before[m]
      {
        flags[k] := Unit(false, now);
        k := k + 1;
      }
      live := live - {Alloc(i, n)};
      forall a, m | a in live && a.first <= m < a.first + a.count ensures flags[m].used {
        assert !Overlap(a, Alloc(i, n));
        assert before[m].used;
      }
    }

    /** A live allocation lies inside its gap. */
    lemma LiveInsideGap(a: Alloc)
      requires Valid() && a in live
      ensures start <= Addr(a.first) && Addr(a.first) + unitSize * a.count <= end
    {
      var units := (end - start) / unitSize;
      assert unitSize * units <= end - start;
      MulUpTo(unitSize, a.first + a.count, units);
      assert unitSize * (a.first + a.count) == unitSize * a.first + unitSize * a.count;
    }

    /** Distinct live allocations share no address. */
    lemma LiveAreDisjoint(a: Alloc, b: Alloc)
      requires Valid() && a in live && b in live && a != b
      ensures Addr(a.first) + unitSize * a.count <= Addr(b.first) || Addr(b.first) + unitSize * b.count <= Addr(a.first)
    {
      assert !Overlap(a, b);
      if a.first + a.count <= b.first {
        MulUpTo(unitSize, a.first + a.count, b.first);
        assert unitSize * (a.first + a.count) == unitSize * a.first + unitSize * a.count;
      } else {
        MulUpTo(unitSize, b.first + b.count, a.first);
        assert unitSize * (b.first + b.count) == unitSize * b.first + unitSize * b.count;
      }
    }
  }
}
