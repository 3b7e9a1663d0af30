/** The trampoline allocator (common/sh_trampo.c): slots of one size on anonymous pages, handed out inside an address
    range and quarantined after they are freed. */
module Trampo {
  import opened Arith

  // One flag word: a bit for used, 31 bits for the time of the last free.
  datatype Slot = Slot(used: bool, ts: nat)

  datatype Page = Page(ptr: nat, slots: seq<Slot>)

  // What mmap returns.
  datatype Mapping = Failed | Mapped(ptr: nat)

  datatype Config = Config(trampoSize: nat, pageSize: nat, delaySec: nat)

  predicate Ok(c: Config) {
    0 < c.trampoSize <= c.pageSize
  }

  function SlotCount(c: Config): (n: nat)
    requires Ok(c)
    ensures n > 0
  {
    c.pageSize / c.trampoSize
  }

  function Addr(c: Config, ptr: nat, i: nat): nat {
    ptr + c.trampoSize * i
  }

  /** No range at all is written as [0, 0]. */
  predicate IsBetween(low: nat, high: nat) {
    low > 0 || high > 0
  }

  predicate InRange(addr: nat, low: nat, high: nat) {
    !IsBetween(low, high) || low <= addr <= high
  }

  predicate IsEligible(slot: Slot, now: nat, delaySec: nat) {
    !slot.used && now > slot.ts && now - slot.ts > delaySec
  }

  predicate Exists(pages: seq<Page>, k: nat, i: nat) {
    k < |pages| && i < |pages[k].slots|
  }

  function AddrAt(c: Config, pages: seq<Page>, k: nat, i: nat): nat
    requires Exists(pages, k, i)
  {
    Addr(c, pages[k].ptr, i)
  }

  predicate Apart(c: Config, p: nat, q: nat) {
    p + c.pageSize <= q || q + c.pageSize <= p
  }

  /** Pages are where mmap put them: never at zero, never on top of each other. */
  ghost predicate PagesOk(c: Config, pages: seq<Page>) {
    && Ok(c)
    && (forall k: nat | k < |pages| :: pages[k].ptr > 0 && |pages[k].slots| == SlotCount(c))
    && (forall j, k | 0 <= j < k < |pages| :: Apart(c, pages[j].ptr, pages[k].ptr))
  }

  ghost predicate IsSlot(c: Config, pages: seq<Page>, addr: nat) {
    exists k: nat, i: nat :: Exists(pages, k, i) && AddrAt(c, pages, k, i) == addr
  }

  /** Some trampoline that starts at `addr` is in use. */
  ghost predicate IsLive(c: Config, pages: seq<Page>, addr: nat) {
    exists k: nat, i: nat :: Exists(pages, k, i) && pages[k].slots[i].used && AddrAt(c, pages, k, i) == addr
  }

  /** Every slot that was freed and not handed out again bears the time of its last free. */
  ghost predicate StampsOk(c: Config, pages: seq<Page>, freedAt: map<nat, nat>) {
    && (forall k: nat, i: nat | Exists(pages, k, i) && !pages[k].slots[i].used && AddrAt(c, pages, k, i) in freedAt ::
          pages[k].slots[i].ts == freedAt[AddrAt(c, pages, k, i)])
    && (forall a | a in freedAt :: IsSlot(c, pages, a))
  }

  lemma SlotOnPage(c: Config, ptr: nat, i: nat)
    requires Ok(c) && i < SlotCount(c)
    ensures ptr <= Addr(c, ptr, i) && Addr(c, ptr, i) + c.trampoSize <= ptr + c.pageSize
  {
    var n := SlotCount(c);
    assert n * c.trampoSize <= c.pageSize;
    MulUpTo(c.trampoSize, i + 1, n);
    assert c.trampoSize * (i + 1) == c.trampoSize * i + c.trampoSize;
  }

  lemma SlotsInARow(c: Config, ptr: nat, i: nat, j: nat)
    requires i < j
    ensures Addr(c, ptr, i) + c.trampoSize <= Addr(c, ptr, j)
  {
    MulUpTo(c.trampoSize, i + 1, j);
    assert c.trampoSize * (i + 1) == c.trampoSize * i + c.trampoSize;
  }

  /** Distinct slots never overlap, on one page or on two. */
  lemma SlotsAreDisjoint(c: Config, pages: seq<Page>, k: nat, i: nat, l: nat, j: nat)
    requires PagesOk(c, pages) && Exists(pages, k, i) && Exists(pages, l, j) && (k != l || i != j)
    ensures var a, b := AddrAt(c, pages, k, i), AddrAt(c, pages, l, j); a + c.trampoSize <= b || b + c.trampoSize <= a
  {
    hide Addr, SlotCount;
    SlotOnPage(c, pages[k].ptr, i);
    SlotOnPage(c, pages[l].ptr, j);
    if k == l {
      if i < j {
        SlotsInARow(c, pages[k].ptr, i, j);
      } else {
        SlotsInARow(c, pages[k].ptr, j, i);
      }
    } else if k < l {
      assert Apart(c, pages[k].ptr, pages[l].ptr);
    } else {
      assert Apart(c, pages[l].ptr, pages[k].ptr);
    }
  }

  /** Live trampolines never overlap. */
  lemma LiveAreDisjoint(c: Config, pages: seq<Page>, a: nat, b: nat)
    requires PagesOk(c, pages) && IsLive(c, pages, a) && IsLive(c, pages, b) && a != b
    ensures a + c.trampoSize <= b || b + c.trampoSize <= a
  {
    hide Addr, SlotCount, PagesOk;
    var k: nat, i: nat :| Exists(pages, k, i) && pages[k].slots[i].used && AddrAt(c, pages, k, i) == a;
    var l: nat, j: nat :| Exists(pages, l, j) && pages[l].slots[j].used && AddrAt(c, pages, l, j) == b;
    SlotsAreDisjoint(c, pages, k, i, l, j);
  }

  predicate Usable(c: Config, pages: seq<Page>, k: nat, i: nat, low: nat, high: nat, now: nat) {
    Exists(pages, k, i) && InRange(AddrAt(c, pages, k, i), low, high) && IsEligible(pages[k].slots[i], now, c.delaySec)
  }

  /** (k, i) comes before (l, j) in the search. */
  predicate Earlier(k: nat, i: nat, l: nat, j: nat) {
    k < l || (k == l && i < j)
  }

  predicate RangeOk(c: Config, low: nat, high: nat) {
    low <= high && (IsBetween(low, high) ==> high - low >= c.trampoSize)
  }

  predicate PageMisses(c: Config, ptr: nat, low: nat, high: nat)
    requires Ok(c)
  {
    IsBetween(low, high) && (Addr(c, ptr, SlotCount(c) - 1) < low || high < ptr)
  }

  lemma MissedPage(c: Config, pages: seq<Page>, k: nat, low: nat, high: nat, now: nat)
    requires PagesOk(c, pages) && k < |pages| && PageMisses(c, pages[k].ptr, low, high)
    ensures forall j: nat :: !Usable(c, pages, k, j, low, high, now)
  {
    forall j: nat ensures !Usable(c, pages, k, j, low, high, now) {
      if Exists(pages, k, j) {
        MulUpTo(c.trampoSize, j, SlotCount(c) - 1);
      }
    }
  }

  /** Why the abort after the new-page loop is never reached: a page that overlaps a range which is at least one
      trampoline wide has a slot that starts in the range. */
  lemma SomeSlotInRange(c: Config, ptr: nat, low: nat, high: nat) returns (i: nat)
    requires Ok(c) && RangeOk(c, low, high) && !PageMisses(c, ptr, low, high)
    ensures i < SlotCount(c) && InRange(Addr(c, ptr, i), low, high)
  {
    i := 0;
    if IsBetween(low, high) {
      while i < SlotCount(c) - 1 && Addr(c, ptr, i) < low
        invariant i <= SlotCount(c) - 1
        invariant i > 0 ==> Addr(c, ptr, i) < low + c.trampoSize
        decreases SlotCount(c) - i
      {
        assert c.trampoSize * (i + 1) == c.trampoSize * i + c.trampoSize;
        i := i + 1;
      }
    }
  }

  function WithSlot(pages: seq<Page>, k: nat, i: nat, slot: Slot): seq<Page>
    requires Exists(pages, k, i)
  {
    pages[k := Page(pages[k].ptr, pages[k].slots[i := slot])]
  }

  lemma SameSlots(c: Config, pages: seq<Page>, k: nat, i: nat, slot: Slot)
    requires PagesOk(c, pages) && Exists(pages, k, i)
    ensures var after := WithSlot(pages, k, i, slot);
            && PagesOk(c, after)
            && (forall l: nat, j: nat :: Exists(after, l, j) <==> Exists(pages, l, j))
            && (forall l: nat, j: nat | Exists(pages, l, j) :: AddrAt(c, after, l, j) == AddrAt(c, pages, l, j))
            && (forall l: nat, j: nat | Exists(pages, l, j) ::
                  after[l].slots[j] == if l == k && j == i then slot else pages[l].slots[j])
  {
    hide Addr, SlotCount;
  }

  lemma StampsAfter(c: Config, pages: seq<Page>, freedAt: map<nat, nat>, k: nat, i: nat, slot: Slot, later: map<nat, nat>)
    requires PagesOk(c, pages) && StampsOk(c, pages, freedAt) && Exists(pages, k, i)
    requires var a := AddrAt(c, pages, k, i);
             if slot.used then later == freedAt else later == freedAt[a := slot.ts]
    ensures StampsOk(c, WithSlot(pages, k, i, slot), later)
  {
    hide Addr, SlotCount, PagesOk;
    SameSlots(c, pages, k, i, slot);
    var after := WithSlot(pages, k, i, slot);
    forall l: nat, j: nat | Exists(after, l, j) && !after[l].slots[j].used && AddrAt(c, after, l, j) in later
      ensures after[l].slots[j].ts == later[AddrAt(c, after, l, j)]
    {
      if l != k || j != i {
        SlotsDiffer(c, pages, k, i, l, j);
      }
    }
    forall a | a in later ensures IsSlot(c, after, a) {
      if a == AddrAt(c, pages, k, i) {
        assert Exists(after, k, i) && AddrAt(c, after, k, i) == a;
      } else {
        var l: nat, j: nat :| Exists(pages, l, j) && AddrAt(c, pages, l, j) == a;
        assert Exists(after, l, j) && AddrAt(c, after, l, j) == a;
      }
    }
  }

  lemma SlotsDiffer(c: Config, pages: seq<Page>, k: nat, i: nat, l: nat, j: nat)
    requires PagesOk(c, pages) && Exists(pages, k, i) && Exists(pages, l, j) && (k != l || i != j)
    ensures AddrAt(c, pages, k, i) != AddrAt(c, pages, l, j)
  {
    hide Addr, SlotCount;
    SlotsAreDisjoint(c, pages, k, i, l, j);
  }

  /** Which trampolines are live after one slot was changed. */
  lemma LiveAfter(c: Config, pages: seq<Page>, k: nat, i: nat, slot: Slot, a: nat)
    requires PagesOk(c, pages) && Exists(pages, k, i)
    ensures IsLive(c, WithSlot(pages, k, i, slot), a)
            <==> if a == AddrAt(c, pages, k, i) then slot.used else IsLive(c, pages, a)
    ensures a == AddrAt(c, pages, k, i) ==> (IsLive(c, pages, a) <==> pages[k].slots[i].used)
  {
    hide Addr, SlotCount, PagesOk;
    SameSlots(c, pages, k, i, slot);
    var after := WithSlot(pages, k, i, slot);
    if IsLive(c, after, a) {
      var l: nat, j: nat :| Exists(after, l, j) && after[l].slots[j].used && AddrAt(c, after, l, j) == a;
      if l != k || j != i {
        SlotsDiffer(c, pages, k, i, l, j);
        assert Exists(pages, l, j) && pages[l].slots[j].used && AddrAt(c, pages, l, j) == a;
      }
    }
    if IsLive(c, pages, a) {
      var l: nat, j: nat :| Exists(pages, l, j) && pages[l].slots[j].used && AddrAt(c, pages, l, j) == a;
      if l != k || j != i {
        SlotsDiffer(c, pages, k, i, l, j);
        assert Exists(after, l, j) && after[l].slots[j].used && AddrAt(c, after, l, j) == a;
      }
    }
    if a == AddrAt(c, pages, k, i) && slot.used {
      assert Exists(after, k, i) && after[k].slots[i].used && AddrAt(c, after, k, i) == a;
    }
  }

  function FreshSlots(c: Config): (slots: seq<Slot>)
    requires Ok(c)
    ensures |slots| == SlotCount(c)
  {
    seq(SlotCount(c), i => Slot(false, 0))
  }

  ghost predicate FreshMapping(c: Config, pages: seq<Page>, ptr: nat) {
    ptr > 0 && forall k: nat | k < |pages| :: Apart(c, ptr, pages[k].ptr)
  }

  lemma NotFreedThere(c: Config, pages: seq<Page>, freedAt: map<nat, nat>, ptr: nat, i: nat)
    requires PagesOk(c, pages) && StampsOk(c, pages, freedAt) && FreshMapping(c, pages, ptr) && i < SlotCount(c)
    ensures Addr(c, ptr, i) !in freedAt
  {
    hide Addr, SlotCount;
    var a := Addr(c, ptr, i);
    SlotOnPage(c, ptr, i);
    forall l: nat, j: nat | Exists(pages, l, j) ensures AddrAt(c, pages, l, j) != a {
      SlotOnPage(c, pages[l].ptr, j);
      assert Apart(c, ptr, pages[l].ptr);
    }
  }

  /** A new page in front changes nothing for the others. */
  lemma NewPage(c: Config, pages: seq<Page>, freedAt: map<nat, nat>, page: Page)
    requires PagesOk(c, pages) && StampsOk(c, pages, freedAt)
    requires FreshMapping(c, pages, page.ptr) && |page.slots| == SlotCount(c)
    ensures PagesOk(c, [page] + pages) && StampsOk(c, [page] + pages, freedAt)
    ensures forall k: nat, i: nat | Exists(pages, k, i) ::
              Exists([page] + pages, k + 1, i) && AddrAt(c, [page] + pages, k + 1, i) == AddrAt(c, pages, k, i)
  {
    hide Addr, SlotCount;
    var after := [page] + pages;
    assert forall k: nat | 0 < k < |after| :: after[k] == pages[k - 1];
    forall k: nat, i: nat | Exists(after, k, i) && !after[k].slots[i].used && AddrAt(c, after, k, i) in freedAt
      ensures after[k].slots[i].ts == freedAt[AddrAt(c, after, k, i)]
    {
      if k == 0 {
        NotFreedThere(c, pages, freedAt, page.ptr, i);
      } else {
        assert Exists(pages, k - 1, i);
      }
    }
    forall a | a in freedAt ensures IsSlot(c, after, a) {
      var k: nat, i: nat :| Exists(pages, k, i) && AddrAt(c, pages, k, i) == a;
      assert Exists(after, k + 1, i) && AddrAt(c, after, k + 1, i) == a;
    }
  }

  ghost predicate NoneUsable(c: Config, pages: seq<Page>, low: nat, high: nat, now: nat) {
    forall k: nat, i: nat :: !Usable(c, pages, k, i, low, high, now)
  }

  /** What one allocation does. */
  datatype Outcome =
    | Refused
    | Reused(k: nat, i: nat)         // an existing slot
    | FromNewPage(ptr: nat, i: nat)  // a slot of a page that was mapped for it

  ghost predicate Fits(o: Outcome, c: Config, pages: seq<Page>, low: nat, high: nat, now: nat, mapping: Mapping)
    requires Ok(c)
  {
    match o
    case Reused(k, i) =>
      && RangeOk(c, low, high) && Usable(c, pages, k, i, low, high, now)
      && forall l: nat, j: nat | Earlier(l, j, k, i) :: !Usable(c, pages, l, j, low, high, now)
    case FromNewPage(ptr, i) =>
      && RangeOk(c, low, high) && NoneUsable(c, pages, low, high, now) && mapping == Mapped(ptr)
      && i < SlotCount(c) && InRange(Addr(c, ptr, i), low, high)
      && forall j: nat | j < i :: !InRange(Addr(c, ptr, j), low, high)
    case Refused =>
      RangeOk(c, low, high) ==>
        NoneUsable(c, pages, low, high, now) && (mapping.Failed? || PageMisses(c, mapping.ptr, low, high))
  }

  predicate Possible(o: Outcome, c: Config, pages: seq<Page>) {
    Ok(c) && match o case Refused => true case Reused(k, i) => Exists(pages, k, i) case FromNewPage(_, i) => i < SlotCount(c)
  }

  function OutcomeAddr(o: Outcome, c: Config, pages: seq<Page>): nat
    requires Possible(o, c, pages)
  {
    match o
    case Refused => 0
    case Reused(k, i) => AddrAt(c, pages, k, i)
    case FromNewPage(ptr, i) => Addr(c, ptr, i)
  }

  /** A reused slot becomes used where it is; a new page goes in front, with one used slot. */
  function OutcomePages(o: Outcome, c: Config, pages: seq<Page>): seq<Page>
    requires Possible(o, c, pages)
  {
    match o
    case Refused => pages
    case Reused(k, i) => WithSlot(pages, k, i, pages[k].slots[i].(used := true))
    case FromNewPage(ptr, i) => [Page(ptr, FreshSlots(c)[i := Slot(true, 0)])] + pages
  }

  /** sh_trampo_mgr_t. */
  class TrampoManager {
    var pages: seq<Page>  // newest first
    const config: Config
    ghost var freedAt: map<nat, nat>  // when each trampoline was last freed

    ghost predicate Valid()
      reads this
    {
      PagesOk(config, pages) && StampsOk(config, pages, freedAt)
    }

    constructor (config: Config)
      requires Ok(config)
      ensures Valid() && pages == [] && this.config == config
    {
      this.config := config;
      pages := [];
      freedAt := map[];
    }

    /** The search for a slot that can be reused. A page whose slots all lie outside the range is skipped whole. */
    method FindSlot(low: nat, high: nat, now: nat) returns (found: bool, k: nat, i: nat)
      requires PagesOk(config, pages)
      ensures found ==> Usable(config, pages, k, i, low, high, now)
      ensures found ==> forall l: nat, j: nat | Earlier(l, j, k, i) :: !Usable(config, pages, l, j, low, high, now)
      ensures !found ==> NoneUsable(config, pages, low, high, now)
    {
      hide Addr, SlotCount;
      var between := IsBetween(low, high);
      k := 0;
      while k < |pages|
        invariant 0 <= k <= |pages|
        invariant forall l: nat, j: nat | l < k :: !Usable(config, pages, l, j, low, high, now)
      {
        var page := pages[k];
        var first := page.ptr;
        var last := Addr(config, page.ptr, SlotCount(config) - 1);
        i := 0;
        if between && (last < low || high < first) {
          MissedPage(config, pages, k, low, high, now);
        } else {
          while i < SlotCount(config)
            invariant 0 <= i <= SlotCount(config)
            invariant forall j: nat | j < i :: !Usable(config, pages, k, j, low, high, now)
          {
            var cur := Addr(config, page.ptr, i);
            if !(between && (cur < low || high < cur)) && !page.slots[i].used
               && !(now <= page.slots[i].ts || now - page.slots[i].ts <= config.delaySec)
            {
              return true, k, i;
            }
            i := i + 1;
          }
        }
        k := k + 1;
      }
      return false, 0, 0;
    }

    /** The loop over the slots of a new page. The abort behind it cannot happen: there always is a slot. */
    method FirstInRange(ptr: nat, low: nat, high: nat) returns (i: nat)
      requires Ok(config) && RangeOk(config, low, high) && !PageMisses(config, ptr, low, high)
      ensures i < SlotCount(config) && InRange(Addr(config, ptr, i), low, high)
      ensures forall j: nat | j < i :: !InRange(Addr(config, ptr, j), low, high)
    {
      hide Addr, SlotCount;
      ghost var some := SomeSlotInRange(config, ptr, low, high);
      i := 0;
      while !InRange(Addr(config, ptr, i), low, high)
        invariant i <= some
        invariant forall j: nat | j < i :: !InRange(Addr(config, ptr, j), low, high)
        decreases some - i
      {
        i := i + 1;
      }
    }

    /** sh_trampo_alloc_between. `mapping` is what mmap would return. */
    method AllocBetween(low: nat, high: nat, now: nat, mapping: Mapping) returns (trampo: nat, ghost o: Outcome)
      requires Valid() && (mapping.Mapped? ==> FreshMapping(config, pages, mapping.ptr))
      modifies this`pages
      ensures Valid() && Fits(o, config, old(pages), low, high, now, mapping)
      ensures Possible(o, config, old(pages))
      ensures trampo == OutcomeAddr(o, config, old(pages)) && (trampo == 0 <==> o == Refused)
      ensures pages == OutcomePages(o, config, old(pages))
    {
      hide Addr, SlotCount, FreshSlots;
      if high < low {
        return 0, Refused;
      }
      if IsBetween(low, high) && high - low < config.trampoSize {
        return 0, Refused;
      }
      var found, k, i := FindSlot(low, high, now);
      if found {
        var slot := pages[k].slots[i];
        SlotOnPage(config, pages[k].ptr, i);
        SameSlots(config, pages, k, i, slot.(used := true));
        StampsAfter(config, pages, freedAt, k, i, slot.(used := true), freedAt);
        trampo := Addr(config, pages[k].ptr, i);
        pages := WithSlot(pages, k, i, slot.(used := true));
        return trampo, Reused(k, i);
      }
      if mapping.Failed? || PageMisses(config, mapping.ptr, low, high) {
        return 0, Refused;
      }
      var ptr := mapping.ptr;
      i := FirstInRange(ptr, low, high);
      SlotOnPage(config, ptr, i);
      var page := Page(ptr, FreshSlots(config)[i := Slot(true, 0)]);
      NewPage(config, pages, freedAt, page);
      pages := [page] + pages;
      return Addr(config, ptr, i), FromNewPage(ptr, i);
    }

    /** sh_trampo_free: the slot that holds the address becomes unused, as of now. */
    method Free(trampo: nat, now: nat) returns (ghost freed: bool, ghost k: nat, ghost i: nat)
      requires Valid()
      modifies this`pages, this`freedAt
      ensures Valid()
      ensures freed ==> Exists(old(pages), k, i) && pages == WithSlot(old(pages), k, i, Slot(false, now))
                        && AddrAt(config, old(pages), k, i) <= trampo < AddrAt(config, old(pages), k, i) + config.trampoSize
                        && freedAt == old(freedAt)[AddrAt(config, old(pages), k, i) := now]
      ensures !freed ==> pages == old(pages) && freedAt == old(freedAt) && !IsLive(config, pages, trampo)
      ensures old(IsLive(config, pages, trampo)) ==> freed && AddrAt(config, old(pages), k, i) == trampo
    {
      hide SlotCount, Addr, StampsOk;
      var n := 0;
      while n < |pages|
        invariant 0 <= n <= |pages| && Valid() && pages == old(pages) && freedAt == old(freedAt)
        invariant forall l: nat, j: nat | l < n && Exists(pages, l, j) :: AddrAt(config, pages, l, j) != trampo
      {
        var start := pages[n].ptr;
        var end := Addr(config, start, SlotCount(config));
        if start <= trampo < end {
          var at := (trampo - start) / config.trampoSize;
          InWhichSlot(config, start, trampo);
          freed, k, i := true, n, at;
          LiveIsThatSlot(config, pages, n, at, trampo);
          StampsAfter(config, pages, freedAt, n, at, Slot(false, now), freedAt[AddrAt(config, pages, n, at) := now]);
          SameSlots(config, pages, n, at, Slot(false, now));
          freedAt := freedAt[AddrAt(config, pages, n, at) := now];
          pages := WithSlot(pages, n, at, Slot(false, now));
          return;
        }
        OffPage(config, pages, n, trampo);
        n := n + 1;
      }
      freed, k, i := false, 0, 0;
    }
  }

  lemma InWhichSlot(c: Config, start: nat, trampo: nat)
    requires Ok(c) && start <= trampo < Addr(c, start, SlotCount(c))
    ensures var i := (trampo - start) / c.trampoSize;
            i < SlotCount(c) && Addr(c, start, i) <= trampo < Addr(c, start, i) + c.trampoSize
  {
    var d := trampo - start;
    var i := d / c.trampoSize;
    assert d == i * c.trampoSize + d % c.trampoSize;
    if i >= SlotCount(c) {
      MulUpTo(c.trampoSize, SlotCount(c), i);
      assert false;
    }
  }

  lemma LiveIsThatSlot(c: Config, pages: seq<Page>, k: nat, i: nat, trampo: nat)
    requires PagesOk(c, pages) && Exists(pages, k, i)
    requires AddrAt(c, pages, k, i) <= trampo < AddrAt(c, pages, k, i) + c.trampoSize
    ensures IsLive(c, pages, trampo) ==> AddrAt(c, pages, k, i) == trampo
  {
    hide Addr, SlotCount, PagesOk;
    if IsLive(c, pages, trampo) {
      var l: nat, j: nat :| Exists(pages, l, j) && pages[l].slots[j].used && AddrAt(c, pages, l, j) == trampo;
      if l != k || j != i {
        SlotsAreDisjoint(c, pages, k, i, l, j);
      }
    }
  }

  lemma OffPage(c: Config, pages: seq<Page>, k: nat, trampo: nat)
    requires PagesOk(c, pages) && k < |pages|
    requires !(pages[k].ptr <= trampo < Addr(c, pages[k].ptr, SlotCount(c)))
    ensures forall j: nat | Exists(pages, k, j) :: AddrAt(c, pages, k, j) != trampo
  {
    hide SlotCount;
    forall j: nat | Exists(pages, k, j) ensures AddrAt(c, pages, k, j) != trampo {
      SlotsInARow(c, pages[k].ptr, j, SlotCount(c));
    }
  }

  /** A slot that comes back from the allocator after it was freed has been free for longer than the delay. */
  lemma QuarantineIsOver(c: Config, pages: seq<Page>, freedAt: map<nat, nat>, o: Outcome, low: nat, high: nat, now: nat,
                         mapping: Mapping)
    requires PagesOk(c, pages) && StampsOk(c, pages, freedAt) && Fits(o, c, pages, low, high, now, mapping)
    requires mapping.Mapped? ==> FreshMapping(c, pages, mapping.ptr)
    ensures o.Reused? ==> var a := AddrAt(c, pages, o.k, o.i); a in freedAt ==> now - freedAt[a] > c.delaySec
    ensures o.FromNewPage? ==> Addr(c, o.ptr, o.i) !in freedAt
  {
    hide Addr, SlotCount;
    if o.FromNewPage? {
      NotFreedThere(c, pages, freedAt, o.ptr, o.i);
    }
  }

  /** An allocation makes one trampoline live that was not, and leaves the others alone. */
  lemma AllocatedIsNew(c: Config, pages: seq<Page>, o: Outcome, low: nat, high: nat, now: nat, mapping: Mapping, a: nat)
    requires PagesOk(c, pages) && Possible(o, c, pages) && Fits(o, c, pages, low, high, now, mapping)
    requires mapping.Mapped? ==> FreshMapping(c, pages, mapping.ptr)
    ensures o != Refused ==> !IsLive(c, pages, OutcomeAddr(o, c, pages))
    ensures IsLive(c, OutcomePages(o, c, pages), a)
            <==> IsLive(c, pages, a) || (o != Refused && a == OutcomeAddr(o, c, pages))
  {
    hide Addr, SlotCount, PagesOk, IsLive, FreshMapping, FreshSlots;
    match o
    case Refused =>
    case Reused(k, i) =>
      LiveAfter(c, pages, k, i, pages[k].slots[i].(used := true), a);
      LiveAfter(c, pages, k, i, pages[k].slots[i], AddrAt(c, pages, k, i));
    case FromNewPage(ptr, i) =>
      NotLiveThere(c, pages, ptr, i);
      LiveBehindNewPage(c, pages, ptr, i, a);
  }

  lemma NotLiveThere(c: Config, pages: seq<Page>, ptr: nat, i: nat)
    requires PagesOk(c, pages) && FreshMapping(c, pages, ptr) && i < SlotCount(c)
    ensures !IsLive(c, pages, Addr(c, ptr, i))
  {
    hide Addr, SlotCount;
    SlotOnPage(c, ptr, i);
    forall l: nat, j: nat | Exists(pages, l, j) ensures AddrAt(c, pages, l, j) != Addr(c, ptr, i) {
      SlotOnPage(c, pages[l].ptr, j);
      assert Apart(c, ptr, pages[l].ptr);
    }
  }

  lemma LiveBehindNewPage(c: Config, pages: seq<Page>, ptr: nat, i: nat, a: nat)
    requires Ok(c) && i < SlotCount(c)
    ensures var page := Page(ptr, FreshSlots(c)[i := Slot(true, 0)]);
            IsLive(c, [page] + pages, a) <==> a == Addr(c, ptr, i) || IsLive(c, pages, a)
  {
    hide Addr, SlotCount;
    var page := Page(ptr, FreshSlots(c)[i := Slot(true, 0)]);
    var after := [page] + pages;
    if IsLive(c, after, a) {
      var k: nat, j: nat :| Exists(after, k, j) && after[k].slots[j].used && AddrAt(c, after, k, j) == a;
      if k > 0 {
        assert Exists(pages, k - 1, j) && pages[k - 1].slots[j].used && AddrAt(c, pages, k - 1, j) == a;
      }
    }
    if IsLive(c, pages, a) {
      var k: nat, j: nat :| Exists(pages, k, j) && pages[k].slots[j].used && AddrAt(c, pages, k, j) == a;
      assert Exists(after, k + 1, j) && after[k + 1].slots[j].used && AddrAt(c, after, k + 1, j) == a;
    }
    if a == Addr(c, ptr, i) {
      assert Exists(after, 0, i) && after[0].slots[i].used && AddrAt(c, after, 0, i) == a;
    }
  }
}
