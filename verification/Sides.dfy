/** The two machines of a simulation on arm: the original one, and the hooked one that stands for it. */
module Sides {
  import opened Words
  import opened ThumbArms
  import C = ThumbCpu

  /** Equal but for the registers in `lost` and the bytes in `hidden`. */
  ghost predicate Agree(c: C.Machine, h: C.Machine, lost: set<nat>, hidden: set<int>) {
    && c.flags == h.flags && c.rest.fp == h.rest.fp
    && (forall n: nat | n < 15 && n !in lost :: c.rest.r[n] == h.rest.r[n])
    && (forall a | a !in hidden :: c.rest.mem(a) == h.rest.mem(a))
  }

  ghost predicate SameBytesIn(m: C.Ram, m': C.Ram, code: set<int>) {
    forall a | a in code :: m(a) == m'(a)
  }

  /** The `n` bytes below the stack pointer. */
  ghost function Below(sp: Word32, n: nat): set<int> {
    Span(sp - n, n)
  }

  /** The same effect on both sides. */
  ghost predicate SameOutcome(o: Outcome<C.Rest>, o': Outcome<C.Rest>, hidden: set<int>) {
    match (o, o')
    case (Next(t), Next(e)) => Agree(t, e, {}, hidden)
    case (Taken(t, m), Taken(e, n)) => m == n && Agree(t, e, {}, hidden)
    case _ => false
  }

  /** An instruction whose effect is `o` on one side has the same effect on the other one, where it leaves the engine's code
      alone. */
  ghost predicate PlainAgrees(o: Outcome<C.Rest>, h: C.Machine, o': Outcome<C.Rest>, hidden: set<int>, code: set<int>) {
    SameOutcome(o, o', hidden) && SameBytesIn(h.rest.mem, o'.core.rest.mem, code)
  }

  lemma SameRegisters(c: C.Machine, h: C.Machine, hidden: set<int>)
    requires Agree(c, h, {}, hidden)
    ensures c.rest.r == h.rest.r && h == C.SetMem(c, h.rest.mem)
  {
  }

  function Size(access: C.Access): nat {
    match access
    case W => 4
    case UB | SB => 1
    case UH | SH => 2
    case D => 8
  }

  lemma SameLoads(m: C.Ram, m': C.Ram, a: int, access: C.Access)
    requires forall x | a <= x < a + Size(access) :: m(x) == m'(x)
    ensures C.LoadValue(m, a, access) == C.LoadValue(m', a, access)
    ensures access.D? ==> C.WordFrom(m, a + 4) == C.WordFrom(m', a + 4)
  {
  }

  lemma SameWord(m: C.Ram, m': C.Ram, a: int)
    requires forall x | a <= x < a + 4 :: m(x) == m'(x)
    ensures C.WordFrom(m, a) == C.WordFrom(m', a)
  {
  }

  /** A load from bytes that are the same loads the same. */
  lemma LoadAgrees(c: C.Machine, h: C.Machine, hidden: set<int>, access: C.Access, rt: nat, rt2: nat, a: int)
    requires rt < 15 && rt2 < 15 && Agree(c, h, {}, hidden) && Span(a, Size(access)) !! hidden
    ensures Agree(C.LoadInto(c, access, rt, rt2, a), C.LoadInto(h, access, rt, rt2, a), {}, hidden)
  {
    hide C.LoadValue, C.WordFrom;
    SameLoads(c.rest.mem, h.rest.mem, a, access);
    SameRegisters(c, h, hidden);
  }

  /** What shares no byte with the bytes below SP lies on one side of them. */
  lemma OutOfTheWay(sp: Word32, n: nat, p: int, len: nat)
    requires Below(sp, n) !! Span(p, len) && len > 0 && n > 0
    ensures sp <= p || p + len <= sp - n
  {
    var a := if p < sp - n then sp - n else p;
    assert !(a in Below(sp, n) && a in Span(p, len));
  }
}
