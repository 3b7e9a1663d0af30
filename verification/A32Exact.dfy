/** The image of an Arm instruction is right exactly when SP is not its result while it borrows a register, and no operand
    moves, or moves without making a difference (arch/arm/sh_a32.c). */
module A32Exact {
  import opened Words
  import opened Arith
  import opened A32Rewrite
  import opened ThumbArms
  import opened A32Cpu
  import opened A32Data
  import opened A32Sim
  import opened Sides
  import C = ThumbCpu
  import S = ThumbSim

  /** The image of w for an instruction whose PC reads as `pc` lies at p, and the stack is ready for it. */
  ghost predicate Ready(w: Word32, pc: Word32, info: Info, p: Word32, c: C.Machine) {
    var words := Rewrite(w, pc, info);
    && pc % 4 == 0 && p % 4 == 0 && p + 4 * |words| < CODE_END && words != [] && !IsAddrNeedFix(pc, info)
    && CodeAt(c.rest.mem, p, words) && StackReady(w, pc, p, 4 * |words|, c)
  }

  ghost predicate EndsWell(sem: Sem, w: Word32, pc: Word32, info: Info, p: Word32, c: C.Machine)
    requires Known(w) && Ready(w, pc, info, p, c)
  {
    exists e :: Ends(sem, w, pc, info, p, 4 * |Rewrite(w, pc, info)|, c, e)
  }

  /** Wherever it is placed, and in every state, the image does what the instruction does. */
  ghost predicate ImageIsRight(w: Word32)
    requires Known(w)
  {
    forall sem: Sem, pc: Word32, info: Info, p: Word32, c: C.Machine | Ready(w, pc, info, p, c) ::
      EndsWell(sem, w, pc, info, p, c)
  }

  // What differs when an operand has moved.

  /** 0x8000_0000, and twelve or four less. */
  predicate Near(y: Word32) {
    y in {0x7FFF_FFFC, 0x7FFF_FFF4}
  }

  lemma PowersApart(n: nat) returns (r: nat)
    requires n < 30
    ensures Pow2(n + 2) * (2 * r) == 0x1_0000_0000 && Pow2(n + 2) == 4 * Pow2(n)
  {
    Powers();
    r := Pow2(29 - n);
    Pow2Sum(n + 2, 30 - n);
  }

  lemma LeftDiffers(n: nat, y: Word32)
    requires n < 30 && Near(y)
    ensures Wrap32(0x8000_0000 * Pow2(n)) != Wrap32(y * Pow2(n))
  {
    var r := PowersApart(n);
    var q, d := Pow2(n + 2), (0x8000_0000 - y) / 4;
    hide Pow2;
    assert 0x8000_0000 * Pow2(n) == y * Pow2(n) + d * q;
    OddMultiple(q, r, d, y * Pow2(n));
  }

  /** One or three times q is no multiple of 2^32, when q times an even number is 2^32. */
  lemma OddMultiple(q: nat, r: nat, d: nat, x: int)
    requires q * (2 * r) == 0x1_0000_0000 && d in {1, 3}
    ensures Wrap32(x + d * q) != Wrap32(x)
  {
    if Wrap32(x + d * q) == Wrap32(x) {
      var k := (x + d * q) / 0x1_0000_0000 - x / 0x1_0000_0000;
      assert d * q == k * 0x1_0000_0000;
      assert q * d == q * (k * (2 * r));
      Cancel(q, d, k * (2 * r));
      EvenIs(k, r);
    }
  }

  lemma Cancel(q: nat, a: int, b: int)
    requires q > 0 && q * a == q * b
    ensures a == b
  {
    if a > b {
      MulAtLeast(a - b, q);
    } else if b > a {
      MulAtLeast(b - a, q);
    }
  }

  lemma EvenIs(k: int, r: nat)
    ensures k * (2 * r) % 2 == 0
  {
    assert k * (2 * r) == 2 * (k * r);
  }

  lemma RightDiffers(n: nat, y: Word32)
    requires 1 <= n < 32 && y < 0x8000_0000
    ensures 0x8000_0000 / Pow2(n) != y / Pow2(n)
  {
    Powers();
    Pow2Sum(n, 31 - n);
    var p, q := Pow2(n), Pow2(31 - n);
    hide Pow2;
    assert 0x8000_0000 == p * q;
    Quotient(p, q, y);
  }

  lemma Quotient(p: nat, q: nat, y: nat)
    requires p > 0 && y < p * q
    ensures y / p < q == p * q / p
  {
    DivMul(p, q);
    if y / p >= q {
      MulUpTo(p, q, y / p);
    }
  }

  lemma QuotientAtMost(x: nat, p: nat)
    requires p > 0
    ensures 0 <= x / p <= x
  {
    if x / p > 0 {
      MulAtLeast(p, x / p);
    }
  }

  lemma HighQuotient(p: nat)
    requires p > 0
    ensures var v := 0xFFFF_FFFF - 0x7FFF_FFFF / p; Wrap32(v) == v >= 0x8000_0000
  {
    Fits32(0x7FFF_FFFF, p);
    QuotientAtMost(0x7FFF_FFFF, p);
  }

  lemma LowQuotient(y: Word32, p: nat)
    requires p > 0 && y < 0x8000_0000
    ensures Wrap32(y / p) < 0x8000_0000
  {
    Fits32(y, p);
    QuotientAtMost(y, p);
    hide Wrap32;
  }

  lemma {:induction false} RotateApart(x: Word32, y: Word32, n: nat)
    requires x != y
    ensures Rotate(x, n) != Rotate(y, n)
    decreases n
  {
    if n > 0 {
      RotateApart(x / 2 + x % 2 * 0x8000_0000, y / 2 + y % 2 * 0x8000_0000, n - 1);
    }
  }

  lemma ShiftParts(shift: nat) returns (n: nat, kind: nat)
    requires shift < 256 && shift % 2 == 0 && !Discards(shift)
    ensures shift == 8 * n + 2 * kind && n < 32 && kind < 4 && !(kind == 0 && n >= 30) && !(kind == 1 && n == 0)
  {
    n, kind := shift / 8, shift / 2 % 4;
  }

  lemma ShiftsDiffer(y: Word32, shift: nat, carry: bool)
    requires Near(y) && shift < 256 && shift % 2 == 0 && !Discards(shift)
    ensures Shifted(0x8000_0000, shift, carry).0 != Shifted(y, shift, carry).0
  {
    hide *;
    var n, kind := ShiftParts(shift);
    if kind == 0 {
      LeftCase(y, n, carry);
    } else if kind == 1 {
      RightCase(y, n, carry);
    } else if kind == 2 {
      SignCase(y, n, carry);
    } else {
      RotateCase(y, n, carry);
    }
  }

  lemma LeftCase(y: Word32, n: nat, carry: bool)
    requires Near(y) && n < 30
    ensures Shifted(0x8000_0000, 8 * n, carry).0 != Shifted(y, 8 * n, carry).0
  {
    hide Pow2, Wrap32;
    LeftDiffers(n, y);
  }

  lemma Fits32(x: Word32, p: nat)
    requires p > 0
    ensures Wrap32(x / p) == x / p < 0x1_0000_0000
  {
    DivMul(p, x / p);
    MulAtLeast(p, 1 + x / p);
  }

  lemma RightIs(x: Word32, n: nat, carry: bool)
    requires 1 <= n < 32
    ensures Shifted(x, 8 * n + 2, carry).0 == Wrap32(x / Pow2(n))
  {
    assert (8 * n + 2) / 8 == n && (8 * n + 2) / 2 % 4 == 1;
    hide Pow2, Wrap32;
  }

  lemma RightCase(y: Word32, n: nat, carry: bool)
    requires Near(y) && 1 <= n < 32
    ensures Shifted(0x8000_0000, 8 * n + 2, carry).0 != Shifted(y, 8 * n + 2, carry).0
  {
    assert y < 0x8000_0000;
    hide *;
    RightIs(0x8000_0000, n, carry);
    RightIs(y, n, carry);
    Fits32(0x8000_0000, Pow2(n));
    Fits32(y, Pow2(n));
    RightDiffers(n, y);
  }

  lemma SignIs(x: Word32, n: nat, carry: bool)
    requires n < 32
    ensures var p := Pow2(if n == 0 then 32 else n);
            Shifted(x, 8 * n + 4, carry).0
            == Wrap32(if x < 0x8000_0000 then x / p else 0xFFFF_FFFF - (0xFFFF_FFFF - x) / p)
  {
    assert (8 * n + 4) / 8 == n && (8 * n + 4) / 2 % 4 == 2;
    hide Pow2, Wrap32;
  }

  lemma SignCase(y: Word32, n: nat, carry: bool)
    requires Near(y) && n < 32
    ensures Shifted(0x8000_0000, 8 * n + 4, carry).0 != Shifted(y, 8 * n + 4, carry).0
  {
    assert y < 0x8000_0000;
    hide *;
    SignIs(0x8000_0000, n, carry);
    SignIs(y, n, carry);
    var p := Pow2(if n == 0 then 32 else n);
    HighQuotient(p);
    LowQuotient(y, p);
  }

  lemma RotateCase(y: Word32, n: nat, carry: bool)
    requires Near(y) && n < 32
    ensures Shifted(0x8000_0000, 8 * n + 6, carry).0 != Shifted(y, 8 * n + 6, carry).0
  {
    hide *;
    RotateIs(0x8000_0000, n, carry);
    RotateIs(y, n, carry);
    if n == 0 {
      HalvesDiffer(y);
    } else {
      NotTheSame(y);
      RotateApart(0x8000_0000, y, n);
    }
  }

  lemma HalvesDiffer(y: Word32)
    requires Near(y)
    ensures 0x8000_0000 / 2 != y / 2
  {
  }

  lemma NotTheSame(y: Word32)
    requires Near(y)
    ensures y != 0x8000_0000
  {
  }

  lemma RotateIs(x: Word32, n: nat, carry: bool)
    requires n < 32
    ensures Shifted(x, 8 * n + 6, carry).0 == if n == 0 then x / 2 + (if carry then 0x8000_0000 else 0) else Rotate(x, n)
  {
    assert (8 * n + 6) / 8 == n && (8 * n + 6) / 2 % 4 == 3;
    hide Pow2, Rotate;
  }

  lemma SumsDiffer(a: Word32, x: Word32, y: Word32, carry: nat)
    requires x != y
    ensures AddWithCarry(a, x, carry).0 != AddWithCarry(a, y, carry).0
  {
    hide SignExtend;
  }

  lemma DataDiffers(op: nat, a: Word32, y: Word32, shift: nat, f: Flags)
    requires !IsMov(op) && Near(y) && shift < 256 && shift % 2 == 0 && !Discards(shift)
    ensures Data(op, a, 0x8000_0000, shift, f).0 != Data(op, a, y, shift, f).0
  {
    ShiftsDiffer(y, shift, f.c);
    hide Shifted, AddWithCarry, Discards, Near;
    var u, v := Shifted(0x8000_0000, shift, f.c).0, Shifted(y, shift, f.c).0;
    SumsDiffer(a, u, v, 0);
    SumsDiffer(a, 0xFFFF_FFFF - u, 0xFFFF_FFFF - v, 1);
  }

  /** What is added to the base, or subtracted from it. */
  function Offset(op: nat, x: Word32, shift: nat, f: Flags): Word32 {
    if op / 0x20 == 3 then Shifted(x, shift, f.c).0 else x
  }

  function Moved(base: Word32, k: Word32, up: bool): Word32 {
    Wrap32(if up then base + k else base - k)
  }

  lemma IndexedIs(op: nat, base: Word32, x: Word32, shift: nat, f: Flags)
    ensures Indexed(op, base, x, shift, f) == Moved(base, Offset(op, x, shift, f), op / 8 % 2 == 1)
  {
    hide Shifted;
  }

  lemma OffsetsDiffer(op: nat, y: Word32, shift: nat, f: Flags)
    requires IsIndexed(op, shift) && Near(y) && shift < 256 && !Discards(shift)
    ensures Offset(op, 0x8000_0000, shift, f) != Offset(op, y, shift, f)
  {
    hide Shifted;
    if op / 0x20 == 3 {
      ShiftsDiffer(y, shift, f.c);
    }
  }

  /** Far from both halves' ends. */
  predicate Safe(a: int) {
    0x1000 <= a < 0x7FFF_F000 || 0x8000_0000 <= a < 0xFFFF_F000
  }

  lemma WrapFurther(x: int, d: nat)
    requires d < 0x1_0000_0000
    ensures var r := Wrap32(x); Wrap32(x + d) == if r + d < 0x1_0000_0000 then r + d else r + d - 0x1_0000_0000
  {
  }

  lemma NotBothUnsafe(k: Word32, up: bool, base: nat, d: nat)
    requires base in {0x1000_0000, 0x2000_0000} && d in {0x1000_0000, 0x2000_0000}
    ensures Safe(Moved(base, k, up)) || Safe(Moved(base + d, k, up))
  {
    hide Wrap32;
    WrapFurther(if up then base + k else base - k, d);
  }

  /** Some place for the instruction makes two addresses safe. */
  lemma SomePc(k: Word32, k': Word32, up: bool) returns (pc: Word32)
    ensures pc % 4 == 0 && Safe(Moved(pc, k, up)) && Safe(Moved(pc, k', up))
  {
    hide *;
    NotBothUnsafe(k, up, 0x1000_0000, 0x1000_0000);
    NotBothUnsafe(k, up, 0x1000_0000, 0x2000_0000);
    NotBothUnsafe(k, up, 0x2000_0000, 0x1000_0000);
    NotBothUnsafe(k', up, 0x1000_0000, 0x1000_0000);
    NotBothUnsafe(k', up, 0x1000_0000, 0x2000_0000);
    NotBothUnsafe(k', up, 0x2000_0000, 0x1000_0000);
    pc := if Safe(Moved(0x1000_0000, k, up)) && Safe(Moved(0x1000_0000, k', up)) then 0x1000_0000
          else if Safe(Moved(0x2000_0000, k, up)) && Safe(Moved(0x2000_0000, k', up)) then 0x2000_0000
          else 0x3000_0000;
  }

  // Where two runs end that no step leads on from is the same place.

  lemma {:induction false} FixedStays(sem: Sem, s: Cpu, n: nat)
    requires Step(sem, s) == s
    ensures A32Cpu.Run(sem, s, n) == s
    decreases n
  {
    hide Step;
    if n > 0 {
      FixedStays(sem, s, n - 1);
    }
  }

  lemma FixedMeet(sem: Sem, s: Cpu, t: Cpu, u: Cpu)
    requires Reaches(sem, s, t) && Reaches(sem, s, u) && Step(sem, t) == t && Step(sem, u) == u
    ensures t == u
  {
    hide Step;
    var m: nat :| A32Cpu.Run(sem, s, m) == t;
    var n: nat :| A32Cpu.Run(sem, s, n) == u;
    if m <= n {
      RunAppend(sem, s, m, n - m);
      FixedStays(sem, t, n - m);
    } else {
      RunAppend(sem, s, n, m - n);
      FixedStays(sem, u, m - n);
    }
  }

  /** A branch to itself. */
  const HERE := 0xEAFF_FFFE

  lemma DecodeHere()
    ensures Cond(HERE) == 14 && Decode(HERE) == Branch(-8)
  {
    hide DecodeFields;
  }

  lemma HereStays(sem: Sem, p: Word32, c: C.Machine)
    requires p + 8 < 0x1_0000_0000 && C.WordFrom(c.rest.mem, p) == HERE
    ensures Step(sem, At(p, c)) == At(p, c)
  {
    hide Decode, Cond, CondHolds, C.WordFrom;
    DecodeHere();
    AlwaysHolds(c.flags);
  }

  /** An image is about to run, with a branch to itself behind it, and its condition holds. */
  ghost predicate Staged(w: Word32, pc: Word32, info: Info, p: Word32, c: C.Machine) {
    var len := 4 * |Rewrite(w, pc, info)|;
    && Ready(w, pc, info, p, c) && Holds(w, c) && C.WordFrom(c.rest.mem, p + len) == HERE && StackApart(C.Sp(c), p, len + 4)
  }

  lemma WordOutside(m: C.Ram, m': C.Ram, a: int, sp: Word32)
    requires forall x | !InRed(sp, x) :: m(x) == m'(x)
    requires a + 4 <= sp - 12 || sp <= a
    ensures C.WordFrom(m, a) == C.WordFrom(m', a)
  {
  }

  lemma LeavesMost(w: Word32, e: C.Machine, t: C.Machine, sp: Word32)
    requires Leaves(w, e, t, sp)
    ensures e.rest.r == t.rest.r && forall x | !InRed(sp, x) :: e.rest.mem(x) == t.rest.mem(x)
  {
    hide GetType;
  }

  lemma NextFails(sem: Sem, w: Word32, pc: Word32, info: Info, p: Word32, c: C.Machine, t: C.Machine, e: C.Machine)
    requires Known(w) && Staged(w, pc, info, p, c)
    requires Exec(sem, w, pc, c) == Next(t) && t.rest.mem == c.rest.mem && e.rest.r != t.rest.r
    requires var end := p + 4 * |Rewrite(w, pc, info)|;
             Reaches(sem, At(p, c), At(end, e)) && C.WordFrom(e.rest.mem, end) == HERE
    ensures !ImageIsRight(w)
  {
    hide Exec, Known, GetType, Rewrite, Reaches, Step, StackReady, CodeAt, C.WordFrom, IsAddrNeedFix, Holds, Leaves;
    if ImageIsRight(w) {
      assert EndsWell(sem, w, pc, info, p, c);
      var end := p + 4 * |Rewrite(w, pc, info)|;
      var e' :| Ends(sem, w, pc, info, p, 4 * |Rewrite(w, pc, info)|, c, e');
      LeavesMost(w, e', t, C.Sp(c));
      WordOutside(c.rest.mem, e'.rest.mem, end, C.Sp(c));
      HereStays(sem, end, e);
      HereStays(sem, end, e');
      FixedMeet(sem, At(p, c), At(end, e), At(end, e'));
    }
  }

  lemma TakenFails(sem: Sem, w: Word32, pc: Word32, info: Info, p: Word32, c: C.Machine, dest: Word32, dest': Word32,
                   e: C.Machine)
    requires Known(w) && Computes(GetType(w)) && Ready(w, pc, info, p, c)
    requires Exec(sem, w, pc, c) == Taken(c, dest) && Reaches(sem, At(p, c), Gone(dest', e)) && dest' != dest
    ensures !ImageIsRight(w)
  {
    hide Exec, Known, GetType, Rewrite, Reaches, StackReady, CodeAt, C.WordFrom, IsAddrNeedFix;
    if ImageIsRight(w) {
      assert EndsWell(sem, w, pc, info, p, c);
      var e' :| Ends(sem, w, pc, info, p, 4 * |Rewrite(w, pc, info)|, c, e');
      FixedMeet(sem, At(p, c), Gone(dest', e), Gone(dest, e'));
    }
  }

  // States in which an image is about to run: all registers are one, and memory is zero but for the code and one byte.

  function CodeByte(words: seq<Word32>, i: nat): C.Byte
    requires i < 4 * |words|
  {
    var w := words[i / 4];
    if i % 4 == 0 then w % 0x100
    else if i % 4 == 1 then w / 0x100 % 0x100
    else if i % 4 == 2 then w / 0x1_0000 % 0x100
    else w / 0x100_0000
  }

  function MemByte(p: int, words: seq<Word32>, spot: int, a: int): C.Byte {
    if p <= a < p + 4 * |words| then CodeByte(words, a - p) else if a == spot then 1 else 0
  }

  function Mem(p: int, words: seq<Word32>, spot: int): C.Ram {
    a => MemByte(p, words, spot, a)
  }

  lemma MemWord(p: int, words: seq<Word32>, spot: int, i: nat)
    requires i < |words|
    ensures C.WordFrom(Mem(p, words, spot), p + 4 * i) == words[i]
  {
    var w := words[i];
    Digits(w);
    assert CodeByte(words, 4 * i) == w % 0x100 && CodeByte(words, 4 * i + 1) == w / 0x100 % 0x100;
    assert CodeByte(words, 4 * i + 2) == w / 0x1_0000 % 0x100 && CodeByte(words, 4 * i + 3) == w / 0x100_0000;
    hide CodeByte;
  }

  function FlagsOf(cond: nat): Flags {
    Flags(cond in {4, 11, 13}, cond == 0, cond in {2, 8}, cond == 6)
  }

  lemma FlagsHold(cond: nat)
    requires cond < 15
    ensures CondHolds(cond, FlagsOf(cond))
  {
  }

  function Start(w: Word32, words: seq<Word32>, p: int, sp: Word32, spot: int): (c: C.Machine)
    ensures c.rest.r[C.SP] == sp && forall n: nat | n < 15 && n != C.SP :: c.rest.r[n] == 1
  {
    Core(FlagsOf(Cond(w)),
         C.Rest(seq(15, (n: nat) => if n == C.SP then sp else 1), seq(64, _ => 0), Mem(p, words + [HERE], spot)))
  }

  const NOWHERE := Info(0, 0, 0, 0, [])

  function Setting(w: Word32, pc: Word32, p: int, sp: Word32, spot: int): C.Machine {
    Start(w, Rewrite(w, pc, NOWHERE), p, sp, spot)
  }

  lemma SettingIsStaged(w: Word32, pc: Word32, p: Word32, sp: Word32, spot: int)
    requires Cond(w) < 15 && (Borrows(GetType(w)) || GetType(w).IGNORED?) && !GetType(w).LDR_LIT_PC_A1?
    requires pc % 4 == 0 && p % 4 == 0
    requires var len := 4 * |Rewrite(w, pc, NOWHERE)|; p + len < CODE_END && len > 0 && StackApart(sp, p, len + 4)
    requires IsIndexLoad(GetType(w)) || GetType(w).LDR_REG_PC_A1? ==> IndexApart(w, pc, Setting(w, pc, p, sp, spot))
    ensures Staged(w, pc, NOWHERE, p, Setting(w, pc, p, sp, spot))
  {
    hide GetType, Rewrite, C.WordFrom, CondHolds, Mem, IndexApart, Cond;
    FlagsHold(Cond(w));
    var words, c := Rewrite(w, pc, NOWHERE), Setting(w, pc, p, sp, spot);
    forall i | 0 <= i < |words| ensures C.WordFrom(c.rest.mem, p + 4 * i) == words[i] {
      MemWord(p, words + [HERE], spot, i);
    }
    MemWord(p, words + [HERE], spot, |words|);
  }

  lemma SettingReg(w: Word32, pc: Word32, p: Word32, sp: Word32, spot: int, n: nat)
    requires n < 15
    ensures var c := Setting(w, pc, p, sp, spot); c.rest.r[n] == (if n == 13 then sp else 1) && C.Sp(c) == sp
    ensures Setting(w, pc, p, sp, spot).flags == FlagsOf(Cond(w))
  {
    hide Mem, Cond, Rewrite;
  }

  /** Away from the code and the stack. */
  lemma SettingByte(w: Word32, pc: Word32, sp: Word32, spot: int, a: int)
    requires |Rewrite(w, pc, NOWHERE)| < 10 && (a < 0x100 || 0x1000 <= a)
    ensures Setting(w, pc, 0x100, sp, spot).rest.mem(a) == if a == spot then 1 else 0
  {
    hide Cond, Rewrite;
  }

  // ADD, SUB and MOV to a register other than PC.

  /** The end of the image, whatever its operands and its result are. */
  lemma DataEnd(sem: Sem, w: Word32, pc: Word32, p: Word32, c: C.Machine) returns (rx: nat, rn: nat, rm: nat, e: C.Machine)
    requires Known(w) && IsData(GetType(w)) && Staged(w, pc, NOWHERE, p, c)
    ensures Cond(w) < 15 && IsDataOp(Op(w)) && Shift(w) % 2 == 0 && Rd(w) < 15 && rx != Rd(w) && StandsFor(w, rx, rn, rm)
    ensures |Rewrite(w, pc, NOWHERE)| == 8 && e == Popped(Used(w, c, rx, rn, rm, pc, p + 24), rx)
    ensures Reaches(sem, At(p, c), At(p + 32, e)) && C.WordFrom(e.rest.mem, p + 32) == HERE
    ensures forall a | !InRed(C.Sp(c), a) :: Used(w, c, rx, rn, rm, pc, p + 24).rest.mem(a) == c.rest.mem(a)
  {
    hide Cond, Op, Rn, Rd, Shift, Rm, CodeAt, Reaches, Rewrite, GetType, With, IsDataOp, Seen, C.WordFrom, C.PutWord, CondHolds,
         IsAddrNeedFix;
    rx, rn, rm := DataImage(w, pc, NOWHERE);
    DataUses(sem, w, p, pc, rx, rn, rm, c);
    var d := Used(w, c, rx, rn, rm, pc, p + 24);
    var words := Rewrite(w, pc, NOWHERE);
    PopRuns(sem, At(p, c), p, words, 5, rx, d);
    e := Popped(d, rx);
    OverRuns(sem, At(p, c), p, words, 6, e);
    forall a | !InRed(C.Sp(c), a) ensures d.rest.mem(a) == c.rest.mem(a) {
      SavedIsRed(c, rx, a);
    }
    WordOutside(c.rest.mem, e.rest.mem, p + 32, C.Sp(c));
  }

  /** The computed value, and what the original instruction computes. */
  lemma DataResults(sem: Sem, w: Word32, pc: Word32, p: Word32, c: C.Machine, rx: nat, rn: nat, rm: nat) returns (t: C.Machine)
    requires Known(w) && IsData(GetType(w)) && Holds(w, c) && rx < 13 && rn < 15 && rm < 16 && C.Sp(c) >= 12 && p + 24 < CODE_END
    ensures Rd(w) < 15 && Exec(sem, w, pc, c) == Next(t) && t.rest.mem == c.rest.mem
    ensures t.rest.r == c.rest.r[Rd(w) := DataOf(w, pc, c).0]
    ensures var x, e := Seen(w, Borrowed(c, rx, pc), rn, rm, p + 24).0, Popped(Used(w, c, rx, rn, rm, pc, p + 24), rx);
            if Rd(w) == 13
            then C.Sp(e) == Wrap32(x + 4) && e.rest.r[rx] == C.WordFrom(Used(w, c, rx, rn, rm, pc, p + 24).rest.mem, x)
            else rx != Rd(w) ==> e.rest.r[Rd(w)] == x
  {
    hide Cond, Op, Rn, Rd, Shift, Rm, GetType, Exec, DataOf, Seen, C.WordFrom, C.PutWord;
    DataExec(sem, w, pc, c);
    var (x, f) := DataOf(w, pc, c);
    t := C.SetReg(c.(flags := f), Rd(w), x);
  }

  lemma StagedTells(w: Word32, pc: Word32, p: Word32, c: C.Machine)
    requires Staged(w, pc, NOWHERE, p, c)
    ensures var len := 4 * |Rewrite(w, pc, NOWHERE)|;
            && Ready(w, pc, NOWHERE, p, c) && Holds(w, c) && 0 < len && p + len < CODE_END
            && C.WordFrom(c.rest.mem, p + len) == HERE && StackApart(C.Sp(c), p, len + 4)
            && CodeAt(c.rest.mem, p, Rewrite(w, pc, NOWHERE))
  {
    hide StackReady, Rewrite, CodeAt, C.WordFrom, Holds;
  }

  lemma DataShape(w: Word32, pc: Word32)
    requires IsData(GetType(w))
    ensures Cond(w) < 15 && |Rewrite(w, pc, NOWHERE)| == 8 && Borrows(GetType(w)) && Shift(w) < 256
    ensures !IsIndexLoad(GetType(w)) && !GetType(w).LDR_LIT_PC_A1? && !GetType(w).LDR_REG_PC_A1?
  {
    FieldBounds(w);
    hide Cond, Op, Rn, Rd, Shift, Rm, GetType, Rewrite, With;
    var rx, rn, rm := DataImage(w, pc, NOWHERE);
  }

  /** A register that is kept on the stack lowers SP. */
  lemma OperandsDiffer(w: Word32, pc: Word32, here: Word32, c: C.Machine, d: C.Machine, rx: nat, rn: nat, rm: nat)
    requires StandsFor(w, rx, rn, rm) && Lends(d, c, rx, pc) && OperandMoves(w) && !Discards(Shift(w))
    requires Shift(w) < 256 && Shift(w) % 2 == 0
    requires if Rm(w) == 13 then C.Sp(c) == 0x8000_0000 && Near(C.Sp(d)) else pc == 0x8000_0000 && Near(here)
    ensures Seen(w, d, rn, rm, here).0 != DataOf(w, pc, c).0
  {
    hide Cond, Op, Rn, Rd, Shift, Rm, Data, Discards, Near;
    DataDiffers(Op(w), pc, Reg(d, rm, here), Shift(w), c.flags);
  }

  lemma BorrowedSp(c: C.Machine, rx: nat, pc: Word32)
    requires rx < 13 && C.Sp(c) >= 12
    ensures C.Sp(Borrowed(c, rx, pc)) == C.Sp(c) - 4
  {
    hide C.PutWord;
  }

  lemma SpIs(c: C.Machine)
    ensures C.Sp(c) == c.rest.r[13]
  {
  }

  /** A state in which the operand that has moved makes a difference. */
  predicate Shows(w: Word32, pc: Word32, p: int, sp: Word32) {
    if Rm(w) == 13 then pc == 0 && p == 0x100 && sp == 0x8000_0000
    else pc == 0x8000_0000 && p == 0x7FFF_FFE4 && sp == 0x4000_0000
  }

  lemma ShowsTells(w: Word32, pc: Word32, p: int, sp: Word32)
    requires Shows(w, pc, p, sp)
    ensures StackApart(sp, p, 32) && StackApart(sp, p, 36) && p + 40 < CODE_END && p % 4 == 0 && pc % 4 == 0
    ensures if Rm(w) == 13 then sp == 0x8000_0000 && Near(sp - 4) && Near(sp - 12) else pc == 0x8000_0000 && Near(p + 24)
  {
  }

  lemma OperandShows(w: Word32) returns (pc: Word32, p: Word32, sp: Word32)
    ensures Shows(w, pc, p, sp)
  {
    pc, p, sp := if Rm(w) == 13 then 0 else 0x8000_0000, if Rm(w) == 13 then 0x100 else 0x7FFF_FFE4,
                 if Rm(w) == 13 then 0x8000_0000 else 0x4000_0000;
  }

  lemma AtDiffers(r: seq<Word32>, r': seq<Word32>, n: nat, x: Word32)
    requires |r| == |r'| && n < |r| && r[n] != x
    ensures r != r'[n := x]
  {
    assert r'[n := x][n] == x;
  }

  /** The operand has moved. */
  lemma DataOperandFails(sem: Sem, w: Word32)
    requires Known(w) && IsData(GetType(w)) && Rd(w) != 13 && OperandMoves(w) && !Discards(Shift(w))
    ensures !ImageIsRight(w)
  {
    hide *;
    var pc, p, sp := OperandShows(w);
    ShowsTells(w, pc, p, sp);
    DataShape(w, pc);
    SettingIsStaged(w, pc, p, sp, -1);
    var c := Setting(w, pc, p, sp, -1);
    StagedTells(w, pc, p, c);
    SettingReg(w, pc, p, sp, -1, 13);
    var rx, rn, rm, e := DataEnd(sem, w, pc, p, c);
    StandsTells(w, rx, rn, rm);
    var t := DataResults(sem, w, pc, p, c, rx, rn, rm);
    BorrowedLends(c, rx, pc);
    BorrowedSp(c, rx, pc);
    OperandsDiffer(w, pc, p + 24, c, Borrowed(c, rx, pc), rx, rn, rm);
    AtDiffers(e.rest.r, c.rest.r, Rd(w), DataOf(w, pc, c).0);
    NextFails(sem, w, pc, NOWHERE, p, c, t, e);
  }

  lemma StackIsApart(sp: Word32, p: int)
    requires sp == 0x8000_0000 && p == 0x100
    ensures StackApart(sp, p, 32) && StackApart(sp, p, 36) && StackApart(sp, p, 40) && p + 40 < CODE_END
  {
  }

  /** The result is right, but goes to SP before the borrowed register is popped. */
  lemma DataSpFails(sem: Sem, w: Word32)
    requires Known(w) && IsData(GetType(w)) && Rd(w) == 13 && !OperandMoves(w)
    ensures !ImageIsRight(w)
  {
    hide *;
    var pc, p, sp := 0, 0x100, 0x8000_0000;
    DataShape(w, pc);
    StackIsApart(sp, p);
    SettingIsStaged(w, pc, p, sp, -1);
    var c := Setting(w, pc, p, sp, -1);
    StagedTells(w, pc, p, c);
    SettingReg(w, pc, p, sp, -1, 13);
    var rx, rn, rm, e := DataEnd(sem, w, pc, p, c);
    StandsTells(w, rx, rn, rm);
    var t := DataResults(sem, w, pc, p, c, rx, rn, rm);
    BorrowedLends(c, rx, pc);
    SameOperands(w, Borrowed(c, rx, pc), c, rx, rn, rm, pc, p + 24);
    SpIs(e);
    FourOn(DataOf(w, pc, c).0);
    NextFails(sem, w, pc, NOWHERE, p, c, t, e);
  }

  lemma FourOn(x: Word32)
    ensures Wrap32(x + 4) != x
  {
  }

  lemma DataIs(op: nat, a: Word32, y: Word32, shift: nat, f: Flags)
    requires op / 2 in {2, 4}
    ensures Data(op, a, y, shift, f).0 == Moved(a, Shifted(y, shift, f.c).0, op / 2 == 4)
  {
    hide Shifted, SignExtend;
  }

  /** The borrowed register is then popped from elsewhere. */
  lemma DataToSpFails(sem: Sem, w: Word32)
    requires Known(w) && IsData(GetType(w)) && Rd(w) == 13 && OperandMoves(w)
    ensures !ImageIsRight(w)
  {
    hide *;
    var p, sp := 0x100, 0x8000_0000;
    var k := Shifted(if Rm(w) == 13 then sp - 4 else p + 24, Shift(w), FlagsOf(Cond(w)).c).0;
    var pc := SomePc(k, k, Op(w) / 2 == 4);
    DataShape(w, pc);
    StackIsApart(sp, p);
    SettingIsStaged(w, pc, p, sp, -1);
    var c := Setting(w, pc, p, sp, -1);
    StagedTells(w, pc, p, c);
    SettingReg(w, pc, p, sp, -1, 13);
    var rx, rn, rm, e := DataEnd(sem, w, pc, p, c);
    StandsTells(w, rx, rn, rm);
    SettingReg(w, pc, p, sp, -1, rx);
    var t := DataResults(sem, w, pc, p, c, rx, rn, rm);
    BorrowedLends(c, rx, pc);
    BorrowedSp(c, rx, pc);
    SeenIs(w, Borrowed(c, rx, pc), c, rx, rn, rm, pc, p + 24);
    PoppedIsZero(w, pc, sp, -1, Moved(pc, k, Op(w) / 2 == 4), Used(w, c, rx, rn, rm, pc, p + 24).rest.mem);
    NextFails(sem, w, pc, NOWHERE, p, c, t, e);
  }

  lemma SeenIs(w: Word32, d: C.Machine, c: C.Machine, rx: nat, rn: nat, rm: nat, pc: Word32, here: Word32)
    requires StandsFor(w, rx, rn, rm) && Lends(d, c, rx, pc) && OperandMoves(w) && IsDataOp(Op(w))
    ensures Seen(w, d, rn, rm, here).0
            == Moved(pc, Shifted(if Rm(w) == 13 then C.Sp(d) else here, Shift(w), c.flags.c).0, Op(w) / 2 == 4)
  {
    hide Cond, Op, Rn, Rd, Shift, Rm, Data, Shifted, Moved;
    DataIs(Op(w), pc, Reg(d, rm, here), Shift(w), c.flags);
  }

  /** A word that was never written. */
  lemma PoppedIsZero(w: Word32, pc: Word32, sp: Word32, spot: int, a: int, m: C.Ram)
    requires |Rewrite(w, pc, NOWHERE)| < 10 && sp == 0x8000_0000 && (Safe(a) || Safe(a - 4) || a == 0) && !(a <= spot < a + 4)
    requires forall x | !InRed(sp, x) :: m(x) == Setting(w, pc, 0x100, sp, spot).rest.mem(x)
    ensures C.WordFrom(m, a) == 0
  {
    hide Setting, Rewrite;
    SettingByte(w, pc, sp, spot, a);
    SettingByte(w, pc, sp, spot, a + 1);
    SettingByte(w, pc, sp, spot, a + 2);
    SettingByte(w, pc, sp, spot, a + 3);
  }

  lemma DataFails(sem: Sem, w: Word32)
    requires Known(w) && IsData(GetType(w)) && !Right(w)
    ensures !ImageIsRight(w)
  {
    hide *;
    if Rd(w) != 13 {
      DataNotRight(w);
      DataOperandFails(sem, w);
    } else if OperandMoves(w) {
      DataToSpFails(sem, w);
    } else {
      DataSpFails(sem, w);
    }
  }

  lemma DataNotRight(w: Word32)
    requires IsData(GetType(w)) && !Right(w) && Rd(w) != 13
    ensures OperandMoves(w) && !Discards(Shift(w))
  {
    hide GetType, Rd, Shift, OperandMoves, Discards;
  }

  // ADD and SUB to PC.

  lemma DataPcFails(sem: Sem, w: Word32)
    requires Known(w) && IsDataPc(GetType(w)) && OperandMoves(w) && !Discards(Shift(w))
    ensures !ImageIsRight(w)
  {
    hide *;
    var pc, p, sp := OperandShows(w);
    ShowsTells(w, pc, p, sp);
    var rx, ry, rn, rm := DataPcImage(w, pc, NOWHERE);
    StandsTells(w, rx, rn, rm);
    DataPcShape(w, pc, rx, ry, rn, rm);
    SettingIsStaged(w, pc, p, sp, -1);
    var c := Setting(w, pc, p, sp, -1);
    StagedTells(w, pc, p, c);
    SettingReg(w, pc, p, sp, -1, 13);
    DataPcExec(sem, w, pc, c);
    var e := DataPcSeen(sem, w, p, pc, rx, ry, rn, rm, c);
    PairLends(c, rx, ry, p + 16, pc);
    PairSp(c, rx, ry, p + 16, pc);
    OperandsDiffer(w, pc, p + 24, c, LentPair(c, rx, ry, p + 16, pc), rx, rn, rm);
    TakenFails(sem, w, pc, NOWHERE, p, c, DataOf(w, pc, c).0, Seen(w, LentPair(c, rx, ry, p + 16, pc), rn, rm, p + 24).0, e);
  }

  lemma DataPcShape(w: Word32, pc: Word32, rx: nat, ry: nat, rn: nat, rm: nat)
    requires IsDataPc(GetType(w)) && rx < 5 && ry < 5 && rn < 15 && rm < 16
    requires Cond(w) < 15 && Rewrite(w, pc, NOWHERE) == DataPcWords(Cond(w), rx, ry, With(w, rn, ry, rm), pc)
    ensures |Rewrite(w, pc, NOWHERE)| == 8 && Borrows(GetType(w)) && Computes(GetType(w)) && Shift(w) < 256
    ensures !IsIndexLoad(GetType(w)) && !GetType(w).LDR_LIT_PC_A1? && !GetType(w).LDR_REG_PC_A1?
  {
    FieldBounds(w);
    hide Cond, Op, Rn, Rd, Shift, Rm, GetType, Rewrite, With, RegBit;
  }

  // Loads with an index.

  /** The index of the original instruction, and the one that the image sees `less` below SP. */
  function Index(w: Word32, less: nat): Word32
    requires less <= 12
  {
    Offset(Op(w), if Rm(w) == 13 then 0x8000_0000 - less else 1, Shift(w), FlagsOf(Cond(w)))
  }

  function Up(w: Word32): bool {
    Op(w) / 8 % 2 == 1
  }

  /** Where the instruction and its image read. */
  lemma IndexedAt(w: Word32, pc: Word32, spot: int, d: C.Machine, rx: nat, less: nat)
    requires Rn(w) == 15 && Rm(w) < 15 && rx < 13 && rx != Rm(w) && less <= 12
    requires var c := Setting(w, pc, 0x100, 0x8000_0000, spot); Lends(d, c, rx, pc) && C.Sp(d) == 0x8000_0000 - less
    ensures IndexedOf(w, pc, Setting(w, pc, 0x100, 0x8000_0000, spot)) == Moved(pc, Index(w, 0), Up(w))
    ensures SeenIndex(w, d, rx) == Moved(pc, Index(w, less), Up(w))
  {
    var c := Setting(w, pc, 0x100, 0x8000_0000, spot);
    SettingReg(w, pc, 0x100, 0x8000_0000, spot, Rm(w));
    hide Cond, Op, Rn, Rd, Shift, Rm, Indexed, Offset, Moved, Setting;
    IndexedIs(Op(w), pc, c.rest.r[Rm(w)], Shift(w), c.flags);
    IndexedIs(Op(w), pc, d.rest.r[Rm(w)], Shift(w), d.flags);
  }

  lemma SafeIsApart(w: Word32, pc: Word32, c: C.Machine)
    requires C.Sp(c) == 0x8000_0000 && Safe(IndexedOf(w, pc, c))
    ensures IndexApart(w, pc, c)
  {
    hide GetType, IndexedOf;
  }

  lemma IndexShape(w: Word32, pc: Word32)
    requires Known(w) && (IsIndexLoad(GetType(w)) || GetType(w).LDR_REG_PC_A1?)
    ensures Cond(w) < 15 && Rn(w) == 15 && Rm(w) < 15 && IsIndexed(Op(w), Shift(w)) && Shift(w) < 256
    ensures 8 <= |Rewrite(w, pc, NOWHERE)| <= 9 && Borrows(GetType(w)) && !GetType(w).LDR_LIT_PC_A1?
    ensures AccessOf(GetType(w)) == IndexAccess(Op(w), Shift(w))
  {
    FieldBounds(w);
    hide Cond, Op, Rn, Rd, Shift, Rm, GetType, Rewrite, With, RegBit, IsIndexed, Known, IndexAccess;
    if IsIndexLoad(GetType(w)) {
      var rx := IndexImage(w, pc, NOWHERE);
    } else {
      var rx, ry := IndexPcImage(w, pc, NOWHERE);
    }
  }

  /** A state in which both addresses are safe. */
  lemma IndexStaged(w: Word32, pc: Word32, spot: int) returns (c: C.Machine)
    requires Known(w) && (IsIndexLoad(GetType(w)) || GetType(w).LDR_REG_PC_A1?) && pc % 4 == 0
    requires Safe(Moved(pc, Index(w, 0), Up(w)))
    ensures c == Setting(w, pc, 0x100, 0x8000_0000, spot) && Staged(w, pc, NOWHERE, 0x100, c) && C.Sp(c) == 0x8000_0000
  {
    hide *;
    c := Setting(w, pc, 0x100, 0x8000_0000, spot);
    IndexShape(w, pc);
    StackIsApart(0x8000_0000, 0x100);
    SettingReg(w, pc, 0x100, 0x8000_0000, spot, 13);
    var rx := OtherThan(Rm(w));
    BorrowedLends(c, rx, pc);
    BorrowedSp(c, rx, pc);
    IndexedAt(w, pc, spot, Borrowed(c, rx, pc), rx, 4);
    SafeIsApart(w, pc, c);
    SettingIsStaged(w, pc, 0x100, 0x8000_0000, spot);
  }

  lemma OtherThan(n: nat) returns (m: nat)
    ensures m != n && m < 2
  {
    m := if n == 0 then 1 else 0;
  }

  lemma LowByte(m: C.Ram, a: int, access: C.Access)
    ensures C.LoadValue(m, a, access) % 0x100 == m(a)
  {
    LowOfWord(m, a);
    LowOfHalf(m, a);
    hide C.WordFrom, C.HalfAt, Wrap32, SignExtend;
    LowOfSigned(m(a), 0x100);
    LowOfSigned(C.HalfAt(m, a), 0x1_0000);
  }

  lemma LowOfHalf(m: C.Ram, a: int)
    ensures C.HalfAt(m, a) % 0x100 == m(a)
  {
  }

  lemma LowOfWord(m: C.Ram, a: int)
    ensures C.WordFrom(m, a) % 0x100 == m(a)
  {
    LowOfHalf(m, a);
    hide C.HalfAt;
  }

  lemma LowOfSigned(x: nat, full: nat)
    requires full in {0x100, 0x1_0000} && x < full
    ensures Wrap32(SignExtend(x, full)) % 0x100 == x % 0x100
  {
  }

  lemma IndexEnd(sem: Sem, w: Word32, pc: Word32, p: Word32, c: C.Machine) returns (rx: nat, e: C.Machine)
    requires Known(w) && IsIndexLoad(GetType(w)) && Staged(w, pc, NOWHERE, p, c)
    ensures rx < 4 && rx != Rd(w) && rx != Rd(w) + 1 && rx != Rm(w) && Rm(w) < 15
    ensures Rd(w) < (if IndexAccess(Op(w), Shift(w)).D? then 14 else 15)
    ensures |Rewrite(w, pc, NOWHERE)| == 8 && e == Popped(Loaded(w, c, rx, pc), rx)
    ensures Reaches(sem, At(p, c), At(p + 32, e)) && C.WordFrom(e.rest.mem, p + 32) == HERE
    ensures forall a | !InRed(C.Sp(c), a) :: Saved(c, rx).rest.mem(a) == c.rest.mem(a)
  {
    hide Cond, Op, Rn, Rd, Shift, Rm, CodeAt, Reaches, Rewrite, GetType, With, IsIndexed, IndexAccess, Seen, C.WordFrom, C.PutWord,
         CondHolds, IsAddrNeedFix, SeenIndex, C.LoadInto, Known;
    rx := IndexImage(w, pc, NOWHERE);
    IndexUses(sem, w, p, pc, rx, c);
    var d := Loaded(w, c, rx, pc);
    LoadedMem(w, c, rx, pc);
    PopRuns(sem, At(p, c), p, Rewrite(w, pc, NOWHERE), 7, rx, d);
    e := Popped(d, rx);
    forall a | !InRed(C.Sp(c), a) ensures d.rest.mem(a) == c.rest.mem(a) {
      SavedIsRed(c, rx, a);
    }
    WordOutside(c.rest.mem, e.rest.mem, p + 32, C.Sp(c));
  }

  lemma LoadedMem(w: Word32, c: C.Machine, rx: nat, pc: Word32)
    requires rx < 13 && Rm(w) < 15 && C.Sp(c) >= 12 && Rd(w) < (if IndexAccess(Op(w), Shift(w)).D? then 14 else 15)
    ensures Loaded(w, c, rx, pc).rest.mem == Saved(c, rx).rest.mem
  {
    hide IndexAccess, Op, Shift, Rd, Rm, SeenIndex, C.LoadValue, C.WordFrom, C.PutWord;
  }

  lemma ZeroWord(m: C.Ram, a: int, access: C.Access)
    requires C.WordFrom(m, a) == 0
    ensures C.LoadValue(m, a, access) == 0
  {
  }

  predicate LoadsSp(w: Word32) {
    Rd(w) == 13 || (IndexAccess(Op(w), Shift(w)).D? && Rd(w) == 12)
  }

  lemma LoadsZero(w: Word32, c: C.Machine, rx: nat, pc: Word32)
    requires rx < 13 && Rm(w) < 15 && C.Sp(c) >= 12 && Rd(w) < (if IndexAccess(Op(w), Shift(w)).D? then 14 else 15)
    requires LoadsSp(w)
    requires var a, m := SeenIndex(w, Borrowed(c, rx, pc), rx), Saved(c, rx).rest.mem;
             C.WordFrom(m, a) == 0 && C.WordFrom(m, a + 4) == 0
    ensures C.Sp(Loaded(w, c, rx, pc)) == 0
  {
    hide IndexAccess, Op, Shift, Rd, Rm, SeenIndex, C.WordFrom, C.PutWord, C.LoadValue;
    ZeroWord(Saved(c, rx).rest.mem, SeenIndex(w, Borrowed(c, rx, pc), rx), IndexAccess(Op(w), Shift(w)));
  }

  lemma PoppedReg(d: C.Machine, rx: nat, n: nat)
    requires rx < 13 && n < 15
    ensures Popped(d, rx).rest.r[n]
            == if n == 13 then Wrap32(C.Sp(d) + 4) else if n == rx then C.WordFrom(d.rest.mem, C.Sp(d)) else d.rest.r[n]
  {
    hide C.WordFrom;
  }

  lemma IntoReg(c: C.Machine, access: C.Access, rd: nat, a: int, n: nat)
    requires rd < (if access.D? then 14 else 15) && n < 15 && n != rd + 1
    ensures C.LoadInto(c, access, rd, if access.D? then rd + 1 else 0, a).rest.r[n]
            == if n == rd then C.LoadValue(c.rest.mem, a, access) else c.rest.r[n]
  {
    hide C.LoadValue, C.WordFrom;
  }

  /** What is loaded goes to SP, and the borrowed register is popped from there. */
  lemma IndexToSpFails(sem: Sem, w: Word32)
    requires Known(w) && IsIndexLoad(GetType(w)) && LoadsSp(w)
    ensures !ImageIsRight(w)
  {
    hide *;
    var pc := SomePc(Index(w, 0), Index(w, 4), Up(w));
    var c := IndexStaged(w, pc, -1);
    IndexShape(w, pc);
    StagedTells(w, pc, 0x100, c);
    var rx, e := IndexEnd(sem, w, pc, 0x100, c);
    IndexExec(sem, w, pc, c);
    BorrowedLends(c, rx, pc);
    BorrowedSp(c, rx, pc);
    IndexedAt(w, pc, -1, Borrowed(c, rx, pc), rx, 4);
    var a: int := Moved(pc, Index(w, 4), Up(w));
    var m, access := Saved(c, rx).rest.mem, IndexAccess(Op(w), Shift(w));
    PoppedIsZero(w, pc, 0x8000_0000, -1, a, m);
    PoppedIsZero(w, pc, 0x8000_0000, -1, a + 4, m);
    PoppedIsZero(w, pc, 0x8000_0000, -1, 0, m);
    LoadsZero(w, c, rx, pc);
    LoadedMem(w, c, rx, pc);
    PoppedReg(Loaded(w, c, rx, pc), rx, rx);
    SettingReg(w, pc, 0x100, 0x8000_0000, -1, rx);
    IntoReg(c, access, Rd(w), IndexedOf(w, pc, c), rx);
    LoadKeepsMem(c, access, Rd(w), IndexedOf(w, pc, c));
    NextFails(sem, w, pc, NOWHERE, 0x100, c, Exec(sem, w, pc, c).core, e);
  }

  lemma MovedApart(base: Word32, k: Word32, k': Word32, up: bool)
    requires k != k'
    ensures Moved(base, k, up) != Moved(base, k', up)
  {
  }

  lemma IndicesDiffer(w: Word32, less: nat)
    requires Rm(w) == 13 && IsIndexed(Op(w), Shift(w)) && Shift(w) < 256 && !Discards(Shift(w)) && less in {4, 12}
    ensures Index(w, 0) != Index(w, less)
  {
    hide Op, Rm, Shift, IsIndexed, Discards, Offset, Cond;
    OffsetsDiffer(Op(w), 0x8000_0000 - less, Shift(w), FlagsOf(Cond(w)));
  }

  lemma SafeByte(w: Word32, pc: Word32, spot: int, a: int, m: C.Ram)
    requires |Rewrite(w, pc, NOWHERE)| < 10 && Safe(a)
    requires forall x | !InRed(0x8000_0000, x) :: m(x) == Setting(w, pc, 0x100, 0x8000_0000, spot).rest.mem(x)
    ensures m(a) == if a == spot then 1 else 0
  {
    hide Setting, Rewrite;
    SettingByte(w, pc, 0x8000_0000, spot, a);
  }

  lemma LoadedReg(w: Word32, c: C.Machine, rx: nat, pc: Word32)
    requires rx < 13 && Rm(w) < 15 && C.Sp(c) >= 12 && Rd(w) < (if IndexAccess(Op(w), Shift(w)).D? then 14 else 15)
    ensures Loaded(w, c, rx, pc).rest.r[Rd(w)]
            == C.LoadValue(Saved(c, rx).rest.mem, SeenIndex(w, Borrowed(c, rx, pc), rx), IndexAccess(Op(w), Shift(w)))
  {
    hide IndexAccess, Op, Shift, Rd, Rm, SeenIndex, C.WordFrom, C.PutWord, C.LoadValue;
  }

  /** The index has moved: the image reads elsewhere. */
  lemma IndexOperandFails(sem: Sem, w: Word32)
    requires Known(w) && IsIndexLoad(GetType(w)) && !LoadsSp(w) && Rm(w) == 13 && !Discards(Shift(w))
    ensures !ImageIsRight(w)
  {
    hide *;
    var pc := SomePc(Index(w, 0), Index(w, 4), Up(w));
    var spot, a := Moved(pc, Index(w, 0), Up(w)), Moved(pc, Index(w, 4), Up(w));
    var c := IndexStaged(w, pc, spot);
    IndexShape(w, pc);
    IndicesDiffer(w, 4);
    MovedApart(pc, Index(w, 0), Index(w, 4), Up(w));
    StagedTells(w, pc, 0x100, c);
    var rx, e := IndexEnd(sem, w, pc, 0x100, c);
    IndexExec(sem, w, pc, c);
    BorrowedLends(c, rx, pc);
    BorrowedSp(c, rx, pc);
    IndexedAt(w, pc, spot, Borrowed(c, rx, pc), rx, 4);
    var m, access := Saved(c, rx).rest.mem, IndexAccess(Op(w), Shift(w));
    SafeByte(w, pc, spot, a, m);
    SafeByte(w, pc, spot, spot, c.rest.mem);
    LowByte(m, a, access);
    LowByte(c.rest.mem, spot, access);
    LoadedReg(w, c, rx, pc);
    NotToSp(w);
    PoppedReg(Loaded(w, c, rx, pc), rx, Rd(w));
    IntoReg(c, access, Rd(w), IndexedOf(w, pc, c), Rd(w));
    LoadKeepsMem(c, access, Rd(w), IndexedOf(w, pc, c));
    NextFails(sem, w, pc, NOWHERE, 0x100, c, Exec(sem, w, pc, c).core, e);
  }

  lemma NotToSp(w: Word32)
    requires !LoadsSp(w)
    ensures Rd(w) != 13
  {
    hide Rd, Op, Shift, IndexAccess;
  }

  // LDR PC with an index.

  lemma PairMem(c: C.Machine, rx: nat, ry: nat, here: Word32, pc: Word32)
    requires rx < 5 && ry < 5 && C.Sp(c) >= 12
    ensures forall a | !InRed(C.Sp(c), a) :: LentPair(c, rx, ry, here, pc).rest.mem(a) == c.rest.mem(a)
  {
  }

  lemma IndexPcFails(sem: Sem, w: Word32)
    requires Known(w) && GetType(w).LDR_REG_PC_A1? && Rm(w) == 13 && !Discards(Shift(w))
    ensures !ImageIsRight(w)
  {
    hide *;
    var pc := SomePc(Index(w, 0), Index(w, 12), Up(w));
    var spot, a := Moved(pc, Index(w, 0), Up(w)), Moved(pc, Index(w, 12), Up(w));
    var c := IndexStaged(w, pc, spot);
    IndexShape(w, pc);
    IndicesDiffer(w, 12);
    MovedApart(pc, Index(w, 0), Index(w, 12), Up(w));
    StagedTells(w, pc, 0x100, c);
    StackIsApart(0x8000_0000, 0x100);
    var rx, ry := IndexPcImage(w, pc, NOWHERE);
    LengthIsNine(w, pc, rx, ry);
    IndexPcExec(sem, w, pc, c);
    var e := IndexPcSeen(sem, w, 0x100, pc, rx, ry, c);
    var d := LentPair(c, rx, ry, 0x110, pc);
    PairLends(c, rx, ry, 0x110, pc);
    PairSp(c, rx, ry, 0x110, pc);
    PairMem(c, rx, ry, 0x110, pc);
    IndexedAt(w, pc, spot, d, rx, 12);
    SafeByte(w, pc, spot, a, d.rest.mem);
    SafeByte(w, pc, spot, spot, c.rest.mem);
    LowOfWord(d.rest.mem, a);
    LowOfWord(c.rest.mem, spot);
    TakenFails(sem, w, pc, NOWHERE, 0x100, c, C.WordFrom(c.rest.mem, spot), C.WordFrom(d.rest.mem, a), e);
  }

  lemma LengthIsNine(w: Word32, pc: Word32, rx: nat, ry: nat)
    requires GetType(w).LDR_REG_PC_A1? && rx < 5 && ry < 5 && Cond(w) < 15 && Rm(w) < 15
    requires Rewrite(w, pc, NOWHERE) == IndexPcWords(Cond(w), rx, ry, With(w, rx, ry, Rm(w)), pc)
    ensures |Rewrite(w, pc, NOWHERE)| == 9 && Computes(GetType(w))
  {
    hide Cond, Rm, GetType, Rewrite, With, RegBit;
  }

  // ADD and SUB of SP and PC, which are moved as they are.

  lemma OverlookedShape(w: Word32, pc: Word32)
    requires GetType(w).IGNORED? && Overlooked(w)
    ensures Cond(w) < 15 && Rewrite(w, pc, NOWHERE) == [w] && Rd(w) < 15 && Shift(w) < 256 && Shift(w) % 2 == 0 && !IsMov(Op(w))
    ensures !Borrows(GetType(w)) && !IsIndexLoad(GetType(w)) && !GetType(w).LDR_LIT_PC_A1? && !GetType(w).LDR_REG_PC_A1?
  {
    FieldBounds(w);
    hide GetType, Cond, Op, Rn, Rd, Rm, Shift;
  }

  /** What it does where PC reads as `pc`. */
  function Overlook(w: Word32, pc: Word32, c: C.Machine): (Word32, Flags) {
    Data(Op(w), C.Sp(c), pc, Shift(w), c.flags)
  }

  lemma OverlookedExec(sem: Sem, w: Word32, pc: Word32, c: C.Machine)
    requires Known(w) && GetType(w).IGNORED? && Overlooked(w) && Holds(w, c)
    ensures Rd(w) < 15 && var (x, f) := Overlook(w, pc, c); Exec(sem, w, pc, c) == Next(C.SetReg(c.(flags := f), Rd(w), x))
  {
    DecodeOverlooked(w);
    hide GetType, Decode, Cond, Op, Rn, Rd, Rm, Shift, Data, ReadsPc;
  }

  lemma AluExecutes(sem: Sem, w: Word32, op: nat, rd: nat, shift: nat, p: Word32, c: C.Machine)
    requires Decode(w) == Alu(op, rd, 13, 15, shift) && p + 8 < CODE_END
    ensures rd < 15
    ensures var (x, f) := Data(op, C.Sp(c), p + 8, shift, c.flags);
            Execute(sem, w, p, c) == At(p + 4, C.SetReg(c.(flags := f), rd, x))
  {
    hide Decode, Data;
  }

  lemma OverlookedRuns(sem: Sem, w: Word32, p: Word32, c: C.Machine)
    requires Overlooked(w) && CondHolds(Cond(w), c.flags) && p + 8 < CODE_END && CodeAt(c.rest.mem, p, [w]) && Cond(w) < 15
    ensures Rd(w) < 15
    ensures var (x, f) := Overlook(w, p + 8, c); Reaches(sem, At(p, c), At(p + 4, C.SetReg(c.(flags := f), Rd(w), x)))
  {
    DecodeOverlooked(w);
    hide *;
    AluExecutes(sem, w, Op(w), Rd(w), Shift(w), p, c);
    OverlookIs(w, p + 8, c);
    ReachesSelf(sem, At(p, c));
    CodeBelow(p);
    Executes(sem, At(p, c), p, [w], 0, c);
  }

  lemma CodeBelow(p: int)
    ensures p + 8 < CODE_END ==> p < CODE_END && p + 8 < 0x1_0000_0000
  {
  }

  lemma OverlookedFails(sem: Sem, w: Word32)
    requires Known(w) && GetType(w).IGNORED? && Overlooked(w) && !Discards(Shift(w))
    ensures !ImageIsRight(w)
  {
    hide *;
    var pc, p, sp := 0x8000_0000, 0x7FFF_FFF4, 0x4000_0000;
    OverlookedShape(w, pc);
    SpIsFar(sp, p);
    SettingIsStaged(w, pc, p, sp, -1);
    var c := Setting(w, pc, p, sp, -1);
    StagedTells(w, pc, p, c);
    PlainHolds(w, c);
    OverlookedExec(sem, w, pc, c);
    OverlookedRuns(sem, w, p, c);
    DataDiffers(Op(w), C.Sp(c), p + 8, Shift(w), c.flags);
    OverlookIs(w, pc, c);
    OverlookIs(w, p + 8, c);
    var (x, f) := Overlook(w, pc, c);
    var (x', f') := Overlook(w, p + 8, c);
    var t, e := C.SetReg(c.(flags := f), Rd(w), x), C.SetReg(c.(flags := f'), Rd(w), x');
    SetsDiffer(c, f, f', Rd(w), x, x');
    NextFails(sem, w, pc, NOWHERE, p, c, t, e);
  }

  lemma SpIsFar(sp: Word32, p: int)
    requires sp == 0x4000_0000 && p == 0x7FFF_FFF4
    ensures StackApart(sp, p, 8) && p + 12 < CODE_END && Near(p + 8)
  {
  }

  lemma PlainHolds(w: Word32, c: C.Machine)
    requires GetType(w).IGNORED? && Holds(w, c)
    ensures CondHolds(Cond(w), c.flags)
  {
    hide GetType, Cond;
  }

  lemma OverlookIs(w: Word32, pc: Word32, c: C.Machine)
    ensures Overlook(w, pc, c) == Data(Op(w), C.Sp(c), pc, Shift(w), c.flags)
  {
    hide Data, Op, Shift;
  }

  lemma SetsDiffer(c: C.Machine, f: Flags, f': Flags, n: nat, x: Word32, x': Word32)
    requires n < 15 && x != x'
    ensures var t, e := C.SetReg(c.(flags := f), n, x), C.SetReg(c.(flags := f'), n, x');
            e.rest.r != t.rest.r && t.rest.mem == e.rest.mem == c.rest.mem
  {
    assert c.rest.r[n := x][n] == x && c.rest.r[n := x'][n] == x';
  }

  // The condition is exact.

  lemma IndexNotRight(w: Word32)
    requires Known(w) && IsIndexLoad(GetType(w)) && !Right(w)
    ensures LoadsSp(w) || (Rm(w) == 13 && !Discards(Shift(w)))
  {
    IndexShape(w, 0);
    hide Rd, Rm, Rn, Shift, Op, Discards, IndexAccess, Rewrite, Known;
  }

  lemma PcNotRight(w: Word32)
    requires Known(w) && !Right(w) && Borrows(GetType(w)) && !IsData(GetType(w)) && !IsIndexLoad(GetType(w))
    ensures OperandMoves(w) && !Discards(Shift(w)) && (IsDataPc(GetType(w)) || GetType(w).LDR_REG_PC_A1?)
    ensures GetType(w).LDR_REG_PC_A1? ==> Rm(w) == 13
  {
    hide Cond, Op, Rd, Rn, Rm, Shift, Discards;
  }

  /** Only an image that borrows registers can be wrong, or an instruction that was overlooked. */
  lemma WrongBorrows(w: Word32)
    requires !Right(w)
    ensures Borrows(GetType(w)) || (GetType(w).IGNORED? && Overlooked(w) && !Discards(Shift(w)))
  {
    hide GetType, Rd, OperandMoves, Discards, Shift, Overlooked;
  }

  lemma WrongFails(sem: Sem, w: Word32)
    requires Known(w) && !Right(w)
    ensures !ImageIsRight(w)
  {
    hide *;
    WrongBorrows(w);
    if !Borrows(GetType(w)) {
      OverlookedFails(sem, w);
    } else if IsData(GetType(w)) {
      DataFails(sem, w);
    } else if IsIndexLoad(GetType(w)) {
      IndexNotRight(w);
      if LoadsSp(w) {
        IndexToSpFails(sem, w);
      } else {
        IndexOperandFails(sem, w);
      }
    } else {
      PcNotRight(w);
      if IsDataPc(GetType(w)) {
        DataPcFails(sem, w);
      } else {
        IndexPcFails(sem, w);
      }
    }
  }

  /** An image is right, wherever it is placed and in every state, exactly when the condition holds. */
  lemma RightIsExact(w: Word32)
    requires Known(w)
    ensures ImageIsRight(w) <==> Right(w)
  {
    hide Known, Right, Rewrite, StackReady, CodeAt, IsAddrNeedFix, Ends;
    if Right(w) {
      forall sem: Sem, pc: Word32, info: Info, p: Word32, c: C.Machine | Ready(w, pc, info, p, c)
        ensures EndsWell(sem, w, pc, info, p, c)
      {
        var e := ImageMeans(sem, w, pc, info, p, c);
      }
    } else {
      WrongFails((_, c) => Next(c), w);
    }
  }
}
