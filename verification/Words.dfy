/** Machine words as bounded integers, and a byte-addressed little-endian memory.

    Instruction words and bytes are bit vectors; addresses and registers are bounded integers. */
module Words {
  type Byte = b: int | 0 <= b < 0x100
  type Word32 = w: int | 0 <= w < 0x1_0000_0000
  type Word64 = w: int | 0 <= w < 0x1_0000_0000_0000_0000

  // The bytes of an instruction word, lowest first.
  function Byte0(b: bv32): bv8 {
    (b & 0xFF) as bv8
  }

  function Byte1(b: bv32): bv8 {
    ((b >> 8) & 0xFF) as bv8
  }

  function Byte2(b: bv32): bv8 {
    ((b >> 16) & 0xFF) as bv8
  }

  function Byte3(b: bv32): bv8 {
    ((b >> 24) & 0xFF) as bv8
  }

  // A byte by its halves: conversions between integers and bit vectors stay four bits wide.
  type Nibble = n: int | 0 <= n < 0x10

  function Nat4(b: bv4): Nibble {
    b as int
  }

  function Bits4(n: Nibble): bv4 {
    n as bv4
  }

  lemma Nat4Bits4(n: Nibble)
    ensures Nat4(Bits4(n)) == n
  {
  }

  function HighHalf(b: bv8): bv4 {
    (b >> 4) as bv4
  }

  function LowHalf(b: bv8): bv4 {
    (b & 0xF) as bv4
  }

  function Halves(high: bv4, low: bv4): bv8 {
    ((high as bv8) << 4) | (low as bv8)
  }

  lemma HalvesApart(high: bv4, low: bv4)
    ensures HighHalf(Halves(high, low)) == high && LowHalf(Halves(high, low)) == low
  {
  }

  function Nat8(b: bv8): Byte {
    0x10 * Nat4(HighHalf(b)) + Nat4(LowHalf(b))
  }

  function Bits8(n: Byte): bv8 {
    Halves(Bits4(n / 0x10), Bits4(n % 0x10))
  }

  lemma Nat8Bits8(n: Byte)
    ensures Nat8(Bits8(n)) == n
  {
    hide Nat4, Bits4, Halves, HighHalf, LowHalf;
    HalvesApart(Bits4(n / 0x10), Bits4(n % 0x10));
    Nat4Bits4(n / 0x10);
    Nat4Bits4(n % 0x10);
  }

  function Value(b0: Byte, b1: Byte, b2: Byte, b3: Byte): Word32 {
    b0 + 0x100 * b1 + 0x1_0000 * b2 + 0x100_0000 * b3
  }

  /** An instruction word as it is stored in memory. */
  function Word(b: bv32): Word32 {
    Value(Nat8(Byte0(b)), Nat8(Byte1(b)), Nat8(Byte2(b)), Nat8(Byte3(b)))
  }

  function Join(b0: bv8, b1: bv8, b2: bv8, b3: bv8): bv32 {
    (b0 as bv32) | ((b1 as bv32) << 8) | ((b2 as bv32) << 16) | ((b3 as bv32) << 24)
  }

  /** The bits of a stored word. */
  function Bits(n: Word32): bv32 {
    Join(Bits8(n % 0x100), Bits8(n / 0x100 % 0x100), Bits8(n / 0x1_0000 % 0x100), Bits8(n / 0x100_0000))
  }

  lemma JoinedBytes(b0: bv8, b1: bv8, b2: bv8, b3: bv8)
    ensures var b := Join(b0, b1, b2, b3); Byte0(b) == b0 && Byte1(b) == b1 && Byte2(b) == b2 && Byte3(b) == b3
  {
  }

  lemma JoinOfBytes(b: bv32)
    ensures Join(Byte0(b), Byte1(b), Byte2(b), Byte3(b)) == b
  {
  }

  lemma Digits(n: Word32)
    ensures Value(n % 0x100, n / 0x100 % 0x100, n / 0x1_0000 % 0x100, n / 0x100_0000) == n
  {
    var q := n / 0x100;
    assert n == 0x100 * q + n % 0x100;
    assert n / 0x1_0000 == q / 0x100 && n / 0x100_0000 == q / 0x100 / 0x100;
  }

  lemma WordOfBits(n: Word32)
    ensures Word(Bits(n)) == n
  {
    hide Join, Byte0, Byte1, Byte2, Byte3, Bits8, Nat8;
    JoinedBytes(Bits8(n % 0x100), Bits8(n / 0x100 % 0x100), Bits8(n / 0x1_0000 % 0x100), Bits8(n / 0x100_0000));
    Digits(n);
    Nat8Bits8(n % 0x100);
    Nat8Bits8(n / 0x100 % 0x100);
    Nat8Bits8(n / 0x1_0000 % 0x100);
    Nat8Bits8(n / 0x100_0000);
  }

  lemma ZeroByte()
    ensures Nat8(0) == 0
  {
  }

  lemma SmallWord(b: bv32, low: bv4)
    requires b == low as bv32
    ensures Word(b) == Nat4(low)
  {
    hide Nat8, Nat4;
    assert Byte0(b) == Halves(0, low) && Byte1(b) == 0 && Byte2(b) == 0 && Byte3(b) == 0;
    ZeroByte();
    SmallByte(low);
  }

  lemma SmallByte(low: bv4)
    ensures Nat8(Halves(0, low)) == Nat4(low)
  {
    HalvesApart(0, low);
  }

  // Immediate fields that the A64 decoder and the rewriter share.
  function Imm26(w: bv32): nat {
    Word(w & 0x03FF_FFFF)
  }

  function Imm19(w: bv32): nat {
    ((w >> 5) & 0x7_FFFF) as nat
  }

  function Imm14(w: bv32): nat {
    ((w >> 5) & 0x3FFF) as nat
  }

  function ImmLo(w: bv32): nat {
    ((w >> 29) & 3) as nat
  }

  /** uintptr_t arithmetic on a 64-bit target. */
  function Wrap64(x: int): Word64 {
    x % 0x1_0000_0000_0000_0000
  }

  /** uintptr_t arithmetic on a 32-bit target. */
  function Wrap32(x: int): Word32 {
    x % 0x1_0000_0000
  }

  function Align4(x: Word32): Word32 {
    x / 4 * 4
  }

  function SetBit0(x: Word32): Word32 {
    x / 2 * 2 + 1
  }

  /** A register list with one register. */
  function RegBit(k: nat): nat
    requires k < 8
  {
    [1, 2, 4, 8, 16, 32, 64, 128][k]
  }

  /** The highest of R`from`, ..., R0 that is not in use. */
  function Spare(used: set<nat>, from: nat): (r: nat)
    ensures r <= from
  {
    if from == 0 || from !in used then from else Spare(used, from - 1)
  }

  lemma {:induction false} Few(used: set<nat>, from: nat)
    requires |used| <= from
    ensures exists r: nat :: r <= from && r !in used
  {
    if from in used && from > 0 {
      Few(used - {from}, from - 1);
      var r: nat :| r <= from - 1 && r !in used - {from};
    } else if from == 0 {
      assert used == {};
    }
  }

  lemma SpareIsFree(used: set<nat>, from: nat)
    requires exists r: nat :: r <= from && r !in used
    ensures Spare(used, from) !in used
  {
  }

  /** Two's complement reading of an unsigned field whose modulus is `full`. */
  function SignExtend(x: int, full: int): int {
    if x + x >= full then x - full else x
  }

  /** Bit k of a natural number. */
  predicate TestBit(x: nat, k: nat) {
    if k == 0 then x % 2 == 1 else TestBit(x / 2, k - 1)
  }

  // Bytes that were never written read as zero.
  type Memory = map<int, bv8>

  function ByteAt(m: Memory, a: int): bv8 {
    if a in m then m[a] else 0
  }

  /** The little-endian word at an address. */
  function Fetch32(m: Memory, a: int): bv32 {
    Join(ByteAt(m, a), ByteAt(m, a + 1), ByteAt(m, a + 2), ByteAt(m, a + 3))
  }

  function Load32(m: Memory, a: int): Word32 {
    Word(Fetch32(m, a))
  }

  function Load64(m: Memory, a: int): Word64 {
    Load32(m, a) + 0x1_0000_0000 * Load32(m, a + 4)
  }

  function Put32(m: Memory, a: int, w: bv32): Memory {
    m[a := Byte0(w)][a + 1 := Byte1(w)][a + 2 := Byte2(w)][a + 3 := Byte3(w)]
  }

  function Low32(v: Word64): bv32 {
    Bits(v % 0x1_0000_0000)
  }

  function High32(v: Word64): bv32 {
    Bits(v / 0x1_0000_0000)
  }

  function Store64(m: Memory, a: int, v: Word64): Memory {
    Put32(Put32(m, a, Low32(v)), a + 4, High32(v))
  }

  lemma Fetch32Put32(m: Memory, a: int, w: bv32)
    ensures Fetch32(Put32(m, a, w), a) == w
  {
    hide Join, Byte0, Byte1, Byte2, Byte3;
    JoinOfBytes(w);
  }

  lemma Put32Frame(m: Memory, a: int, w: bv32, b: int)
    requires b < a || a + 4 <= b
    ensures ByteAt(Put32(m, a, w), b) == ByteAt(m, b)
  {
  }

  /** A pair of words is the 64-bit value it was cut from. */
  lemma PairIsValue(m: Memory, a: int, v: Word64)
    requires Fetch32(m, a) == Low32(v) && Fetch32(m, a + 4) == High32(v)
    ensures Load64(m, a) == v
  {
    hide Word, Bits, Fetch32;
    WordOfBits(v % 0x1_0000_0000);
    WordOfBits(v / 0x1_0000_0000);
  }

  lemma Load64Store64(m: Memory, a: int, v: Word64)
    ensures Load64(Store64(m, a, v), a) == v
  {
    hide Join, Byte0, Byte1, Byte2, Byte3, Low32, High32, Load64;
    var low := Put32(m, a, Low32(v));
    Fetch32Put32(m, a, Low32(v));
    Fetch32Put32(low, a + 4, High32(v));
    assert Fetch32(Store64(m, a, v), a) == Fetch32(low, a);
    PairIsValue(Store64(m, a, v), a, v);
  }

  lemma Store64Frame(m: Memory, a: int, v: Word64, b: int)
    requires b < a || a + 8 <= b
    ensures ByteAt(Store64(m, a, v), b) == ByteAt(m, b)
  {
    hide Low32, High32, Put32;
    Put32Frame(m, a, Low32(v), b);
    Put32Frame(Put32(m, a, Low32(v)), a + 4, High32(v), b);
  }

  /** A store makes the bytes that it covers the same. */
  lemma StoredByte(m: Memory, m': Memory, a: int, v: Word64, b: int)
    ensures a <= b < a + 8 || ByteAt(m, b) == ByteAt(m', b) ==> ByteAt(Store64(m, a, v), b) == ByteAt(Store64(m', a, v), b)
    ensures b < a || a + 8 <= b ==> ByteAt(Store64(m', a, v), b) == ByteAt(m', b)
  {
    hide Low32, High32, Put32;
    PutByte(m, m', a, Low32(v), b);
    PutByte(Put32(m, a, Low32(v)), Put32(m', a, Low32(v)), a + 4, High32(v), b);
  }

  lemma PutByte(m: Memory, m': Memory, a: int, w: bv32, b: int)
    ensures a <= b < a + 4 || ByteAt(m, b) == ByteAt(m', b) ==> ByteAt(Put32(m, a, w), b) == ByteAt(Put32(m', a, w), b)
    ensures b < a || a + 4 <= b ==> ByteAt(Put32(m', a, w), b) == ByteAt(m', b)
  {
  }

  /** The addresses [base, base + count). */
  ghost function Span(base: int, count: nat): (s: set<int>)
    ensures forall a :: a in s <==> base <= a < base + count
  {
    if count == 0 then {} else Span(base, count - 1) + {base + count - 1}
  }
}
