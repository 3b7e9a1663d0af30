/** Bit masks on natural numbers. */
module Masks {
  function And(a: nat, b: nat): (r: nat)
    ensures r <= a && r <= b
  {
    if a == 0 || b == 0 then 0 else 2 * And(a / 2, b / 2) + if a % 2 == 1 && b % 2 == 1 then 1 else 0
  }

  lemma AndEven(a: nat, b: nat)
    ensures And(a, 2 * b) == 2 * And(a / 2, b)
  {
    assert 2 * b / 2 == b && 2 * b % 2 == 0;
  }

  lemma AndBy16(a: nat, b: nat)
    ensures And(a, 16 * b) == 16 * And(a / 16, b)
  {
    hide And;
    AndEven(a, 8 * b);
    AndEven(a / 2, 4 * b);
    AndEven(a / 2 / 2, 2 * b);
    AndEven(a / 2 / 2 / 2, b);
    assert a / 2 / 2 / 2 / 2 == a / 16;
  }

  lemma AndOdd(x: nat, b: nat)
    requires b % 2 == 1
    ensures And(x, b) == 2 * And(x / 2, b / 2) + x % 2
  {
  }

  lemma AndLow3(x: nat, b: nat)
    ensures And(x, 8 * b + 7) == 8 * And(x / 8, b) + x % 8
    ensures And(x, 8 * b) == 8 * And(x / 8, b)
  {
    hide And;
    AndOdd(x, 8 * b + 7);
    AndOdd(x / 2, 4 * b + 3);
    AndOdd(x / 2 / 2, 2 * b + 1);
    AndEven(x, 4 * b);
    AndEven(x / 2, 2 * b);
    AndEven(x / 2 / 2, b);
    assert x / 2 / 2 / 2 == x / 8;
  }

  lemma AndLow4More(x: nat, b: nat)
    ensures And(x, 16 * b + 15) == 16 * And(x / 16, b) + x % 16
  {
    hide And;
    AndLow3(x, 2 * b + 1);
    AndOdd(x / 8, 2 * b + 1);
    assert x / 8 / 2 == x / 16 && x % 16 == x / 8 % 2 * 8 + x % 8;
  }

  lemma AndLow4(x: nat)
    ensures And(x, 0xF) == x % 16
  {
    hide And;
    AndOdd(x, 15);
    AndOdd(x / 2, 7);
    AndOdd(x / 2 / 2, 3);
    AndOdd(x / 2 / 2 / 2, 1);
    NoBits(x / 2 / 2 / 2 / 2);
  }

  lemma NoBits(x: nat)
    ensures And(x, 0) == 0
  {
  }

  lemma AndDigit2(x: nat)
    ensures And(x, 0xF00) == x / 0x100 % 0x10 * 0x100
  {
    hide And;
    AndBy16(x, 0xF0);
    AndBy16(x / 16, 0xF);
    AndLow4(x / 16 / 16);
    assert x / 16 / 16 == x / 0x100;
  }

  lemma AndDigit3(x: nat)
    ensures And(x, 0xF000) == x / 0x1000 % 0x10 * 0x1000
  {
    hide And;
    AndBy16(x, 0xF00);
    AndDigit2(x / 16);
    assert x / 16 / 0x100 == x / 0x1000;
  }

  lemma AndHigh(x: nat, b: nat)
    ensures And(x, 0x1_0000 * b) == 0x1_0000 * And(x / 0x1_0000, b)
  {
    hide And;
    AndBy16(x, 0x1000 * b);
    AndBy16(x / 16, 0x100 * b);
    AndBy16(x / 16 / 16, 0x10 * b);
    AndBy16(x / 16 / 16 / 16, b);
    assert x / 16 / 16 / 16 / 16 == x / 0x1_0000;
  }
}
