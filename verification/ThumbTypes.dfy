/** What the masks of sh_t16_get_type and sh_t32_get_type say about the fields of an instruction. */
module ThumbTypes {
  import opened Words
  import opened Masks
  import opened ThumbRewrite
  import opened ThumbCpu

  lemma B16Fields(h: Half)
    requires T16TypeOf(h).B_T1?
    ensures h / 0x100 % 0x10 < 14 && h / 0x100 * 0x100 == 0xD000 + h / 0x100 % 0x10 * 0x100
  {
    hide And;
    AndDigit2(h);
    AndDigit3(h);
    assert h / 0x1000 % 0x10 == h / 0x1000;
  }

  lemma CbFields(h: Half)
    requires T16TypeOf(h).CBZ_T1? || T16TypeOf(h).CBNZ_T1?
    ensures And(h, 0xFD07) == (if T16TypeOf(h).CBZ_T1? then 0xB100 else 0xB900) + h % 8
  {
    hide And;
    AndLow3(h, 0x1FA0);
  }

  lemma AddFields(h: Half)
    requires T16TypeOf(h).ADD_REG_T2?
    ensures And(h, 0xFF87) == 0x4400 + h / 0x80 % 2 * 0x80 + h % 8
  {
    hide And;
    assert And(h, 0xFF78) == 0x4478;
    hide T16TypeOf;
    AndLow3(h, 0x1FEF);
    AndLow4More(h / 8, 0x1FE);
    AndEven(h / 8 / 16, 0xFF);
    AndLow3(h, 0x1FF0);
    AndBy16(h / 8, 0x1FF);
    AndOdd(h / 8 / 16, 0x1FF);
    assert h / 8 / 16 == h / 0x80;
  }

  lemma AddIsNotToSp(h: Half)
    requires T16TypeOf(h).ADD_REG_T2?
    ensures h / 0x80 % 2 * 8 + h % 8 != 13
  {
    hide And;
    assert And(h, 0x87) != 0x85;
    hide T16TypeOf;
    AndLow3(h, 0x10);
    AndBy16(h / 8, 1);
    AndOdd(h / 8 / 16, 1);
    NoBits(h / 8 / 16 / 2);
    assert h / 8 / 16 == h / 0x80;
  }

  lemma MaskInHigh(high: Half, low: Half)
    ensures And(high * 0x1_0000 + low, 0x0380_0000) == high / 0x80 % 8 * 0x80_0000
  {
    hide And;
    var inst := high * 0x1_0000 + low;
    AndHigh(inst, 0x380);
    AndBy16(high, 0x38);
    AndLow3(high / 16, 7);
    AndLow3(high / 16 / 8, 0);
    NoBits(high / 16 / 8 / 8);
    assert inst / 0x1_0000 == high && high / 16 / 8 == high / 0x80;
  }

  lemma B32Fields(high: Half, low: Half)
    requires T32TypeOf(high, low).B_T3?
    ensures high / 0x40 % 0x10 < 14
  {
    hide And;
    MaskInHigh(high, low);
    assert high / 0x80 % 8 != 7;
    hide T32TypeOf;
    CondTop(high / 0x40);
  }

  lemma CondTop(q: nat)
    ensures q % 0x10 < 14 <==> q / 2 % 8 != 7
  {
  }
}
