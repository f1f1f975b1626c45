/** The two variants of bech32 differ in the constant that a valid register ends with.
    Within the length of a segwit address, no single wrong symbol makes up for that
    difference: the registers that would need it are traced back, step by step, and none
    of them is a symbol. */
module VariantGap {
  import opened Bytes
  import P = Polymod

  const STEPS: nat := 72

  /** The register that `k` steps over zeros take to the difference of the constants. */
  function Back(k: nat): P.Word {
    if k < 8 then Back0(k)
    else if k < 16 then Back8(k)
    else if k < 24 then Back16(k)
    else if k < 32 then Back24(k)
    else if k < 40 then Back32(k)
    else if k < 48 then Back40(k)
    else if k < 56 then Back48(k)
    else if k < 64 then Back56(k)
    else if k < 72 then Back64(k)
    else 0x27b4_e54e
  }

  function Back0(k: nat): P.Word {
    match k
    case 0 => 0x2bc8_30a2
    case 1 => 0x165d_86d5
    case 2 => 0x1a76_a7da
    case 3 => 0x0826_bdf1
    case 4 => 0x3612_51aa
    case 5 => 0x1d9d_0faf
    case 6 => 0x12dd_ab5e
    case 7 => 0x24f4_ca3c
    case _ => 0
  }

  function Back8(k: nat): P.Word {
    match k
    case 8 => 0x3246_4667
    case 9 => 0x188d_2b62
    case 10 => 0x17c7_ae0b
    case 11 => 0x3e18_51fa
    case 12 => 0x0905_ca40
    case 13 => 0x0048_2e52
    case 14 => 0x03d9_13cf
    case 15 => 0x122f_8bbd
    case _ => 0
  }

  function Back16(k: nat): P.Word {
    match k
    case 16 => 0x117b_6dc3
    case 17 => 0x3503_ed96
    case 18 => 0x2ee4_6278
    case 19 => 0x1e81_ec8c
    case 20 => 0x274d_7abf
    case 21 => 0x07d3_bd1b
    case 22 => 0x2a40_648f
    case 23 => 0x1363_4007
    case _ => 0
  }

  function Back24(k: nat): P.Word {
    match k
    case 24 => 0x1984_0351
    case 25 => 0x369f_445f
    case 26 => 0x075d_2cec
    case 27 => 0x2783_9cbc
    case 28 => 0x325d_fcd3
    case 29 => 0x20c2_4cf3
    case 30 => 0x2056_b172
    case 31 => 0x02d9_e736
    case _ => 0
  }

  function Back32(k: nat): P.Word {
    match k
    case 32 => 0x2f5a_b22d
    case 33 => 0x0448_51e2
    case 34 => 0x1721_85df
    case 35 => 0x0650_dae0
    case 36 => 0x0032_86d7
    case 37 => 0x0dc6_188a
    case 38 => 0x1c43_ade6
    case 39 => 0x3b76_f596
    case _ => 0
  }

  function Back40(k: nat): P.Word {
    match k
    case 40 => 0x2e97_cab8
    case 41 => 0x1e82_71ca
    case 42 => 0x1cd9_8eac
    case 43 => 0x275f_b9ae
    case 44 => 0x3180_4f46
    case 45 => 0x3a18_ea83
    case 46 => 0x3458_f1ac
    case 47 => 0x261b_b256
    case _ => 0
  }

  function Back48(k: nat): P.Word {
    match k
    case 48 => 0x2e7c_a086
    case 49 => 0x3ae7_0dfd
    case 50 => 0x103d_29f1
    case 51 => 0x36d2_8d0a
    case 52 => 0x1d9b_094a
    case 53 => 0x1cc1_4568
    case 54 => 0x0bc8_5059
    case 55 => 0x3d23_7cb5
    case _ => 0
  }

  function Back56(k: nat): P.Word {
    match k
    case 56 => 0x1b2d_5009
    case 57 => 0x297c_c15a
    case 58 => 0x09be_eec5
    case 59 => 0x0e51_2977
    case 60 => 0x0db5_05f7
    case 61 => 0x0daa_2493
    case 62 => 0x213d_f231
    case 63 => 0x375a_8bd4
    case _ => 0
  }

  function Back64(k: nat): P.Word {
    match k
    case 64 => 0x39f5_6e1a
    case 65 => 0x093a_a3bf
    case 66 => 0x06a0_03d3
    case 67 => 0x2165_a30b
    case 68 => 0x3fad_4192
    case 69 => 0x0226_38b1
    case 70 => 0x3642_5580
    case 71 => 0x01b2_12ac
    case _ => 0
  }

  /** One step over a zero leads from the register traced back to the one before it, and it
      is no symbol. */
  ghost predicate Traced(k: nat) {
    && P.Step(P.Bech32, Back(k + 1), 0) == Back(k)
    && P.InRegister(P.Bech32, Back(k)) && !P.Fits(Back(k), 1)
  }

  lemma {:induction false} Traced0()
    ensures Traced(0) && Traced(1) && Traced(2) && Traced(3)
  {
    hide Back8, Back16, Back24, Back32, Back40, Back48, Back56, Back64;
  }

  lemma {:induction false} Traced4()
    ensures Traced(4) && Traced(5) && Traced(6) && Traced(7)
  {
    hide Back16, Back24, Back32, Back40, Back48, Back56, Back64;
  }

  lemma {:induction false} Traced8()
    ensures Traced(8) && Traced(9) && Traced(10) && Traced(11)
  {
    hide Back0, Back16, Back24, Back32, Back40, Back48, Back56, Back64;
  }

  lemma {:induction false} Traced12()
    ensures Traced(12) && Traced(13) && Traced(14) && Traced(15)
  {
    hide Back0, Back24, Back32, Back40, Back48, Back56, Back64;
  }

  lemma {:induction false} Traced16()
    ensures Traced(16) && Traced(17) && Traced(18) && Traced(19)
  {
    hide Back0, Back8, Back24, Back32, Back40, Back48, Back56, Back64;
  }

  lemma {:induction false} Traced20()
    ensures Traced(20) && Traced(21) && Traced(22) && Traced(23)
  {
    hide Back0, Back8, Back32, Back40, Back48, Back56, Back64;
  }

  lemma {:induction false} Traced24()
    ensures Traced(24) && Traced(25) && Traced(26) && Traced(27)
  {
    hide Back0, Back8, Back16, Back32, Back40, Back48, Back56, Back64;
  }

  lemma {:induction false} Traced28()
    ensures Traced(28) && Traced(29) && Traced(30) && Traced(31)
  {
    hide Back0, Back8, Back16, Back40, Back48, Back56, Back64;
  }

  lemma {:induction false} Traced32()
    ensures Traced(32) && Traced(33) && Traced(34) && Traced(35)
  {
    hide Back0, Back8, Back16, Back24, Back40, Back48, Back56, Back64;
  }

  lemma {:induction false} Traced36()
    ensures Traced(36) && Traced(37) && Traced(38) && Traced(39)
  {
    hide Back0, Back8, Back16, Back24, Back48, Back56, Back64;
  }

  lemma {:induction false} Traced40()
    ensures Traced(40) && Traced(41) && Traced(42) && Traced(43)
  {
    hide Back0, Back8, Back16, Back24, Back32, Back48, Back56, Back64;
  }

  lemma {:induction false} Traced44()
    ensures Traced(44) && Traced(45) && Traced(46) && Traced(47)
  {
    hide Back0, Back8, Back16, Back24, Back32, Back56, Back64;
  }

  lemma {:induction false} Traced48()
    ensures Traced(48) && Traced(49) && Traced(50) && Traced(51)
  {
    hide Back0, Back8, Back16, Back24, Back32, Back40, Back56, Back64;
  }

  lemma {:induction false} Traced52()
    ensures Traced(52) && Traced(53) && Traced(54) && Traced(55)
  {
    hide Back0, Back8, Back16, Back24, Back32, Back40, Back64;
  }

  lemma {:induction false} Traced56()
    ensures Traced(56) && Traced(57) && Traced(58) && Traced(59)
  {
    hide Back0, Back8, Back16, Back24, Back32, Back40, Back48, Back64;
  }

  lemma {:induction false} Traced60()
    ensures Traced(60) && Traced(61) && Traced(62) && Traced(63)
  {
    hide Back0, Back8, Back16, Back24, Back32, Back40, Back48;
  }

  lemma {:induction false} Traced64()
    ensures Traced(64) && Traced(65) && Traced(66) && Traced(67)
  {
    hide Back0, Back8, Back16, Back24, Back32, Back40, Back48, Back56;
  }

  lemma {:induction false} Traced68()
    ensures Traced(68) && Traced(69) && Traced(70) && Traced(71)
  {
    hide Back0, Back8, Back16, Back24, Back32, Back40, Back48, Back56;
  }

  lemma {:induction false} TracedFrom0(k: nat)
    requires 0 <= k < 8
    ensures Traced(k)
  {
    hide *;
    Traced0();
    Traced4();
  }

  lemma {:induction false} TracedFrom8(k: nat)
    requires 8 <= k < 16
    ensures Traced(k)
  {
    hide *;
    Traced8();
    Traced12();
  }

  lemma {:induction false} TracedFrom16(k: nat)
    requires 16 <= k < 24
    ensures Traced(k)
  {
    hide *;
    Traced16();
    Traced20();
  }

  lemma {:induction false} TracedFrom24(k: nat)
    requires 24 <= k < 32
    ensures Traced(k)
  {
    hide *;
    Traced24();
    Traced28();
  }

  lemma {:induction false} TracedFrom32(k: nat)
    requires 32 <= k < 40
    ensures Traced(k)
  {
    hide *;
    Traced32();
    Traced36();
  }

  lemma {:induction false} TracedFrom40(k: nat)
    requires 40 <= k < 48
    ensures Traced(k)
  {
    hide *;
    Traced40();
    Traced44();
  }

  lemma {:induction false} TracedFrom48(k: nat)
    requires 48 <= k < 56
    ensures Traced(k)
  {
    hide *;
    Traced48();
    Traced52();
  }

  lemma {:induction false} TracedFrom56(k: nat)
    requires 56 <= k < 64
    ensures Traced(k)
  {
    hide *;
    Traced56();
    Traced60();
  }

  lemma {:induction false} TracedFrom64(k: nat)
    requires 64 <= k < 72
    ensures Traced(k)
  {
    hide *;
    Traced64();
    Traced68();
  }

  lemma {:induction false} AllTraced(k: nat)
    requires k < STEPS
    ensures Traced(k)
  {
    hide Traced, Back;
    if k < 8 {
      TracedFrom0(k);
    } else if k < 16 {
      TracedFrom8(k);
    } else if k < 24 {
      TracedFrom16(k);
    } else if k < 32 {
      TracedFrom24(k);
    } else if k < 40 {
      TracedFrom32(k);
    } else if k < 48 {
      TracedFrom40(k);
    } else if k < 56 {
      TracedFrom48(k);
    } else if k < 64 {
      TracedFrom56(k);
    } else {
      TracedFrom64(k);
    }
  }

  lemma {:induction false} NoSymbol(k: nat)
    requires k <= STEPS
    ensures P.InRegister(P.Bech32, Back(k)) && !P.Fits(Back(k), 1)
  {
    if k < STEPS {
      hide Back;
      AllTraced(k);
    }
  }

  /** Nothing else is taken there. */
  lemma {:induction false} OnlyBack(x: P.Word, n: nat, j: nat)
    requires P.InRegister(P.Bech32, x) && n + j <= STEPS && P.Feed(P.Bech32, x, P.Blank(n)) == Back(j)
    ensures x == Back(j + n)
    decreases n
  {
    hide P.Step, P.Feed, P.InRegister, P.Fits, Back;
    if n == 0 {
      FeedNone(x);
    } else {
      var y := P.Feed(P.Bech32, x, P.Blank(n - 1));
      FeedZero(x, n - 1);
      P.FeedStays(P.Bech32, x, P.Blank(n - 1));
      AllTraced(j);
      NoSymbol(j + 1);
      P.StepSeparates(P.Bech32, y, Back(j + 1), 0);
      OnlyBack(x, n - 1, j + 1);
    }
  }

  lemma {:induction false} FeedNone(x: P.Word)
    ensures P.Feed(P.Bech32, x, P.Blank(0)) == x
  {
  }

  lemma {:induction false} FeedZero(x: P.Word, n: nat)
    ensures P.Feed(P.Bech32, x, P.Blank(n + 1)) == P.Step(P.Bech32, P.Feed(P.Bech32, x, P.Blank(n)), 0)
  {
    hide P.Step, P.Feed, P.Sym;
    assert P.Blank(n + 1) == P.Blank(n) + [0];
    P.FeedOne(P.Bech32, x, P.Blank(n), 0);
    P.NoSym();
  }

  /** The difference of two registers goes on as a register fed zeros. */
  lemma {:induction false} DifferenceGoesOn(a: P.Word, b: P.Word, vals: seq<byte>)
    requires P.FiveBit(vals)
    ensures P.Add(P.Feed(P.Bech32, a, vals), P.Feed(P.Bech32, b, vals)) == P.Feed(P.Bech32, P.Add(a, b), P.Blank(|vals|))
  {
    hide P.Step, P.Add, P.Sym;
    if vals == [] {
      FeedNone(P.Add(a, b));
    } else {
      var front, v := vals[..|vals| - 1], P.Sym(vals[|vals| - 1]);
      DifferenceGoesOn(a, b, front);
      P.StepAdds(P.Bech32, P.Feed(P.Bech32, a, front), P.Feed(P.Bech32, b, front), v, v);
      P.AddZero(v);
      FeedZero(P.Add(a, b), |front|);
    }
  }

  lemma {:induction false} StepsDiffer(c: P.Word, v: byte, w: byte)
    requires v < 32 && w < 32
    ensures P.Add(P.Step(P.Bech32, c, P.Sym(v)), P.Step(P.Bech32, c, P.Sym(w))) == P.Add(P.Sym(v), P.Sym(w))
    ensures P.Fits(P.Add(P.Sym(v), P.Sym(w)), 1) && P.InRegister(P.Bech32, P.Add(P.Sym(v), P.Sym(w)))
  {
    hide P.Step, P.Sym, P.Add;
    var r := P.Step(P.Bech32, c, 0);
    P.StepSplits(P.Bech32, c, P.Sym(v));
    P.StepSplits(P.Bech32, c, P.Sym(w));
    P.AddPairs(r, P.Sym(v), r, P.Sym(w));
    P.AddZero(r);
    P.AddZero(P.Add(P.Sym(v), P.Sym(w)));
    SmallStays(P.Sym(v), P.Sym(w));
  }

  lemma {:induction false} SmallStays(a: P.Word, b: P.Word)
    requires a < 32 && b < 32
    ensures P.Fits(P.Add(a, b), 1) && P.InRegister(P.Bech32, P.Add(a, b))
  {
  }

  /** One symbol replaced by any other does not cross from one variant to the other, with
      up to 72 symbols after it. */
  lemma {:induction false} SubstitutionStays(c: P.Word, before: seq<byte>, v: byte, w: byte, after: seq<byte>)
    requires P.FiveBit(before) && P.FiveBit(after) && v < 32 && w < 32 && |after| <= STEPS
    ensures P.Add(P.Feed(P.Bech32, c, before + [v] + after), P.Feed(P.Bech32, c, before + [w] + after)) != Back(0)
  {
    hide P.Step, P.Sym, P.Add, P.Feed, P.Fits, P.InRegister, Back;
    var r := P.Feed(P.Bech32, c, before);
    P.FeedOne(P.Bech32, c, before, v);
    P.FeedOne(P.Bech32, c, before, w);
    P.FeedAppend(P.Bech32, c, before + [v], after);
    P.FeedAppend(P.Bech32, c, before + [w], after);
    StepsDiffer(r, v, w);
    DifferenceGoesOn(P.Step(P.Bech32, r, P.Sym(v)), P.Step(P.Bech32, r, P.Sym(w)), after);
    var d := P.Add(P.Sym(v), P.Sym(w));
    NoSymbol(|after|);
    if P.Feed(P.Bech32, d, P.Blank(|after|)) == Back(0) {
      OnlyBack(d, |after|, 0);
    }
  }
}
