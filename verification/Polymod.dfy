/** The checksum registers of src/bech32.rs: bech32's, of 30 bits, and CashAddr's, of
    40, each in the low bits of a wider word. Both are linear codes over GF(2), which
    is all that is used of them. */
module Polymod {
  import opened Bytes

  /** A register. The bits of the source's words above these stay clear. */
  type Word = bv40

  datatype Code = Bech32 | CashAddr

  /** The number of checksum symbols. */
  function Symbols(code: Code): nat {
    if code.Bech32? then 6 else 8
  }

  /** Addition in GF(2): exclusive or. */
  function Add(a: Word, b: Word): Word {
    a ^ b
  }

  function Pick(yes: bool, g: Word): Word {
    if yes then g else 0
  }

  predicate Bit(w: Word, mask: Word) {
    w & mask != 0
  }

  /** What the bits of the top symbol add. */
  function Feedback(b: Word, g1: Word, g2: Word, g3: Word, g4: Word, g5: Word): Word {
    Add(Add(Add(Add(Pick(Bit(b, 1), g1), Pick(Bit(b, 2), g2)), Pick(Bit(b, 4), g3)), Pick(Bit(b, 8), g4)),
        Pick(Bit(b, 16), g5))
  }

  /** The bits below the top symbol, one symbol up. */
  function Up(code: Code, c: Word): Word {
    match code
    case Bech32 => (c & 0x1ff_ffff) << 5
    case CashAddr => (c & 0x07_ffff_ffff) << 5
  }

  function Top(code: Code, c: Word): Word {
    match code
    case Bech32 => Feedback(c >> 25, 0x3b6a_57b2, 0x2650_8e6d, 0x1ea1_19fa, 0x3d42_33dd, 0x2a14_62b3)
    case CashAddr =>
      Feedback(c >> 35, 0x98_f2bc_8e61, 0x79_b76d_99e2, 0xf3_3e5f_b3c4, 0xae_2eab_e2a8, 0x1e_4f43_e470)
  }

  /** `bech32_polymod_step`, `cashaddr_polymod_step`. */
  function Step(code: Code, c: Word, v: Word): Word {
    Add(Add(Up(code, c), v), Top(code, c))
  }

  /** What fits `k` symbols. */
  function Limit(k: nat): (w: Word)
    requires k < 8
  {
    match k
    case 0 => 1
    case 1 => 0x20
    case 2 => 0x400
    case 3 => 0x8000
    case 4 => 0x10_0000
    case 5 => 0x200_0000
    case 6 => 0x4000_0000
    case 7 => 0x8_0000_0000
  }

  ghost predicate Fits(w: Word, k: nat)
    requires k < 8
  {
    w < Limit(k)
  }

  function Raise(w: Word): Word {
    w << 5
  }

  function Drop(w: Word): Word {
    w >> 5
  }

  ghost predicate InRegister(code: Code, c: Word) {
    code.Bech32? ==> Fits(c, 6)
  }

  /** A symbol, of five bits, as a word. */
  function Sym(v: byte): (w: Word)
    requires v < 32
    ensures w < 32
  {
    FromBits5(v / 16 % 2 == 1, v / 8 % 2 == 1, v / 4 % 2 == 1, v / 2 % 2 == 1, v % 2 == 1)
  }

  function FromBits5(p: bool, q: bool, r: bool, s: bool, t: bool): (w: Word)
    ensures w < 32
  {
    Pick(p, 16) | Pick(q, 8) | Pick(r, 4) | Pick(s, 2) | Pick(t, 1)
  }

  /** And back. */
  function Unsym(w: Word): (v: byte)
    ensures v < 32
  {
    FromDigits5(Bit(w, 16), Bit(w, 8), Bit(w, 4), Bit(w, 2), Bit(w, 1))
  }

  function FromDigits5(p: bool, q: bool, r: bool, s: bool, t: bool): (v: byte)
    ensures v < 32
  {
    (if p then 16 else 0) + (if q then 8 else 0) + (if r then 4 else 0) + (if s then 2 else 0) + if t then 1 else 0
  }

  lemma {:induction false} Bits5(p: bool, q: bool, r: bool, s: bool, t: bool)
    ensures var w := FromBits5(p, q, r, s, t);
            p == (Bit(w, 16)) && q == (Bit(w, 8)) && r == (Bit(w, 4)) && s == (Bit(w, 2)) && t == (Bit(w, 1))
  {
  }

  lemma {:induction false} Digits5(p: bool, q: bool, r: bool, s: bool, t: bool)
    ensures var v := FromDigits5(p, q, r, s, t);
            p == (v / 16 % 2 == 1) && q == (v / 8 % 2 == 1) && r == (v / 4 % 2 == 1) && s == (v / 2 % 2 == 1) && t == (v % 2 == 1)
  {
  }

  lemma {:induction false} LowBits(w: Word)
    ensures w & 31 == FromBits5(Bit(w, 16), Bit(w, 8), Bit(w, 4), Bit(w, 2), Bit(w, 1))
  {
  }

  lemma {:induction false} LowDigits(v: byte)
    requires v < 32
    ensures v == FromDigits5(v / 16 % 2 == 1, v / 8 % 2 == 1, v / 4 % 2 == 1, v / 2 % 2 == 1, v % 2 == 1)
  {
  }

  lemma {:induction false} UnsymOfSym(v: byte)
    requires v < 32
    ensures Unsym(Sym(v)) == v
  {
    hide FromBits5, FromDigits5;
    Bits5(v / 16 % 2 == 1, v / 8 % 2 == 1, v / 4 % 2 == 1, v / 2 % 2 == 1, v % 2 == 1);
    LowDigits(v);
  }

  lemma {:induction false} SymOfUnsym(w: Word)
    ensures Sym(Unsym(w)) == w & 31
  {
    hide FromBits5, FromDigits5;
    Digits5(Bit(w, 16), Bit(w, 8), Bit(w, 4), Bit(w, 2), Bit(w, 1));
    LowBits(w);
  }

  // ----- the step is linear and invertible -----

  lemma {:induction false} AddAssoc(a: Word, b: Word, c: Word)
    ensures Add(Add(a, b), c) == Add(a, Add(b, c))
  {
  }

  lemma {:induction false} AddComm(a: Word, b: Word)
    ensures Add(a, b) == Add(b, a)
  {
  }

  lemma {:induction false} AddPairs(a: Word, b: Word, c: Word, d: Word)
    ensures Add(Add(a, b), Add(c, d)) == Add(Add(a, c), Add(b, d))
  {
    hide Add;
    AddAssoc(a, b, Add(c, d));
    AddAssoc(b, c, d);
    AddAssoc(c, b, d);
    AddComm(b, c);
    AddAssoc(a, c, Add(b, d));
  }

  lemma {:induction false} AddZero(a: Word)
    ensures Add(a, 0) == a && Add(0, a) == a && Add(a, a) == 0
  {
  }

  lemma {:induction false} AddCancels(a: Word, b: Word, c: Word)
    ensures Add(a, b) == Add(a, c) <==> b == c
    ensures Add(a, b) == 0 <==> a == b
  {
  }

  lemma {:induction false} PickAdds(p: bool, q: bool, g: Word)
    ensures Pick(p != q, g) == Add(Pick(p, g), Pick(q, g))
  {
    hide Add;
    AddZero(g);
    AddZero(0);
  }

  lemma {:induction false} BitAdds(a: Word, b: Word, mask: Word)
    requires mask == 1 || mask == 2 || mask == 4 || mask == 8 || mask == 16
    ensures Bit(Add(a, b), mask) == (Bit(a, mask) != Bit(b, mask))
  {
  }

  lemma {:induction false} TapAdds(a: Word, b: Word, mask: Word, g: Word)
    requires mask == 1 || mask == 2 || mask == 4 || mask == 8 || mask == 16
    ensures Pick(Bit(Add(a, b), mask), g) == Add(Pick(Bit(a, mask), g), Pick(Bit(b, mask), g))
  {
    hide Add, Pick, Bit;
    BitAdds(a, b, mask);
    PickAdds(Bit(a, mask), Bit(b, mask), g);
  }

  lemma {:induction false} FeedbackAdds(a: Word, b: Word, g1: Word, g2: Word, g3: Word, g4: Word, g5: Word)
    ensures Feedback(Add(a, b), g1, g2, g3, g4, g5) == Add(Feedback(a, g1, g2, g3, g4, g5), Feedback(b, g1, g2, g3, g4, g5))
  {
    hide Add, Pick, Bit;
    TapAdds(a, b, 1, g1);
    TapAdds(a, b, 2, g2);
    TapAdds(a, b, 4, g3);
    TapAdds(a, b, 8, g4);
    TapAdds(a, b, 16, g5);
    var x1, x2, x3, x4, x5 :=
      Pick(Bit(a, 1), g1), Pick(Bit(a, 2), g2), Pick(Bit(a, 4), g3), Pick(Bit(a, 8), g4), Pick(Bit(a, 16), g5);
    var y1, y2, y3, y4, y5 :=
      Pick(Bit(b, 1), g1), Pick(Bit(b, 2), g2), Pick(Bit(b, 4), g3), Pick(Bit(b, 8), g4), Pick(Bit(b, 16), g5);
    AddPairs(x1, y1, x2, y2);
    AddPairs(Add(x1, x2), Add(y1, y2), x3, y3);
    AddPairs(Add(Add(x1, x2), x3), Add(Add(y1, y2), y3), x4, y4);
    AddPairs(Add(Add(Add(x1, x2), x3), x4), Add(Add(Add(y1, y2), y3), y4), x5, y5);
  }

  lemma {:induction false} UpAdds(code: Code, a: Word, b: Word)
    ensures Up(code, Add(a, b)) == Add(Up(code, a), Up(code, b))
  {
    match code
    case Bech32 =>
    case CashAddr =>
  }

  lemma {:induction false} ShiftAdds25(a: Word, b: Word)
    ensures Add(a, b) >> 25 == Add(a >> 25, b >> 25)
  {
  }

  lemma {:induction false} ShiftAdds35(a: Word, b: Word)
    ensures Add(a, b) >> 35 == Add(a >> 35, b >> 35)
  {
  }

  lemma {:induction false} TopAdds(code: Code, a: Word, b: Word)
    ensures Top(code, Add(a, b)) == Add(Top(code, a), Top(code, b))
  {
    hide Add, Feedback;
    match code
    case Bech32 =>
      ShiftAdds25(a, b);
      FeedbackAdds(a >> 25, b >> 25, 0x3b6a_57b2, 0x2650_8e6d, 0x1ea1_19fa, 0x3d42_33dd, 0x2a14_62b3);
    case CashAddr =>
      ShiftAdds35(a, b);
      FeedbackAdds(a >> 35, b >> 35, 0x98_f2bc_8e61, 0x79_b76d_99e2, 0xf3_3e5f_b3c4, 0xae_2eab_e2a8, 0x1e_4f43_e470);
  }

  lemma {:induction false} StepAdds(code: Code, a: Word, b: Word, v: Word, w: Word)
    ensures Step(code, Add(a, b), Add(v, w)) == Add(Step(code, a, v), Step(code, b, w))
  {
    hide Add, Up, Top;
    TopAdds(code, a, b);
    UpAdds(code, a, b);
    AddPairs(Up(code, a), v, Up(code, b), w);
    AddPairs(Add(Up(code, a), v), Top(code, a), Add(Up(code, b), w), Top(code, b));
    AddPairs(Up(code, a), Up(code, b), v, w);
  }

  lemma {:induction false} AddStays(code: Code, a: Word, b: Word)
    requires InRegister(code, a) && InRegister(code, b)
    ensures InRegister(code, Add(a, b))
  {
  }

  lemma {:induction false} FeedbackFits(code: Code, b: Word, g1: Word, g2: Word, g3: Word, g4: Word, g5: Word)
    requires InRegister(code, g1) && InRegister(code, g2) && InRegister(code, g3) && InRegister(code, g4) && InRegister(code, g5)
    ensures InRegister(code, Feedback(b, g1, g2, g3, g4, g5))
  {
    hide Add, Bit;
    var x1, x2, x3, x4, x5 :=
      Pick(Bit(b, 1), g1), Pick(Bit(b, 2), g2), Pick(Bit(b, 4), g3), Pick(Bit(b, 8), g4), Pick(Bit(b, 16), g5);
    AddStays(code, x1, x2);
    AddStays(code, Add(x1, x2), x3);
    AddStays(code, Add(Add(x1, x2), x3), x4);
    AddStays(code, Add(Add(Add(x1, x2), x3), x4), x5);
  }

  lemma {:induction false} StepStays(code: Code, c: Word, v: Word)
    requires v < 32
    ensures InRegister(code, Step(code, c, v))
  {
    hide Add, Feedback;
    match code
    case Bech32 =>
      FeedbackFits(code, c >> 25, 0x3b6a_57b2, 0x2650_8e6d, 0x1ea1_19fa, 0x3d42_33dd, 0x2a14_62b3);
      AddStays(code, Up(code, c), v);
      AddStays(code, Add(Up(code, c), v), Top(code, c));
    case CashAddr =>
      FeedbackFits(code, c >> 35, 0x98_f2bc_8e61, 0x79_b76d_99e2, 0xf3_3e5f_b3c4, 0xae_2eab_e2a8, 0x1e_4f43_e470);
      AddStays(code, Up(code, c), v);
      AddStays(code, Add(Up(code, c), v), Top(code, c));
  }

  lemma {:induction false} NoFeedback(g1: Word, g2: Word, g3: Word, g4: Word, g5: Word)
    ensures Feedback(0, g1, g2, g3, g4, g5) == 0
  {
  }

  lemma {:induction false} NoTop(code: Code, c: Word)
    requires Fits(c, Symbols(code) - 1)
    ensures Up(code, c) == Raise(c) && Top(code, c) == 0
  {
    hide Feedback;
    match code
    case Bech32 =>
      NoFeedback(0x3b6a_57b2, 0x2650_8e6d, 0x1ea1_19fa, 0x3d42_33dd, 0x2a14_62b3);
      assert c >> 25 == 0;
    case CashAddr =>
      NoFeedback(0x98_f2bc_8e61, 0x79_b76d_99e2, 0xf3_3e5f_b3c4, 0xae_2eab_e2a8, 0x1e_4f43_e470);
      assert c >> 35 == 0;
  }

  /** While the top symbol is zero, a step shifts. */
  lemma {:induction false} StepShifts(code: Code, c: Word, v: Word)
    requires Fits(c, Symbols(code) - 1)
    ensures Step(code, c, v) == Add(Raise(c), v)
  {
    hide Add, Up, Top, Raise, Fits;
    NoTop(code, c);
    AddZero(Add(Up(code, c), v));
  }

  lemma {:induction false} OnlyZeroVanishes(code: Code, c: Word)
    requires InRegister(code, c) && Step(code, c, 0) == 0
    ensures c == 0
  {
    match code
    case Bech32 =>
    case CashAddr =>
  }

  /** Different registers stay different, whatever they are fed. */
  lemma {:induction false} StepSeparates(code: Code, a: Word, b: Word, v: Word)
    requires InRegister(code, a) && InRegister(code, b) && Step(code, a, v) == Step(code, b, v)
    ensures a == b
  {
    hide Step, Add;
    StepAdds(code, a, b, v, v);
    AddZero(v);
    AddCancels(Step(code, a, v), Step(code, b, v), 0);
    AddStays(code, a, b);
    OnlyZeroVanishes(code, Add(a, b));
    AddCancels(a, b, 0);
  }

  /** A symbol is added to the register. */
  lemma {:induction false} StepSplits(code: Code, c: Word, v: Word)
    ensures Step(code, c, v) == Add(Step(code, c, 0), v)
  {
    hide Add;
    AddZero(Up(code, c));
    AddPairs(Up(code, c), v, Top(code, c), 0);
    AddZero(Top(code, c));
    AddZero(v);
  }

  /** Different symbols make different registers. */
  lemma {:induction false} StepTells(code: Code, c: Word, v: Word, w: Word)
    requires Step(code, c, v) == Step(code, c, w)
    ensures v == w
  {
    hide Step, Add;
    StepSplits(code, c, v);
    StepSplits(code, c, w);
    AddCancels(Step(code, c, 0), v, w);
  }

  // ----- symbols fed to a register -----

  ghost predicate FiveBit(vals: seq<byte>) {
    forall i :: 0 <= i < |vals| ==> vals[i] < 32
  }

  ghost function Feed(code: Code, c: Word, vals: seq<byte>): Word
    requires FiveBit(vals)
  {
    if vals == [] then c else Step(code, Feed(code, c, vals[..|vals| - 1]), Sym(vals[|vals| - 1]))
  }

  lemma {:induction false} FeedOne(code: Code, c: Word, vals: seq<byte>, v: byte)
    requires FiveBit(vals) && v < 32
    ensures Feed(code, c, vals + [v]) == Step(code, Feed(code, c, vals), Sym(v))
  {
    assert (vals + [v])[..|vals|] == vals;
  }

  lemma {:induction false} FeedAppend(code: Code, c: Word, a: seq<byte>, b: seq<byte>)
    requires FiveBit(a) && FiveBit(b)
    ensures Feed(code, c, a + b) == Feed(code, Feed(code, c, a), b)
  {
    hide Step;
    if b == [] {
      assert a + b == a;
    } else {
      var front := b[..|b| - 1];
      FeedAppend(code, c, a, front);
      assert (a + b)[..|a + b| - 1] == a + front;
    }
  }

  lemma {:induction false} FeedStays(code: Code, c: Word, vals: seq<byte>)
    requires FiveBit(vals) && InRegister(code, c)
    ensures InRegister(code, Feed(code, c, vals))
  {
    hide Step, InRegister;
    if vals != [] {
      StepStays(code, Feed(code, c, vals[..|vals| - 1]), Sym(vals[|vals| - 1]));
    }
  }

  lemma {:induction false} FeedSeparates(code: Code, a: Word, b: Word, vals: seq<byte>)
    requires FiveBit(vals) && InRegister(code, a) && InRegister(code, b) && a != b
    ensures Feed(code, a, vals) != Feed(code, b, vals)
  {
    hide Step, InRegister;
    if vals != [] {
      var front, v := vals[..|vals| - 1], Sym(vals[|vals| - 1]);
      FeedSeparates(code, a, b, front);
      FeedStays(code, a, front);
      FeedStays(code, b, front);
      if Step(code, Feed(code, a, front), v) == Step(code, Feed(code, b, front), v) {
        StepSeparates(code, Feed(code, a, front), Feed(code, b, front), v);
      }
    }
  }

  /** One symbol replaced by another shows in the register, wherever it is. */
  lemma {:induction false} SubstitutionTells(code: Code, c: Word, before: seq<byte>, v: byte, w: byte, after: seq<byte>)
    requires FiveBit(before) && FiveBit(after) && v < 32 && w < 32 && v != w && InRegister(code, c)
    ensures Feed(code, c, before + [v] + after) != Feed(code, c, before + [w] + after)
  {
    hide Step, InRegister, Sym;
    var r := Feed(code, c, before);
    FeedOne(code, c, before, v);
    FeedOne(code, c, before, w);
    FeedAppend(code, c, before + [v], after);
    FeedAppend(code, c, before + [w], after);
    SymsDiffer(v, w);
    if Step(code, r, Sym(v)) == Step(code, r, Sym(w)) {
      StepTells(code, r, Sym(v), Sym(w));
    }
    StepStays(code, r, Sym(v));
    StepStays(code, r, Sym(w));
    FeedSeparates(code, Step(code, r, Sym(v)), Step(code, r, Sym(w)), after);
  }

  lemma {:induction false} SymsDiffer(v: byte, w: byte)
    requires v < 32 && w < 32 && v != w
    ensures Sym(v) != Sym(w)
  {
    hide Sym, Unsym;
    UnsymOfSym(v);
    UnsymOfSym(w);
  }

  // ----- symbols packed into a word -----

  ghost function Pack(vals: seq<byte>): Word
    requires FiveBit(vals)
  {
    if vals == [] then 0 else Add(Raise(Pack(vals[..|vals| - 1])), Sym(vals[|vals| - 1]))
  }

  /** The `n` symbols of a word, the most significant first. */
  function Unpack(w: Word, n: nat): (vals: seq<byte>)
    ensures |vals| == n && forall i :: 0 <= i < n ==> vals[i] < 32
  {
    if n == 0 then [] else Unpack(Drop(w), n - 1) + [Unsym(w)]
  }

  lemma {:induction false} Pushed(p: Word, v: byte, k: nat)
    requires k < 7 && Fits(p, k) && v < 32
    ensures Fits(Add(Raise(p), Sym(v)), k + 1)
  {
    hide Sym;
    SymIsSmall(v);
  }

  lemma {:induction false} SymIsSmall(v: byte)
    requires v < 32
    ensures Sym(v) < 32
  {
    hide Sym;
  }

  lemma {:induction false} Popped(p: Word, v: byte)
    requires Fits(p, 7) && v < 32
    ensures Drop(Add(Raise(p), Sym(v))) == p && Add(Raise(p), Sym(v)) & 31 == Sym(v)
  {
    hide Sym;
    SymIsSmall(v);
  }

  lemma {:induction false} Reassembled(w: Word)
    ensures Fits(Drop(w), 7) && Add(Raise(Drop(w)), Sym(Unsym(w))) == w
  {
    hide Sym, Unsym;
    SymOfUnsym(w);
  }

  lemma {:induction false} Dropped(w: Word, k: nat)
    requires 0 < k < 8 && Fits(w, k)
    ensures Fits(Drop(w), k - 1)
  {
  }

  lemma {:induction false} FitsMore(w: Word, k: nat)
    requires k < 7 && Fits(w, k)
    ensures Fits(w, k + 1)
  {
  }

  lemma {:induction false} FitsAll(w: Word, k: nat, n: nat)
    requires k <= n < 8 && Fits(w, k)
    ensures Fits(w, n)
    decreases n
  {
    hide Fits;
    if k < n {
      FitsAll(w, k, n - 1);
      FitsMore(w, n - 1);
    }
  }

  lemma {:induction false} ZeroFits(w: Word)
    ensures Fits(w, 0) <==> w == 0
  {
  }

  lemma {:induction false} PackFits(vals: seq<byte>)
    requires FiveBit(vals) && |vals| < 8
    ensures Fits(Pack(vals), |vals|)
  {
    hide Add, Sym, Fits, Raise;
    if vals == [] {
      ZeroFits(0);
    } else {
      PackFits(vals[..|vals| - 1]);
      Pushed(Pack(vals[..|vals| - 1]), vals[|vals| - 1], |vals| - 1);
    }
  }

  lemma {:induction false} PackUnpack(w: Word, n: nat)
    requires n <= 8 && (n < 8 ==> Fits(w, n))
    ensures Pack(Unpack(w, n)) == w
    decreases n
  {
    hide Add, Sym, Unsym, Fits, Raise, Drop;
    if n > 0 {
      Reassembled(w);
      if n < 8 {
        Dropped(w, n);
      }
      PackUnpack(Drop(w), n - 1);
      assert Unpack(w, n)[..n - 1] == Unpack(Drop(w), n - 1);
    } else {
      ZeroFits(w);
    }
  }

  lemma {:induction false} PackTells(x: seq<byte>, y: seq<byte>)
    requires FiveBit(x) && FiveBit(y) && |x| == |y| <= 8 && Pack(x) == Pack(y)
    ensures x == y
  {
    hide Add, Sym, Unsym, Fits, Raise, Drop;
    if x != [] {
      var a, b := x[..|x| - 1], y[..|y| - 1];
      var v, w := x[|x| - 1], y[|y| - 1];
      PackFits(a);
      PackFits(b);
      FitsAll(Pack(a), |a|, 7);
      FitsAll(Pack(b), |b|, 7);
      Popped(Pack(a), v);
      Popped(Pack(b), w);
      PackTells(a, b);
      UnsymOfSym(v);
      UnsymOfSym(w);
      assert x == a + [v] && y == b + [w];
    }
  }

  function Blank(n: nat): (vals: seq<byte>)
    ensures |vals| == n && forall i :: 0 <= i < n ==> vals[i] == 0
  {
    seq(n, _ => 0 as byte)
  }

  lemma {:induction false} NoSym()
    ensures Sym(0) == 0
  {
  }

  /** Up to a whole register, symbols are just added to what blanks leave. */
  lemma {:induction false} FeedSplits(code: Code, c: Word, vals: seq<byte>)
    requires FiveBit(vals) && |vals| <= Symbols(code)
    ensures Feed(code, c, vals) == Add(Feed(code, c, Blank(|vals|)), Pack(vals))
  {
    hide Step, Add, Sym, Fits, Raise;
    if vals == [] {
      AddZero(c);
    } else {
      var k := |vals| - 1;
      var front, v := vals[..k], Sym(vals[k]);
      FeedSplits(code, c, front);
      var f, p := Feed(code, c, Blank(k)), Pack(front);
      assert Blank(|vals|) == Blank(k) + [0];
      FeedOne(code, c, Blank(k), 0);
      NoSym();
      AddZero(v);
      StepAdds(code, f, p, 0, v);
      PackFits(front);
      FitsAll(p, k, Symbols(code) - 1);
      StepShifts(code, p, v);
    }
  }

  // ----- checksums -----

  /** The symbols that bring a register to `goal`. */
  ghost function Checksum(code: Code, c: Word, goal: Word): (vals: seq<byte>)
    ensures FiveBit(vals) && |vals| == Symbols(code)
  {
    Unpack(Add(Feed(code, c, Blank(Symbols(code))), goal), Symbols(code))
  }

  lemma {:induction false} AddTwice(a: Word, b: Word)
    ensures Add(a, Add(a, b)) == b
  {
    hide Add;
    AddAssoc(a, a, b);
    AddZero(a);
    AddZero(b);
  }

  /** The checksum brings the register to its goal, and no other symbols do. */
  lemma {:induction false} OnlyChecksum(code: Code, c: Word, goal: Word, vals: seq<byte>)
    requires InRegister(code, c) && InRegister(code, goal) && FiveBit(vals) && |vals| == Symbols(code)
    ensures Feed(code, c, vals) == goal <==> vals == Checksum(code, c, goal)
  {
    hide Step, Add, Pack, Unpack, Fits;
    var n := Symbols(code);
    var f, sum := Feed(code, c, Blank(n)), Checksum(code, c, goal);
    FeedStays(code, c, Blank(n));
    AddStays(code, f, goal);
    PackUnpack(Add(f, goal), n);
    AddTwice(f, goal);
    FeedSplits(code, c, sum);
    FeedSplits(code, c, vals);
    if Feed(code, c, vals) == goal {
      AddCancels(f, Pack(vals), Pack(sum));
      PackTells(vals, sum);
    }
  }

  /** `w` without its lowest `k` symbols. */
  function DropMany(w: Word, k: nat): Word {
    if k == 0 then w else DropMany(Drop(w), k - 1)
  }

  lemma {:induction false} UnpackAt(w: Word, n: nat, i: nat)
    requires i < n
    ensures Unpack(w, n)[i] == Unsym(DropMany(w, n - 1 - i))
    decreases n
  {
    hide Drop, Unsym;
    if i < n - 1 {
      UnpackAt(Drop(w), n - 1, i);
    }
  }
}
