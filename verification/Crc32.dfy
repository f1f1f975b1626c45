/** The CRC-32 of src/bcur/mod.rs, by nibbles, against the bit-serial register
    it tabulates. */
module Crc32 {

  /** One bit of the reflected division by the IEEE 802.3 polynomial. */
  function BitStep(c: bv32): bv32 {
    if c & 1 != 0 then 0xedb8_8320 ^ (c >> 1) else c >> 1
  }

  function BitSteps(c: bv32, n: nat): bv32
    decreases n
  {
    if n == 0 then c else BitSteps(BitStep(c), n - 1)
  }

  /** The register after one more byte. */
  function ByteStep(c: bv32, byte: bv8): bv32 {
    BitSteps(c ^ (byte as bv32), 8)
  }

  /** The register after `data`, a byte at a time. */
  function Register(c: bv32, data: seq<bv8>): bv32 {
    if data == [] then c else ByteStep(Register(c, data[..|data| - 1]), data[|data| - 1])
  }

  /** The CRC-32 of `data`. */
  function Crc(data: seq<bv8>): bv32 {
    !Register(0xffff_ffff, data)
  }

  lemma {:induction false} FourSteps(c: bv32)
    ensures BitSteps(c, 4) == BitStep(BitStep(BitStep(BitStep(c))))
  {
    var c1 := BitStep(c);
    var c2 := BitStep(c1);
    var c3 := BitStep(c2);
    assert BitSteps(c3, 1) == BitSteps(BitStep(c3), 0);
    assert BitSteps(c2, 2) == BitSteps(c3, 1);
    assert BitSteps(c1, 3) == BitSteps(c2, 2);
  }

  lemma {:induction false} StepsAdd(c: bv32, m: nat, n: nat)
    ensures BitSteps(c, m + n) == BitSteps(BitSteps(c, m), n)
    decreases m
  {
    if m > 0 {
      StepsAdd(BitStep(c), m - 1, n);
    }
  }

  /** What is left of a register, XORed with an entry of the table. */
  function Shifted(entry: bv32, c: bv32): bv32 {
    entry ^ (c >> 4)
  }

  /** Four bits at once: the low nibble picks what the rest is XORed with. */
  lemma {:induction false} NibbleStep(c: bv32)
    ensures BitSteps(c, 4) == Shifted(BitSteps(c & 15, 4), c)
  {
    FourSteps(c);
    FourSteps(c & 15);
  }

  ghost predicate IsTable(table: seq<bv32>) {
    |table| == 16 && forall i: nat :: i < 16 ==> table[i] == BitSteps(i as bv32, 4)
  }

  /** An entry of the compile-time `CRC_TABLE`. */
  method BuildEntry(nibble: bv32) returns (c: bv32)
    ensures c == BitSteps(nibble, 4)
  {
    hide BitStep;
    c := nibble;
    for k := 0 to 4
      invariant BitSteps(c, 4 - k) == BitSteps(nibble, 4)
    {
      c := BitStep(c);
    }
  }

  /** The whole of it. */
  method BuildTable() returns (table: seq<bv32>)
    ensures IsTable(table)
  {
    hide BitSteps;
    table := [];
    for i := 0 to 16
      invariant |table| == i && forall j: nat :: j < i ==> table[j] == BitSteps(j as bv32, 4)
    {
      var c := BuildEntry(i as bv32);
      table := table + [c];
    }
  }

  /** The low nibble, as an index. */
  function Nibble(c: bv32): (i: nat)
    ensures i < 16
  {
    NibbleIndex(c);
    (c & 15) as nat
  }

  lemma {:induction false} EntryOfNibble(table: seq<bv32>, c: bv32)
    requires IsTable(table)
    ensures table[Nibble(c)] == BitSteps(c & 15, 4)
  {
    hide BitSteps;
    NibbleIndex(c);
  }

  /** A lookup advances the register four bits. */
  function Lookup(table: seq<bv32>, c: bv32): (r: bv32)
    requires IsTable(table)
    ensures r == BitSteps(c, 4)
  {
    hide BitSteps, Nibble, IsTable, Shifted;
    NibbleStep(c);
    EntryOfNibble(table, c);
    Shifted(table[Nibble(c)], c)
  }

  lemma {:induction false} NibbleIndex(c: bv32)
    ensures (c & 15) as nat < 16 && ((c & 15) as nat) as bv32 == c & 15
  {
  }

  /** One byte of `Crc32::update`: two table lookups. */
  method UpdateByte(table: seq<bv32>, c: bv32, byte: bv8) returns (r: bv32)
    requires IsTable(table)
    ensures r == ByteStep(c, byte)
  {
    var x := c ^ (byte as bv32);
    StepsAdd(x, 4, 4);
    r := Lookup(table, Lookup(table, x));
  }

  /** `crc32`. */
  method Compute(table: seq<bv32>, data: seq<bv8>) returns (r: bv32)
    requires IsTable(table)
    ensures r == Crc(data)
  {
    var c: bv32 := 0xffff_ffff;
    for i := 0 to |data|
      invariant c == Register(0xffff_ffff, data[..i])
    {
      c := UpdateByte(table, c, data[i]);
      assert data[..i + 1][..i] == data[..i];
    }
    assert data[..|data|] == data;
    r := !c;
  }
}
