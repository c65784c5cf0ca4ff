/** _hashfunc of ksync-rcu-cmap/rcucmap.c, on __u32 values. */
module RcuHash {

  // A key as a __u32.
  function Bits(key: int): bv32 {
    (key % 0x1_0000_0000) as bv32
  }

  // The high half is xored into the low half.
  function Fold(x: bv32): bv32 {
    (x >> 16) ^ x
  }

  function Spread(x: bv32): bv32 {
    x * 0x45d9f3b
  }

  function Scramble(k: bv32): bv32 {
    Fold(Spread(Fold(Spread(Fold(k)))))
  }

  function Reduce(h: nat, bcount: nat): (idx: nat)
    requires bcount > 0
    ensures idx < bcount
  {
    h % bcount
  }

  // _hashfunc
  function Hash(key: int, bcount: nat): (idx: nat)
    requires bcount > 0
    ensures idx < bcount
  {
    Reduce(Scramble(Bits(key)) as nat, bcount)
  }

  lemma Scrambled(k: bv32, a: bv32, b: bv32, c: bv32, d: bv32, h: bv32)
    requires a == Fold(k) && b == Spread(a) && c == Fold(b) && d == Spread(c) && h == Fold(d)
    ensures Scramble(k) == h
  {
  }

  // The hash of two keys, the second with bits in both halves.
  lemma ScrambleValues()
    ensures Scramble(1) == 0x31251ba7 && Scramble(0x12345678) == 0x55ccace
  {
    Scrambled(0x1, 0x1, 0x45d9f3b, 0x45d9b66, 0x31252a82, 0x31251ba7);
    Scrambled(0x12345678, 0x1234444c, 0xa812f184, 0xa8125996, 0x55ccf92, 0x55ccace);
  }

  lemma BitsOfOne()
    ensures Bits(1) == 1
  {
    assert 1 % 0x1_0000_0000 == 1;
  }

  // The bucket of key 1 in the map of ten buckets that the tasks share.
  lemma BucketOfOne()
    ensures Hash(1, 10) == 5
  {
    BitsOfOne();
    ScrambleValues();
  }
}
