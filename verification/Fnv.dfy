/** The FNV build of _hashfunc in data-hashmap-concurrent/cmap.c, on uint64_t values. */
module Fnv {

  const M64: nat := 0x1_0000_0000_0000_0000
  const FNV1_64_INIT: bv64 := 0xcbf29ce484222325
  type Octet = x: int | 0 <= x < 256

  // The multiplication by the prime: to the value itself are added six of its left shifts,
  // by 1, 4, 5, 7, 8 and 40.
  function ShiftAdd(h: bv64): bv64 {
    h + ((h << 1) + (h << 4) + (h << 5) + (h << 7) + (h << 8) + (h << 40))
  }

  // The 64-bit FNV prime is 2^40 + 435.
  lemma ShiftAddIsMultiply(h: bv64)
    ensures ShiftAdd(h) == h * 0x100000001b3
  {
  }

  // One round of FNV-1: multiply by the prime, then xor the octet.
  function Round(h: bv64, octet: Octet): bv64 {
    ShiftAdd(h) ^ (octet as bv64)
  }

  function Fnv1(h: bv64, data: seq<Octet>): bv64
    decreases |data|
  {
    if data == [] then h else Fnv1(Round(h, data[0]), data[1..])
  }

  lemma TimesInverse(h: bv64)
    ensures (h * 0x100000001b3) * 0xce965057aff6957b == h
  {
  }

  // A round can be undone: xor the octet again, and multiply by the inverse of the prime
  // modulo 2^64. So different values stay different.
  lemma RoundUndone(h: bv64, octet: Octet)
    ensures Round(h, octet) ^ (octet as bv64) == ShiftAdd(h)
  {
  }

  // ---------- the initial value ----------

  lemma First(h: bv64, octet: Octet, rest: seq<Octet>, h': bv64)
    requires h' == Round(h, octet)
    ensures Fnv1(h, [octet] + rest) == Fnv1(h', rest)
  {
    assert ([octet] + rest)[1..] == rest;
  }

  // The text that the initial value is defined by, chongo <Landon Curt Noll> /\../\ , and its
  // ends.
  const BASIS_TEXT: seq<Octet> := [99] + ([104] + TEXT_2)
  const TEXT_2: seq<Octet> := [111] + ([110] + TEXT_4)
  const TEXT_4: seq<Octet> := [103] + ([111] + TEXT_6)
  const TEXT_6: seq<Octet> := [32] + ([60] + TEXT_8)
  const TEXT_8: seq<Octet> := [76] + ([97] + TEXT_10)
  const TEXT_10: seq<Octet> := [110] + ([100] + TEXT_12)
  const TEXT_12: seq<Octet> := [111] + ([110] + TEXT_14)
  const TEXT_14: seq<Octet> := [32] + ([67] + TEXT_16)
  const TEXT_16: seq<Octet> := [117] + ([114] + TEXT_18)
  const TEXT_18: seq<Octet> := [116] + ([32] + TEXT_20)
  const TEXT_20: seq<Octet> := [78] + ([111] + TEXT_22)
  const TEXT_22: seq<Octet> := [108] + ([108] + TEXT_24)
  const TEXT_24: seq<Octet> := [62] + ([32] + TEXT_26)
  const TEXT_26: seq<Octet> := [47] + ([92] + TEXT_28)
  const TEXT_28: seq<Octet> := [46] + ([46] + TEXT_30)
  const TEXT_30: seq<Octet> := [47] + ([92] + [])

  lemma From30()
    ensures Fnv1(0x4a2438eef06a9c4, TEXT_30) == 0xcbf29ce484222325
  {
    First(0x4a2438eef06a9c4, 47, [92] + [], 0xe6628fe028527823);
    First(0xe6628fe028527823, 92, [], 0xcbf29ce484222325);
  }

  lemma From28()
    ensures Fnv1(0x3b90a68e5840b5c0, TEXT_28) == 0xcbf29ce484222325
  {
    First(0x3b90a68e5840b5c0, 46, [46] + TEXT_30, 0x7780c3dff5f4d56e);
    First(0x7780c3dff5f4d56e, 46, TEXT_30, 0x4a2438eef06a9c4);
    From30();
  }

  lemma From26()
    ensures Fnv1(0x7d396d8e7a8a1f39, TEXT_26) == 0xcbf29ce484222325
  {
    First(0x7d396d8e7a8a1f39, 47, [92] + TEXT_28, 0x52b4621a38b30df4);
    First(0x52b4621a38b30df4, 92, TEXT_28, 0x3b90a68e5840b5c0);
    From28();
  }

  lemma From24()
    ensures Fnv1(0x1d223e4501e8284f, TEXT_24) == 0xcbf29ce484222325
  {
    First(0x1d223e4501e8284f, 62, [32] + TEXT_26, 0x69581e423d7c7e03);
    First(0x69581e423d7c7e03, 32, TEXT_26, 0x7d396d8e7a8a1f39);
    From26();
  }

  lemma From22()
    ensures Fnv1(0x98ad68fb1b6298cf, TEXT_22) == 0xcbf29ce484222325
  {
    First(0x98ad68fb1b6298cf, 108, [108] + TEXT_24, 0xd14231af8889a7d1);
    First(0xd14231af8889a7d1, 108, TEXT_24, 0x1d223e4501e8284f);
    From24();
  }

  lemma From20()
    ensures Fnv1(0xd1d51294ea91559a, TEXT_20) == 0xcbf29ce484222325
  {
    First(0xd1d51294ea91559a, 78, [111] + TEXT_22, 0x1e642d0a94f474e0);
    First(0x1e642d0a94f474e0, 111, TEXT_22, 0x98ad68fb1b6298cf);
    From22();
  }

  lemma From18()
    ensures Fnv1(0x823a8f43693c4c2e, TEXT_18) == 0xcbf29ce484222325
  {
    First(0x823a8f43693c4c2e, 116, [32] + TEXT_20, 0x85cd9d8bd175725e);
    First(0x85cd9d8bd175725e, 32, TEXT_20, 0xd1d51294ea91559a);
    From20();
  }

  lemma From16()
    ensures Fnv1(0x2bb0f8de7b8ac83b, TEXT_16) == 0xcbf29ce484222325
  {
    First(0x2bb0f8de7b8ac83b, 117, [114] + TEXT_18, 0xc87f1d0becd23c34);
    First(0xc87f1d0becd23c34, 114, TEXT_18, 0x823a8f43693c4c2e);
    From18();
  }

  lemma From14()
    ensures Fnv1(0xad0a15bce6941c58, TEXT_14) == 0xcbf29ce484222325
  {
    First(0xad0a15bce6941c58, 32, [67] + TEXT_16, 0x9c3f47fbcdac29a8);
    First(0x9c3f47fbcdac29a8, 67, TEXT_16, 0x2bb0f8de7b8ac83b);
    From16();
  }

  lemma From12()
    ensures Fnv1(0x531b2a833171456f, TEXT_12) == 0xcbf29ce484222325
  {
    First(0x531b2a833171456f, 111, [110] + TEXT_14, 0xa86eabed0378fbf2);
    First(0xa86eabed0378fbf2, 110, TEXT_14, 0xad0a15bce6941c58);
    From14();
  }

  lemma From10()
    ensures Fnv1(0x232b6b0af10566bd, TEXT_10) == 0xcbf29ce484222325
  {
    First(0x232b6b0af10566bd, 110, [100] + TEXT_12, 0xc82da0978c2d9349);
    First(0xc82da0978c2d9349, 100, TEXT_12, 0x531b2a833171456f);
    From12();
  }

  lemma From8()
    ensures Fnv1(0xae6be54f5606fc28, TEXT_8) == 0xcbf29ce484222325
  {
    First(0xae6be54f5606fc28, 76, [97] + TEXT_10, 0x6852cdcf2dde77b4);
    First(0x6852cdcf2dde77b4, 97, TEXT_10, 0x232b6b0af10566bd);
    From10();
  }

  lemma From6()
    ensures Fnv1(0x4ac7ec3754558154, TEXT_6) == 0xcbf29ce484222325
  {
    First(0x4ac7ec3754558154, 32, [60] + TEXT_8, 0x6737b6044d4ac19c);
    First(0x6737b6044d4ac19c, 60, TEXT_8, 0xae6be54f5606fc28);
    From8();
  }

  lemma From4()
    ensures Fnv1(0x59dc4a01e5fd0dca, TEXT_4) == 0xcbf29ce484222325
  {
    First(0x59dc4a01e5fd0dca, 103, [111] + TEXT_6, 0xae5f8b39ccfe6e59);
    First(0xae5f8b39ccfe6e59, 111, TEXT_6, 0x4ac7ec3754558154);
    From6();
  }

  lemma From2()
    ensures Fnv1(0x63000000a851, TEXT_2) == 0xcbf29ce484222325
  {
    First(0x63000000a851, 111, [110] + TEXT_4, 0x1508a00011e01cc);
    First(0x1508a00011e01cc, 110, TEXT_4, 0x59dc4a01e5fd0dca);
    From4();
  }

  // FNV-1 of that text, started with 0, is the initial value.
  lemma Basis()
    ensures Fnv1(0, BASIS_TEXT) == FNV1_64_INIT
  {
    First(0, 99, [104] + TEXT_2, 0x63);
    First(0x63, 104, TEXT_2, 0x63000000a851);
    From2();
  }

  // ---------- the code ----------

  method Mix(hval: bv64, octet: Octet) returns (r: bv64)
    ensures r == Round(hval, octet)
  {
    r := ShiftAdd(hval) ^ (octet as bv64);
  }

  // The shift-and-add loop computes FNV-1 of the whole buffer, and the bucket index is in range.
  method HashFunc(data: seq<Octet>, div: nat) returns (idx: nat)
    requires div > 0
    ensures idx < div && idx == Fnv1(FNV1_64_INIT, data) as nat % div
  {
    var hval := FNV1_64_INIT;
    var i := 0;
    while i < |data|
      invariant 0 <= i <= |data|
      invariant Fnv1(hval, data[i..]) == Fnv1(FNV1_64_INIT, data)
    {
      assert data[i..][0] == data[i] && data[i..][1..] == data[i + 1..];
      hval := Mix(hval, data[i]);
      i := i + 1;
    }
    idx := hval as nat % div;
  }

  // The bytes of the uint64_t index that a BOGUS_KEY starts with, least significant first.
  function KeyBytes(index: nat): seq<Octet> {
    seq(8, j requires 0 <= j < 8 => Shifted(index, j) % 256)
  }

  function Shifted(index: nat, j: nat): nat {
    if j == 0 then index else Shifted(index, j - 1) / 256
  }

  // The number whose bytes these are, least significant first.
  function Number(data: seq<Octet>): nat {
    if data == [] then 0 else data[0] + 256 * Number(data[1..])
  }

  lemma {:induction false} NumberFrom(index: nat, j: nat)
    requires j <= 8 && Shifted(index, 8) == 0
    ensures Number(KeyBytes(index)[j..]) == Shifted(index, j)
    decreases 8 - j
  {
    if j < 8 {
      NumberFrom(index, j + 1);
      assert KeyBytes(index)[j..][1..] == KeyBytes(index)[j + 1..];
    }
  }

  lemma ShiftedOut(index: nat)
    requires index < M64
    ensures Shifted(index, 8) == 0
  {
    assert Shifted(index, 1) < 0x100000000000000;
    assert Shifted(index, 2) < 0x1000000000000;
    assert Shifted(index, 3) < 0x10000000000;
    assert Shifted(index, 4) < 0x100000000;
    assert Shifted(index, 5) < 0x1000000;
    assert Shifted(index, 6) < 0x10000;
    assert Shifted(index, 7) < 0x100;
  }

  // The bytes of a uint64_t are those of no other.
  lemma KeyBytesNumber(index: nat)
    requires index < M64
    ensures |KeyBytes(index)| == 8 && Number(KeyBytes(index)) == index
  {
    ShiftedOut(index);
    NumberFrom(index, 0);
    assert KeyBytes(index)[0..] == KeyBytes(index);
  }

  function BucketOf(index: nat, buckSize: nat): (b: nat)
    requires buckSize > 0
    ensures b < buckSize
  {
    Fnv1(FNV1_64_INIT, KeyBytes(index)) as nat % buckSize
  }

  lemma BytesOfOne()
    ensures KeyBytes(1) == [1] + ([0] + ([0] + ([0] + ([0] + ([0] + ([0] + ([0] + [])))))))
  {
    assert Shifted(1, 1) == 0 && Shifted(1, 2) == 0 && Shifted(1, 3) == 0 && Shifted(1, 4) == 0;
    assert Shifted(1, 5) == 0 && Shifted(1, 6) == 0 && Shifted(1, 7) == 0;
  }

  lemma HashOfOne()
    ensures Fnv1(FNV1_64_INIT, [1] + ([0] + ([0] + ([0] + ([0] + ([0] + ([0] + ([0] + [])))))))) == 0xe3757ca7d64666ea
  {
    First(0xcbf29ce484222325, 1, [0] + ([0] + ([0] + ([0] + ([0] + ([0] + ([0] + [])))))), 0xaf63bd4c8601b7de);
    First(0xaf63bd4c8601b7de, 0, [0] + ([0] + ([0] + ([0] + ([0] + ([0] + []))))), 0x8328707b4eb6e3a);
    First(0x8328707b4eb6e3a, 0, [0] + ([0] + ([0] + ([0] + ([0] + [])))), 0xd949ac186c0c4c8e);
    First(0xd949ac186c0c4c8e, 0, [0] + ([0] + ([0] + ([0] + []))), 0x447bfb7f98e6154a);
    First(0x447bfb7f98e6154a, 0, [0] + ([0] + ([0] + [])), 0x44c1a3d0cef62cbe);
    First(0x44c1a3d0cef62cbe, 0, [0] + ([0] + []), 0xcb3619cfac4e06da);
    First(0xcb3619cfac4e06da, 0, [0] + [], 0x9af4b5e1c895a46e);
    First(0x9af4b5e1c895a46e, 0, [], 0xe3757ca7d64666ea);
  }

  // The bucket of the key 1 among the 1024 of the program.
  lemma BucketOfOne()
    ensures BucketOf(1, 1024) == 746
  {
    BytesOfOne();
    HashOfOne();
  }
}
