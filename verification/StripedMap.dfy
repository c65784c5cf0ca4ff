/**
 The striped hash map of data-hashmap-concurrent/cmap.c: chains whose free slots are
 reused, under one lock per bucket. Each operation is one holder of that lock.
 */
module StripedMap {
  import opened Fnv

  // BOGUS_DATA; index and value are uint64_t.
  datatype Slot = Slot(index: nat, value: nat, inUse: bool)

  const FREE: Slot := Slot(0, 0, false)

  type Chain = seq<Slot>

  // bucketOf is the hash function. Of each bucket, dataSize and peak are auxiliary: how
  // many slots it was allocated with, and the most live slots it ever held.
  datatype Cmap = Cmap(bucketOf: nat -> nat, buckets: seq<Chain>, dataSize: nat, peak: seq<nat>)

  // ---------- one chain ----------

  // The first free slot of the walk in cmap_set.
  function FirstFree(ch: Chain): (i: nat)
    ensures i <= |ch| && (i < |ch| ==> !ch[i].inUse) && forall j | 0 <= j < i :: ch[j].inUse
  {
    if ch == [] || !ch[0].inUse then 0 else 1 + FirstFree(ch[1..])
  }

  predicate Matches(s: Slot, key: nat) {
    s.inUse && s.index == key
  }

  // The first live slot with the key, of the walks in cmap_get and cmap_del.
  function FirstLive(ch: Chain, key: nat): (i: nat)
    ensures i <= |ch| && (i < |ch| ==> Matches(ch[i], key)) && forall j | 0 <= j < i :: !Matches(ch[j], key)
  {
    if ch == [] || Matches(ch[0], key) then 0 else 1 + FirstLive(ch[1..], key)
  }

  function SetChain(ch: Chain, key: nat, value: nat): Chain {
    var i := FirstFree(ch);
    if i == |ch| then [Slot(key, value, true)] + ch else ch[i := Slot(key, value, true)]
  }

  function DelChain(ch: Chain, key: nat): Chain {
    var i := FirstLive(ch, key);
    if i == |ch| then ch else ch[i := FREE]
  }

  // cmap_get with a callback that gives the found slot a new value.
  function GetChain(ch: Chain, key: nat, cb: (nat, nat) -> nat): Chain {
    var i := FirstLive(ch, key);
    if i == |ch| then ch else ch[i := Updated(ch[i], cb)]
  }

  function Pair(s: Slot): multiset<(nat, nat)> {
    if s.inUse then multiset{(s.index, s.value)} else multiset{}
  }

  // The live (index, value) pairs of a chain.
  function Live(ch: Chain): multiset<(nat, nat)> {
    if ch == [] then multiset{} else Pair(ch[0]) + Live(ch[1..])
  }

  lemma {:induction false} LiveReplace(ch: Chain, i: nat, s: Slot)
    requires i < |ch|
    ensures Live(ch[i := s]) + Pair(ch[i]) == Live(ch) + Pair(s)
    decreases |ch|
  {
    var ch' := ch[i := s];
    if i == 0 {
      assert ch'[1..] == ch[1..];
      Swap(Pair(s), Live(ch[1..]), Pair(ch[0]));
    } else {
      assert ch'[1..] == ch[1..][i - 1 := s];
      LiveReplace(ch[1..], i - 1, s);
      assert Live(ch') + Pair(ch[i]) == Pair(ch[0]) + (Live(ch'[1..]) + Pair(ch[i]));
      assert Live(ch) + Pair(s) == Pair(ch[0]) + (Live(ch[1..]) + Pair(s));
    }
  }

  lemma Swap(a: multiset<(nat, nat)>, b: multiset<(nat, nat)>, c: multiset<(nat, nat)>)
    ensures a + b + c == c + b + a
  {
  }

  lemma {:induction false} LiveCount(ch: Chain)
    ensures |Live(ch)| <= |ch|
    ensures (exists i :: 0 <= i < |ch| && !ch[i].inUse) ==> |Live(ch)| < |ch|
    ensures (forall i | 0 <= i < |ch| :: ch[i].inUse) ==> |Live(ch)| == |ch|
    decreases |ch|
  {
    if ch != [] {
      LiveCount(ch[1..]);
      if i :| 0 <= i < |ch| && !ch[i].inUse {
        assert i > 0 ==> !ch[1..][i - 1].inUse;
      }
    }
  }

  // cmap_set adds exactly one pair, even when the key is already there.
  lemma SetAdds(ch: Chain, key: nat, value: nat)
    ensures Live(SetChain(ch, key, value)) == Live(ch) + multiset{(key, value)}
  {
    var i := FirstFree(ch);
    if i == |ch| {
      assert ([Slot(key, value, true)] + ch)[1..] == ch;
    } else {
      LiveReplace(ch, i, Slot(key, value, true));
    }
  }

  function At(ch: Chain, i: nat): Slot {
    if i < |ch| then ch[i] else FREE
  }

  // cmap_del takes away exactly one pair with the key, if there is one.
  lemma DelTakes(ch: Chain, key: nat)
    ensures Live(DelChain(ch, key)) + Pair(At(ch, FirstLive(ch, key))) == Live(ch)
  {
    var i := FirstLive(ch, key);
    if i < |ch| {
      LiveReplace(ch, i, FREE);
    }
  }

  function Updated(s: Slot, cb: (nat, nat) -> nat): Slot {
    s.(value := cb(s.index, s.value))
  }

  // cmap_get replaces the value of exactly one pair with the key, if there is one.
  lemma GetReplaces(ch: Chain, key: nat, cb: (nat, nat) -> nat)
    ensures Live(GetChain(ch, key, cb)) + Pair(At(ch, FirstLive(ch, key)))
            == Live(ch) + Pair(Updated(At(ch, FirstLive(ch, key)), cb))
  {
    var i := FirstLive(ch, key);
    if i < |ch| {
      LiveReplace(ch, i, Updated(ch[i], cb));
    }
  }

  function Max(a: nat, b: nat): nat {
    if a < b then b else a
  }

  // A chain grows only when every slot is live, so its length stays the larger of what it
  // was allocated with and the most live slots it ever held.
  lemma SetLength(ch: Chain, key: nat, value: nat, dataSize: nat, peak: nat)
    requires |ch| == Max(dataSize, peak) && |Live(ch)| <= peak
    ensures var ch' := SetChain(ch, key, value);
            var peak' := Max(peak, |Live(ch')|);
            |ch'| == Max(dataSize, peak') && |Live(ch')| <= peak'
  {
    SetAdds(ch, key, value);
    LiveCount(ch);
  }

  // ---------- the whole map ----------

  ghost predicate Valid(m: Cmap) {
    && 0 < |m.buckets| == |m.peak|
    && (forall k :: m.bucketOf(k) < |m.buckets|)
    && (forall b | 0 <= b < |m.buckets| ::
          |m.buckets[b]| == Max(m.dataSize, m.peak[b]) && |Live(m.buckets[b])| <= m.peak[b])
    && (forall b, i | 0 <= b < |m.buckets| && 0 <= i < |m.buckets[b]| && m.buckets[b][i].inUse ::
          m.bucketOf(m.buckets[b][i].index) == b)
  }

  // Put a new chain in the bucket of a key.
  function Store(m: Cmap, key: nat, ch: Chain): Cmap
    requires m.bucketOf(key) < |m.buckets| == |m.peak|
  {
    var b := m.bucketOf(key);
    m.(buckets := m.buckets[b := ch], peak := m.peak[b := Max(m.peak[b], |Live(ch)|)])
  }

  ghost function Bucket(m: Cmap, key: nat): Chain
    requires Valid(m)
  {
    m.buckets[m.bucketOf(key)]
  }

  ghost function Set(m: Cmap, key: nat, value: nat): Cmap
    requires Valid(m)
  {
    Store(m, key, SetChain(Bucket(m, key), key, value))
  }

  ghost function Del(m: Cmap, key: nat): Cmap
    requires Valid(m)
  {
    Store(m, key, DelChain(Bucket(m, key), key))
  }

  ghost function Get(m: Cmap, key: nat, cb: (nat, nat) -> nat): Cmap
    requires Valid(m)
  {
    Store(m, key, GetChain(Bucket(m, key), key, cb))
  }

  // cmap_alloc, with every bucket head starting null.
  ghost function Alloc(bucketOf: nat -> nat, buckSize: nat, dataSize: nat): Cmap {
    Cmap(bucketOf, seq(buckSize, _ => seq(dataSize, _ => FREE)), dataSize, seq(buckSize, _ => 0))
  }

  lemma {:induction false} FreeChain(n: nat)
    ensures Live(seq(n, _ => FREE)) == multiset{}
  {
    if n > 0 {
      FreeChain(n - 1);
      assert seq(n, _ => FREE)[1..] == seq(n - 1, _ => FREE);
    }
  }

  lemma AllocValid(bucketOf: nat -> nat, buckSize: nat, dataSize: nat)
    requires buckSize > 0 && forall k :: bucketOf(k) < buckSize
    ensures Valid(Alloc(bucketOf, buckSize, dataSize))
  {
    FreeChain(dataSize);
  }

  // A chain that any of the operations may leave in a key's bucket.
  ghost predicate Successor(m: Cmap, key: nat, ch: Chain)
    requires Valid(m)
  {
    var b := m.bucketOf(key);
    && |ch| == Max(m.dataSize, Max(m.peak[b], |Live(ch)|))
    && forall i | 0 <= i < |ch| && ch[i].inUse :: m.bucketOf(ch[i].index) == b
  }

  lemma StoreValid(m: Cmap, key: nat, ch: Chain)
    requires Valid(m) && Successor(m, key, ch)
    ensures Valid(Store(m, key, ch))
  {
  }

  lemma SetSuccessor(m: Cmap, key: nat, value: nat)
    requires Valid(m)
    ensures Successor(m, key, SetChain(Bucket(m, key), key, value))
  {
    var b, ch := m.bucketOf(key), Bucket(m, key);
    var ch' := SetChain(ch, key, value);
    SetLength(ch, key, value, m.dataSize, m.peak[b]);
    forall j | 0 <= j < |ch'| && ch'[j].inUse ensures m.bucketOf(ch'[j].index) == b {
      assert FirstFree(ch) == |ch| && j > 0 ==> ch'[j] == ch[j - 1];
    }
  }

  lemma DelSuccessor(m: Cmap, key: nat)
    requires Valid(m)
    ensures Successor(m, key, DelChain(Bucket(m, key), key))
  {
    var ch := Bucket(m, key);
    DelTakes(ch, key);
    assert Live(ch) + multiset{} == Live(ch);
    SameCount(Live(DelChain(ch, key)), Pair(At(ch, FirstLive(ch, key))), Live(ch), multiset{});
  }

  lemma SameCount(a: multiset<(nat, nat)>, b: multiset<(nat, nat)>, c: multiset<(nat, nat)>, d: multiset<(nat, nat)>)
    requires a + b == c + d
    ensures |a| + |b| == |c| + |d|
  {
    assert |a + b| == |a| + |b| && |c + d| == |c| + |d|;
  }

  lemma GetSuccessor(m: Cmap, key: nat, cb: (nat, nat) -> nat)
    requires Valid(m)
    ensures Successor(m, key, GetChain(Bucket(m, key), key, cb))
  {
    var ch := Bucket(m, key);
    var s := At(ch, FirstLive(ch, key));
    GetReplaces(ch, key, cb);
    SameCount(Live(GetChain(ch, key, cb)), Pair(s), Live(ch), Pair(Updated(s, cb)));
  }

  // Every operation keeps the map valid: each live slot is in the bucket its index hashes
  // to, and every chain's length is the larger of dataSize and the bucket's peak.
  lemma OperationsValid(m: Cmap, key: nat, value: nat, cb: (nat, nat) -> nat)
    requires Valid(m)
    ensures Valid(Set(m, key, value)) && Valid(Del(m, key)) && Valid(Get(m, key, cb))
  {
    SetSuccessor(m, key, value);
    StoreValid(m, key, SetChain(Bucket(m, key), key, value));
    DelSuccessor(m, key);
    StoreValid(m, key, DelChain(Bucket(m, key), key));
    GetSuccessor(m, key, cb);
    StoreValid(m, key, GetChain(Bucket(m, key), key, cb));
  }

  // ---------- what the map holds ----------

  // All live pairs of the map.
  function Total(buckets: seq<Chain>): multiset<(nat, nat)> {
    if buckets == [] then multiset{} else Live(buckets[0]) + Total(buckets[1..])
  }

  lemma {:induction false} TotalReplace(buckets: seq<Chain>, b: nat, ch: Chain)
    requires b < |buckets|
    ensures Total(buckets[b := ch]) + Live(buckets[b]) == Total(buckets) + Live(ch)
    decreases |buckets|
  {
    var buckets' := buckets[b := ch];
    if b == 0 {
      assert buckets'[1..] == buckets[1..];
      Swap(Live(ch), Total(buckets[1..]), Live(buckets[0]));
    } else {
      assert buckets'[1..] == buckets[1..][b - 1 := ch];
      TotalReplace(buckets[1..], b - 1, ch);
      assert Total(buckets') + Live(buckets[b]) == Live(buckets[0]) + (Total(buckets'[1..]) + Live(buckets[b]));
      assert Total(buckets) + Live(ch) == Live(buckets[0]) + (Total(buckets[1..]) + Live(ch));
    }
  }

  // The slot that a lookup of the key stops at, or a free one.
  ghost function Found(m: Cmap, key: nat): Slot
    requires Valid(m)
  {
    At(Bucket(m, key), FirstLive(Bucket(m, key), key))
  }

  // For any keys, set twice or not, the three operations refine a multiset of live pairs:
  // set adds one, del takes one with the key if there is one, get changes one value.
  lemma OperationsOnPairs(m: Cmap, key: nat, value: nat, cb: (nat, nat) -> nat)
    requires Valid(m)
    ensures Total(Set(m, key, value).buckets) == Total(m.buckets) + multiset{(key, value)}
    ensures Total(Del(m, key).buckets) + Pair(Found(m, key)) == Total(m.buckets)
    ensures Total(Get(m, key, cb).buckets) + Pair(Found(m, key)) == Total(m.buckets) + Pair(Updated(Found(m, key), cb))
    ensures Found(m, key).inUse ==> Found(m, key).index == key
    ensures !Found(m, key).inUse ==> forall b, i | 0 <= b < |m.buckets| && 0 <= i < |m.buckets[b]| :: !Matches(m.buckets[b][i], key)
  {
    var b, ch := m.bucketOf(key), Bucket(m, key);
    SetAdds(ch, key, value);
    Exchange(m.buckets, b, SetChain(ch, key, value), multiset{}, multiset{(key, value)});
    DelTakes(ch, key);
    Exchange(m.buckets, b, DelChain(ch, key), Pair(Found(m, key)), multiset{});
    GetReplaces(ch, key, cb);
    Exchange(m.buckets, b, GetChain(ch, key, cb), Pair(Found(m, key)), Pair(Updated(Found(m, key), cb)));
  }

  lemma Exchange(buckets: seq<Chain>, b: nat, ch: Chain, out: multiset<(nat, nat)>, added: multiset<(nat, nat)>)
    requires b < |buckets| && Live(ch) + out == Live(buckets[b]) + added
    ensures Total(buckets[b := ch]) + out == Total(buckets) + added
  {
    TotalReplace(buckets, b, ch);
    Cancel(Total(buckets), Total(buckets[b := ch]), Live(buckets[b]), Live(ch), out, added);
  }

  lemma Cancel(t: multiset<(nat, nat)>, t': multiset<(nat, nat)>, l: multiset<(nat, nat)>, l': multiset<(nat, nat)>,
               out: multiset<(nat, nat)>, added: multiset<(nat, nat)>)
    requires t' + l == t + l' && l' + out == l + added
    ensures t' + out == t + added
  {
    forall x ensures (t' + out)[x] == (t + added)[x] {
      assert (t' + l)[x] == (t + l')[x] && (l' + out)[x] == (l + added)[x];
    }
  }

  // ---------- the finite map that distinct keys represent ----------

  datatype Option = None | Some(value: nat)

  ghost predicate DistinctChain(ch: Chain) {
    forall i, j | 0 <= i < j < |ch| && ch[i].inUse && ch[j].inUse :: ch[i].index != ch[j].index
  }

  // What a lookup of the key finds in a chain.
  function Lookup(ch: Chain, key: nat): Option {
    var i := FirstLive(ch, key);
    if i == |ch| then None else Some(ch[i].value)
  }

  lemma LookupFinds(ch: Chain, i: nat)
    requires DistinctChain(ch) && i < |ch| && ch[i].inUse
    ensures Lookup(ch, ch[i].index) == Some(ch[i].value)
  {
    assert Matches(ch[i], ch[i].index);
  }

  lemma LookupMisses(ch: Chain, key: nat)
    requires forall i | 0 <= i < |ch| :: !Matches(ch[i], key)
    ensures Lookup(ch, key) == None
  {
  }

  lemma SetDistinct(ch: Chain, key: nat, value: nat)
    requires DistinctChain(ch) && Lookup(ch, key) == None
    ensures DistinctChain(SetChain(ch, key, value))
  {
    if FirstFree(ch) == |ch| {
      var ch' := SetChain(ch, key, value);
      assert forall i | 0 < i < |ch'| :: ch'[i] == ch[i - 1];
    }
  }

  lemma SetLookup(ch: Chain, key: nat, value: nat, k: nat)
    requires DistinctChain(ch) && Lookup(ch, key) == None
    ensures Lookup(SetChain(ch, key, value), k) == if k == key then Some(value) else Lookup(ch, k)
  {
    SetDistinct(ch, key, value);
    var f, ch' := FirstFree(ch), SetChain(ch, key, value);
    var shift, p := if f == |ch| then 1 else 0, if f == |ch| then 0 else f;
    assert ch'[p] == Slot(key, value, true);
    if k == key {
      LookupFinds(ch', p);
    } else {
      var i := FirstLive(ch, k);
      if i < |ch| {
        assert ch'[i + shift] == ch[i];
        LookupFinds(ch', i + shift);
      } else {
        assert forall j | 0 <= j < |ch'| && j != p :: ch'[j] == ch[j - shift];
        LookupMisses(ch', k);
      }
    }
  }

  lemma DelLookup(ch: Chain, key: nat, k: nat)
    requires DistinctChain(ch)
    ensures DistinctChain(DelChain(ch, key))
    ensures Lookup(DelChain(ch, key), k) == if k == key then None else Lookup(ch, k)
  {
    var d, i, ch' := FirstLive(ch, key), FirstLive(ch, k), DelChain(ch, key);
    if k != key && i < |ch| {
      assert ch'[i] == ch[i];
      LookupFinds(ch', i);
    } else {
      LookupMisses(ch', k);
    }
  }

  lemma GetLookup(ch: Chain, key: nat, cb: (nat, nat) -> nat, k: nat)
    requires DistinctChain(ch)
    ensures DistinctChain(GetChain(ch, key, cb))
    ensures Lookup(GetChain(ch, key, cb), k) ==
            if k == key && Lookup(ch, key).Some? then Some(cb(key, Lookup(ch, key).value)) else Lookup(ch, k)
  {
    var i, ch' := FirstLive(ch, k), GetChain(ch, key, cb);
    if i < |ch| {
      LookupFinds(ch', i);
    } else {
      LookupMisses(ch', k);
    }
  }

  // The map's live indices are distinct, and lookups answer as f does.
  ghost predicate Represents(m: Cmap, f: map<nat, nat>)
    requires Valid(m)
  {
    && (forall b | 0 <= b < |m.buckets| :: DistinctChain(m.buckets[b]))
    && (forall k :: Lookup(Bucket(m, k), k) == Answer(f, k))
  }

  lemma AllocRepresents(bucketOf: nat -> nat, buckSize: nat, dataSize: nat)
    requires buckSize > 0 && forall k :: bucketOf(k) < buckSize
    ensures Valid(Alloc(bucketOf, buckSize, dataSize)) && Represents(Alloc(bucketOf, buckSize, dataSize), map[])
  {
    AllocValid(bucketOf, buckSize, dataSize);
  }

  ghost function Answer(f: map<nat, nat>, k: nat): Option {
    if k in f then Some(f[k]) else None
  }

  lemma StoreRepresents(m: Cmap, f: map<nat, nat>, key: nat, ch: Chain, f': map<nat, nat>)
    requires Valid(m) && Represents(m, f) && Successor(m, key, ch) && DistinctChain(ch)
    requires forall k | m.bucketOf(k) == m.bucketOf(key) :: Lookup(ch, k) == Answer(f', k)
    requires forall k | k != key :: Answer(f', k) == Answer(f, k)
    ensures Valid(Store(m, key, ch)) && Represents(Store(m, key, ch), f')
  {
    StoreValid(m, key, ch);
    var m' := Store(m, key, ch);
    forall k ensures Lookup(Bucket(m', k), k) == Answer(f', k) {
      if m.bucketOf(k) != m.bucketOf(key) {
        assert Bucket(m', k) == Bucket(m, k);
      }
    }
  }

  // When a key is set only while it is absent, the operations refine a finite map.
  lemma SetRefines(m: Cmap, f: map<nat, nat>, key: nat, value: nat)
    requires Valid(m) && Represents(m, f) && key !in f
    ensures Valid(Set(m, key, value)) && Represents(Set(m, key, value), f[key := value])
  {
    var ch := Bucket(m, key);
    SetSuccessor(m, key, value);
    assert Lookup(Bucket(m, key), key) == Answer(f, key);
    SetDistinct(ch, key, value);
    forall k | m.bucketOf(k) == m.bucketOf(key) ensures Lookup(SetChain(ch, key, value), k) == Answer(f[key := value], k) {
      assert Lookup(Bucket(m, k), k) == Answer(f, k);
      SetLookup(ch, key, value, k);
    }
    StoreRepresents(m, f, key, SetChain(ch, key, value), f[key := value]);
  }

  lemma DelRefines(m: Cmap, f: map<nat, nat>, key: nat)
    requires Valid(m) && Represents(m, f)
    ensures Valid(Del(m, key)) && Represents(Del(m, key), f - {key})
  {
    var ch := Bucket(m, key);
    DelSuccessor(m, key);
    DelLookup(ch, key, key);
    forall k | m.bucketOf(k) == m.bucketOf(key) ensures Lookup(DelChain(ch, key), k) == Answer(f - {key}, k) {
      assert Lookup(Bucket(m, k), k) == Answer(f, k);
      DelLookup(ch, key, k);
    }
    StoreRepresents(m, f, key, DelChain(ch, key), f - {key});
  }

  // A get whose callback stores a new value; of an absent key it changes nothing.
  lemma GetRefines(m: Cmap, f: map<nat, nat>, key: nat, cb: (nat, nat) -> nat)
    requires Valid(m) && Represents(m, f)
    ensures Valid(Get(m, key, cb))
    ensures Represents(Get(m, key, cb), if key in f then f[key := cb(key, f[key])] else f)
  {
    var ch := Bucket(m, key);
    var f' := if key in f then f[key := cb(key, f[key])] else f;
    GetSuccessor(m, key, cb);
    assert Lookup(Bucket(m, key), key) == Answer(f, key);
    GetLookup(ch, key, cb, key);
    forall k | m.bucketOf(k) == m.bucketOf(key) ensures Lookup(GetChain(ch, key, cb), k) == Answer(f', k) {
      assert Lookup(Bucket(m, k), k) == Answer(f, k);
      GetLookup(ch, key, cb, k);
    }
    StoreRepresents(m, f, key, GetChain(ch, key, cb), f');
  }

  // ---------- runs ----------

  datatype Op = SetOp(key: nat, value: nat) | DelOp(key: nat) | GetOp(key: nat, cb: (nat, nat) -> nat)

  ghost function Do(m: Cmap, op: Op): (m': Cmap)
    requires Valid(m)
    ensures Valid(m') && |m'.buckets| == |m.buckets| && m'.dataSize == m.dataSize
  {
    OperationsValid(m, op.key, if op.SetOp? then op.value else 0, if op.GetOp? then op.cb else (i, v) => v);
    match op
    case SetOp(key, value) => Set(m, key, value)
    case DelOp(key) => Del(m, key)
    case GetOp(key, cb) => Get(m, key, cb)
  }

  ghost function Run(m: Cmap, ops: seq<Op>): (m': Cmap)
    requires Valid(m)
    ensures Valid(m') && |m'.buckets| == |m.buckets| && m'.dataSize == m.dataSize
    decreases |ops|
  {
    if ops == [] then m else Run(Do(m, ops[0]), ops[1..])
  }

  // The most live slots that bucket b holds at any point of the run.
  ghost function PeakLive(m: Cmap, ops: seq<Op>, b: nat): nat
    requires Valid(m) && b < |m.buckets|
    decreases |ops|
  {
    if ops == [] then |Live(m.buckets[b])|
    else Max(|Live(m.buckets[b])|, PeakLive(Do(m, ops[0]), ops[1..], b))
  }

  lemma StorePeak(m: Cmap, key: nat, ch: Chain, b: nat)
    requires Valid(m) && b < |m.buckets|
    ensures Store(m, key, ch).peak[b] == Max(m.peak[b], |Live(Store(m, key, ch).buckets[b])|)
  {
  }

  lemma DoPeak(m: Cmap, op: Op, b: nat)
    requires Valid(m) && b < |m.buckets|
    ensures Do(m, op).peak[b] == Max(m.peak[b], |Live(Do(m, op).buckets[b])|)
    ensures |Live(m.buckets[b])| <= m.peak[b]
  {
    match op
    case SetOp(key, value) => StorePeak(m, key, SetChain(Bucket(m, key), key, value), b);
    case DelOp(key) => StorePeak(m, key, DelChain(Bucket(m, key), key), b);
    case GetOp(key, cb) => StorePeak(m, key, GetChain(Bucket(m, key), key, cb), b);
  }

  lemma {:induction false} PeakTracks(m: Cmap, ops: seq<Op>, b: nat)
    requires Valid(m) && b < |m.buckets|
    ensures Run(m, ops).peak[b] == Max(m.peak[b], PeakLive(m, ops, b))
    decreases |ops|
  {
    if ops != [] {
      var m' := Do(m, ops[0]);
      PeakTracks(m', ops[1..], b);
      DoPeak(m, ops[0], b);
      PeakAtLeast(m', ops[1..], b);
    }
  }

  lemma PeakAtLeast(m: Cmap, ops: seq<Op>, b: nat)
    requires Valid(m) && b < |m.buckets|
    ensures |Live(m.buckets[b])| <= PeakLive(m, ops, b)
  {
  }

  // In every run from a fresh map, each chain is as long as the larger of data_size and
  // the most live entries its bucket ever held: slots are reused before a chain grows.
  lemma ChainLength(bucketOf: nat -> nat, buckSize: nat, dataSize: nat, ops: seq<Op>, b: nat)
    requires buckSize > 0 && (forall k :: bucketOf(k) < buckSize) && b < buckSize
    ensures Valid(Alloc(bucketOf, buckSize, dataSize))
    ensures var m := Alloc(bucketOf, buckSize, dataSize);
            |Run(m, ops).buckets[b]| == Max(dataSize, PeakLive(m, ops, b))
  {
    AllocValid(bucketOf, buckSize, dataSize);
    PeakTracks(Alloc(bucketOf, buckSize, dataSize), ops, b);
  }
}
