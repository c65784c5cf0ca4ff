/**
 The operations of data-hashmap-concurrent/cmap.c as code on linked nodes, each run under
 its bucket's lock.
 */
module StripedCode {
  import opened Fnv
  import opened StripedMap
  import opened StripedThreads

  // BOGUS_DATA. The ghost fields say where the node is: in which bucket, and how many nodes
  // come after it there. So no node can be in two buckets or twice in one.
  class Data {
    var index: nat
    var value: nat
    var inUse: bool
    var next: Data?
    ghost var home: Bucket?
    ghost var after: nat

    constructor (slot: Slot, next: Data?)
      ensures Read() == slot && this.next == next
    {
      index, value, inUse, this.next := slot.index, slot.value, slot.inUse, next;
    }

    function Read(): Slot
      reads this
    {
      Slot(index, value, inUse)
    }
  }

  datatype Shape = Sound | Broken

  // BOGUS_BUCKET. Its list has exactly the nodes ns, and they hold contents.
  class Bucket {
    var head: Data?
    ghost var ns: seq<Data>
    ghost var contents: Chain

    ghost predicate Valid()
      reads this, ns
    {
      && |contents| == |ns| && head == Nth(0)
      && (forall i | 0 <= i < |ns| :: ns[i].home == this && ns[i].after == |ns| - 1 - i && ns[i].Read() == contents[i])
      && (forall i, j | 0 <= i < j < |ns| && j == i + 1 :: ns[i].next == ns[j])
      && (ns != [] ==> ns[|ns| - 1].next == null)
    }

    ghost function Shape(ch: Chain, nodes: set<Data>): Shape
      reads this, ns
    {
      if Valid() && contents == ch && forall k | 0 <= k < |ns| :: ns[k] in nodes then Sound else Broken
    }

    // A well-linked list of nodes among these, with the contents ch.
    ghost predicate Holds(ch: Chain, nodes: set<Data>)
      reads this, ns
    {
      Shape(ch, nodes) == Sound
    }

    ghost function Nth(i: nat): Data?
      reads this
    {
      if i < |ns| then ns[i] else null
    }

    constructor ()
      ensures Valid() && contents == []
    {
      head, ns, contents := null, [], [];
    }

    // A new node in front of the list.
    method Prepend(slot: Slot)
      requires Valid()
      modifies this
      ensures Valid() && contents == [slot] + old(contents)
      ensures |ns| == |old(ns)| + 1 && fresh(ns[0]) && ns == [ns[0]] + old(ns)
    {
      var data := new Data(slot, head);
      data.home, data.after := this, |ns|;
      head := data;
      ns, contents := [data] + ns, [slot] + contents;
    }

    // New contents for the i-th node, which keeps its place.
    method Overwrite(data: Data, slot: Slot, ghost i: nat)
      requires Valid() && i < |ns| && data == ns[i]
      modifies this`contents, data`index, data`value, data`inUse
      ensures Valid() && contents == old(contents)[i := slot]
    {
      Once(this);
      data.index := slot.index;
      data.value := slot.value;
      data.inUse := slot.inUse;
      contents := contents[i := slot];
    }

    // The walk of cmap_set to the first free node.
    method Free() returns (data: Data?, ghost i: nat)
      requires Valid()
      ensures i == FirstFree(contents) && data == Nth(i)
    {
      data, i := head, 0;
      while data != null && data.inUse
        invariant 0 <= i <= FirstFree(contents) && data == Nth(i)
        decreases |ns| - i
      {
        data, i := data.next, i + 1;
      }
    }

    // The walk of cmap_get and cmap_del to the first live node with the key.
    method Seek(key: nat) returns (data: Data?, ghost i: nat)
      requires Valid()
      ensures i == FirstLive(contents, key) && data == Nth(i)
    {
      data, i := head, 0;
      while data != null && !(data.inUse && data.index == key)
        invariant 0 <= i <= FirstLive(contents, key) && data == Nth(i)
        decreases |ns| - i
      {
        data, i := data.next, i + 1;
      }
    }

    // The locked part of cmap_set.
    method Set(index: nat, value: nat)
      requires Valid()
      modifies this, ns
      ensures Valid() && contents == SetChain(old(contents), index, value)
      ensures forall k | 0 <= k < |ns| :: ns[k] in old(ns) || fresh(ns[k])
    {
      var data, i := Free();
      if data == null {
        Prepend(Slot(index, value, true));
      } else {
        Overwrite(data, Slot(index, value, true), i);
      }
    }

    // The locked part of cmap_get with a callback that stores a new value.
    method Get(key: nat, cb: (nat, nat) -> nat) returns (found: bool)
      requires Valid()
      modifies this`contents, ns
      ensures Valid() && contents == GetChain(old(contents), key, cb)
      ensures found <==> Lookup(old(contents), key).Some?
    {
      var data, i := Seek(key);
      found := data != null;
      if found {
        Overwrite(data, data.Read().(value := cb(data.index, data.value)), i);
      }
    }

    // The locked part of cmap_del.
    method Del(key: nat) returns (found: bool)
      requires Valid()
      modifies this`contents, ns
      ensures Valid() && contents == DelChain(old(contents), key)
      ensures found <==> Lookup(old(contents), key).Some?
    {
      var data, i := Seek(key);
      found := data != null;
      if found {
        Overwrite(data, Slot(0, 0, false), i);
      }
    }

    // One round of the scan that ends main.
    method Scan() returns (zero: bool)
      requires Valid()
      ensures zero <==> ZeroChain(contents)
    {
      var data := head;
      ghost var i := 0;
      while data != null
        invariant 0 <= i <= |ns| && data == Nth(i)
        invariant forall k | 0 <= k < i :: contents[k].value == 0
        decreases |ns| - i
      {
        if data.value != 0 {
          assert contents[i].value != 0;
          return false;
        }
        data, i := data.next, i + 1;
      }
      zero := true;
    }
  }

  // Different buckets have no node in common.
  lemma Separate(a: Bucket, b: Bucket)
    requires a.Valid() && b.Valid() && a != b
    ensures forall i, j | 0 <= i < |a.ns| && 0 <= j < |b.ns| :: a.ns[i] != b.ns[j]
  {
  }

  lemma SeparateAll(buck: seq<Bucket>, b: nat, chains: seq<Chain>, nodes: set<Data>)
    requires b < |buck| == |chains| && (forall i, j | 0 <= i < j < |buck| :: buck[i] != buck[j])
    requires forall i | 0 <= i < |buck| :: buck[i].Holds(chains[i], nodes)
    ensures forall i, k, l | 0 <= i < |buck| && i != b && 0 <= k < |buck[i].ns| && 0 <= l < |buck[b].ns| ::
              buck[i].ns[k] != buck[b].ns[l]
  {
    assert buck[b].Holds(chains[b], nodes);
    forall i | 0 <= i < |buck| && i != b
      ensures forall k, l | 0 <= k < |buck[i].ns| && 0 <= l < |buck[b].ns| :: buck[i].ns[k] != buck[b].ns[l]
    {
      assert buck[i].Holds(chains[i], nodes);
      Separate(buck[i], buck[b]);
    }
  }

  lemma HoldsMore(b: Bucket, ch: Chain, nodes: set<Data>, more: set<Data>)
    requires b.Holds(ch, nodes) && nodes <= more
    ensures b.Holds(ch, more)
  {
  }

  // A node is in its list only once, so the list ends.
  lemma Once(b: Bucket)
    requires b.Valid()
    ensures forall i, j | 0 <= i < j < |b.ns| :: b.ns[i] != b.ns[j]
  {
  }

  // BOGUS_CMAP. An operation changes the bucket of its key and the nodes of that bucket only.
  // All nodes of the table are among nodes.
  class Table {
    const buck: seq<Bucket>
    ghost var nodes: set<Data>

    // cmap_alloc, with every bucket head starting null.
    constructor (buckSize: nat, dataSize: nat)
      requires buckSize > 0
      ensures |buck| == buckSize && forall i, j | 0 <= i < j < |buck| :: buck[i] != buck[j]
      ensures forall i | 0 <= i < |buck| :: fresh(buck[i]) && buck[i].Holds(seq(dataSize, _ => FREE), nodes)
      ensures fresh(nodes)
    {
      var bs: seq<Bucket> := [];
      ghost var all: set<Data> := {};
      while |bs| < buckSize
        invariant |bs| <= buckSize
        invariant forall k | 0 <= k < |bs| :: fresh(bs[k]) && bs[k].Holds(seq(dataSize, _ => FREE), all)
        invariant fresh(all)
        invariant forall k, l | 0 <= k < l < |bs| :: bs[k] != bs[l]
      {
        var b := NewBucket(dataSize);
        bs := bs + [b];
        all := all + set d | d in b.ns;
      }
      buck, nodes := bs, all;
    }

    static method NewBucket(dataSize: nat) returns (b: Bucket)
      ensures fresh(b) && b.Valid() && b.contents == seq(dataSize, _ => FREE) && forall k | 0 <= k < |b.ns| :: fresh(b.ns[k])
    {
      b := new Bucket();
      var j := 0;
      while j < dataSize
        invariant 0 <= j <= dataSize && fresh(b) && b.Valid() && b.contents == seq(j, _ => FREE)
        invariant forall k | 0 <= k < |b.ns| :: fresh(b.ns[k])
      {
        b.Prepend(FREE);
        j := j + 1;
      }
    }

    // The bucket of a key.
    ghost function Of(key: nat): Bucket
      requires buck != []
    {
      buck[BucketOf(key, |buck|)]
    }

    // It is found from the hash of the bytes of the key's index.
    method Index(key: nat) returns (idx: nat)
      requires buck != []
      ensures idx == BucketOf(key, |buck|) && buck[idx] == Of(key)
    {
      idx := HashFunc(KeyBytes(key), |buck|);
    }

    // cmap_set
    method Set(index: nat, value: nat) returns (idx: int)
      requires buck != [] && Of(index).Valid()
      modifies Of(index), Of(index).ns
      ensures Of(index).Valid() && Of(index).contents == SetChain(old(Of(index).contents), index, value)
      ensures forall k | 0 <= k < |Of(index).ns| :: Of(index).ns[k] in old(Of(index).ns) || fresh(Of(index).ns[k])
      ensures idx == BucketOf(index, |buck|)
    {
      idx := Index(index);
      buck[idx].Set(index, value);
    }

    // cmap_get; a miss returns -1.
    method Get(key: nat, cb: (nat, nat) -> nat) returns (idx: int)
      requires buck != [] && Of(key).Valid()
      modifies Of(key)`contents, Of(key).ns
      ensures Of(key).Valid() && Of(key).contents == GetChain(old(Of(key).contents), key, cb)
      ensures idx == if Lookup(old(Of(key).contents), key).None? then -1 else BucketOf(key, |buck|)
    {
      idx := Index(key);
      var found := buck[idx].Get(key, cb);
      if !found {
        idx := -1;
      }
    }

    // cmap_del; a miss returns -1.
    method Del(key: nat) returns (idx: int)
      requires buck != [] && Of(key).Valid()
      modifies Of(key)`contents, Of(key).ns
      ensures Of(key).Valid() && Of(key).contents == DelChain(old(Of(key).contents), key)
      ensures idx == if Lookup(old(Of(key).contents), key).None? then -1 else BucketOf(key, |buck|)
    {
      idx := Index(key);
      var found := buck[idx].Del(key);
      if !found {
        idx := -1;
      }
    }

    ghost predicate Apart() {
      buck != [] && forall i, j | 0 <= i < j < |buck| :: buck[i] != buck[j]
    }

    // cmap_set seen from the whole table: the chain of the key's bucket b changes and no other.
    method SetModel(index: nat, value: nat, ghost b: nat, ghost chains: seq<Chain>)
      requires Apart() && b == BucketOf(index, |buck|) && |buck| == |chains| && forall i | 0 <= i < |buck| :: buck[i].Holds(chains[i], nodes)
      modifies this, Of(index), Of(index).ns
      ensures fresh(nodes - old(nodes)) && nodes >= old(nodes)
      ensures forall i | 0 <= i < |buck| :: buck[i].Holds(chains[b := SetChain(chains[b], index, value)][i], nodes)
    {
      SeparateAll(buck, b, chains, nodes);
      assert buck[b].Holds(chains[b], nodes);
      var idx := Set(index, value);
      AddNodes(b, chains, chains[b := SetChain(chains[b], index, value)]);
    }

    // The nodes of bucket b may be new.
    ghost method AddNodes(b: nat, before: seq<Chain>, chains: seq<Chain>)
      requires b < |buck| == |before| && chains == before[b := buck[b].contents] && buck[b].Valid()
      requires forall i | 0 <= i < |buck| && i != b :: buck[i].Holds(before[i], nodes)
      modifies this`nodes
      ensures nodes == old(nodes) + set d | d in buck[b].ns
      ensures forall i | 0 <= i < |buck| :: buck[i].Holds(chains[i], nodes)
    {
      ghost var few := nodes;
      nodes := nodes + set d | d in buck[b].ns;
      forall i | 0 <= i < |buck| ensures buck[i].Holds(chains[i], nodes) {
        if i != b {
          HoldsMore(buck[i], before[i], few, nodes);
        }
      }
    }

    // cmap_get seen from the whole table.
    method GetModel(key: nat, cb: (nat, nat) -> nat, ghost b: nat, ghost chains: seq<Chain>) returns (found: bool)
      requires Apart() && b == BucketOf(key, |buck|) && |buck| == |chains| && forall i | 0 <= i < |buck| :: buck[i].Holds(chains[i], nodes)
      modifies Of(key), Of(key).ns
      ensures forall i | 0 <= i < |buck| :: buck[i].Holds(chains[b := GetChain(chains[b], key, cb)][i], nodes)
      ensures found <==> Lookup(chains[b], key).Some?
    {
      SeparateAll(buck, b, chains, nodes);
      assert buck[b].Holds(chains[b], nodes);
      var idx := Get(key, cb);
      found := idx >= 0;
    }

    // The scan that ends main: 0 exactly when no slot, used or free, holds a value.
    method FinalScan() returns (result: int)
      requires forall i | 0 <= i < |buck| :: buck[i].Valid()
      ensures result == 0 <==> forall i | 0 <= i < |buck| :: ZeroChain(buck[i].contents)
    {
      var i := 0;
      while i < |buck|
        invariant 0 <= i <= |buck| && forall b | 0 <= b < i :: ZeroChain(buck[b].contents)
      {
        var zero := buck[i].Scan();
        if !zero {
          return -1;
        }
        i := i + 1;
      }
      result := 0;
    }
  }

  // ---------- main ----------

  // m is a valid model of a table with size buckets that hashes as the code does.
  ghost predicate Hashed(m: Cmap, size: nat) {
    Valid(m) && |m.buckets| == size && forall k {:trigger BucketOf(k, size)} :: size > 0 && m.bucketOf(k) == BucketOf(k, size)
  }

  // A token: the predicates of each topic can be looked into only where one is mentioned.
  datatype Topic = Inserting | Moves

  predicate Token(topic: Topic, u: nat) {
    true
  }

  ghost function FillingShape(m: Cmap, size: nat, i: nat, n: nat, end: Cmap): Shape {
    if forall u: nat {:trigger Token(Inserting, u)} | Token(Inserting, u) :: Hashed(m, size) && i <= n && Filled(m, i, n) == end
    then Sound else Broken
  }

  // From m on, the insertions from i to n lead to end.
  ghost predicate Filling(m: Cmap, size: nat, i: nat, n: nat, end: Cmap) {
    FillingShape(m, size, i, n, end) == Sound
  }

  ghost function MovingShape(n: nat, s: Sys, size: nat, moves: seq<Move>, end: Sys): Shape {
    if forall u: nat {:trigger Token(Moves, u)} | Token(Moves, u) :: Hashed(s.m, size) && Exec(n, s, moves) == end
    then Sound else Broken
  }

  // From s on, the moves lead to end.
  ghost predicate Moving(n: nat, s: Sys, size: nat, moves: seq<Move>, end: Sys) {
    MovingShape(n, s, size, moves, end) == Sound
  }

  lemma FillStep(m: Cmap, size: nat, i: nat, n: nat, end: Cmap) returns (b: nat, m': Cmap)
    requires Filling(m, size, i, n, end) && i < n && size > 0
    ensures Filling(m', size, i + 1, n, end)
    ensures b == BucketOf(i, size) && |m.buckets| == size && m'.buckets == m.buckets[b := SetChain(m.buckets[b], i, 0)]
  {
    assert Token(Inserting, 0);
    b, m' := BucketOf(i, size), Do(m, SetOp(i, 0));
    assert m.bucketOf(i) == b;
  }

  lemma FillEnd(m: Cmap, size: nat, n: nat, end: Cmap)
    requires Filling(m, size, n, n, end)
    ensures m == end
  {
    assert Token(Inserting, 0);
  }

  // What a round of thread t does to the thread, after a lookup in the chain ch.
  function Advanced(threads: seq<Thread>, t: nat, ch: Chain): seq<Thread>
    requires t < |threads| && threads[t].Going?
  {
    threads[t := if Lookup(ch, threads[t].i).None? then Failed else Going(threads[t].i + 1)]
  }

  lemma GetHashed(m: Cmap, size: nat, key: nat, cb: (nat, nat) -> nat) returns (b: nat, m': Cmap)
    requires Hashed(m, size) && size > 0
    ensures m' == Get(m, key, cb) && Hashed(m', size) && b == BucketOf(key, size) && StripedMap.Bucket(m, key) == m.buckets[b]
    ensures m'.buckets == m.buckets[b := GetChain(m.buckets[b], key, cb)]
  {
    b, m' := BucketOf(key, size), Get(m, key, cb);
    assert m.bucketOf(key) == b;
    OperationsValid(m, key, 0, cb);
  }

  lemma IncreaseStep(n: nat, s: Sys, size: nat, t: nat, rest: seq<Move>, end: Sys) returns (b: nat, m': Cmap)
    requires Moving(n, s, size, [Increase(t)] + rest, end) && Enabled(n, s.inc, t) && size > 0
    ensures b == BucketOf(s.inc[t].i, size) && |s.m.buckets| == size
    ensures m'.buckets == s.m.buckets[b := GetChain(s.m.buckets[b], s.inc[t].i, IncFunc)]
    ensures Moving(n, Sys(m', Advanced(s.inc, t, s.m.buckets[b]), s.dec), size, rest, end)
  {
    assert Token(Moves, 0);
    assert ([Increase(t)] + rest)[1..] == rest;
    b, m' := GetHashed(s.m, size, s.inc[t].i, IncFunc);
    assert Step(n, s, Increase(t)) == Sys(m', Advanced(s.inc, t, s.m.buckets[b]), s.dec);
  }

  lemma DecreaseStep(n: nat, s: Sys, size: nat, t: nat, rest: seq<Move>, end: Sys) returns (b: nat, m': Cmap)
    requires Moving(n, s, size, [Decrease(t)] + rest, end) && Enabled(n, s.dec, t) && size > 0
    ensures b == BucketOf(s.dec[t].i, size) && |s.m.buckets| == size
    ensures m'.buckets == s.m.buckets[b := GetChain(s.m.buckets[b], s.dec[t].i, DecFunc)]
    ensures Moving(n, Sys(m', s.inc, Advanced(s.dec, t, s.m.buckets[b])), size, rest, end)
  {
    assert Token(Moves, 0);
    assert ([Decrease(t)] + rest)[1..] == rest;
    b, m' := GetHashed(s.m, size, s.dec[t].i, DecFunc);
    assert Step(n, s, Decrease(t)) == Sys(m', s.inc, Advanced(s.dec, t, s.m.buckets[b]));
  }

  lemma NoStep(n: nat, s: Sys, size: nat, move: Move, rest: seq<Move>, end: Sys)
    requires Moving(n, s, size, [move] + rest, end) && !Enabled(n, if move.Increase? then s.inc else s.dec, move.t)
    ensures Moving(n, s, size, rest, end)
  {
    assert Token(Moves, 0);
    assert ([move] + rest)[1..] == rest;
  }

  lemma MovesEnd(n: nat, s: Sys, size: nat, end: Sys)
    requires Moving(n, s, size, [], end)
    ensures s == end
  {
    assert Token(Moves, 0);
  }

  // The insertions of main, before any thread starts.
  method Fill(table: Table, n: nat, ghost start: Cmap, ghost end: Cmap)
    requires table.Apart() && Filling(start, |table.buck|, 0, n, end) && |start.buckets| == |table.buck|
    requires forall i | 0 <= i < |table.buck| :: table.buck[i].Holds(start.buckets[i], table.nodes)
    modifies table, table.buck, table.nodes
    ensures |end.buckets| == |table.buck| && fresh(table.nodes - old(table.nodes))
    ensures forall i | 0 <= i < |table.buck| :: table.buck[i].Holds(end.buckets[i], table.nodes)
  {
    ghost var m := start;
    var i := 0;
    while i < n
      invariant 0 <= i <= n && Filling(m, |table.buck|, i, n, end) && |m.buckets| == |table.buck|
      invariant fresh(table.nodes - old(table.nodes))
      invariant forall b | 0 <= b < |table.buck| :: table.buck[b].Holds(m.buckets[b], table.nodes)
    {
      m := Insert(table, i, n, m, end);
      i := i + 1;
    }
    FillEnd(m, |table.buck|, n, end);
  }

  method Insert(table: Table, i: nat, ghost n: nat, ghost m: Cmap, ghost end: Cmap) returns (ghost m': Cmap)
    requires table.Apart() && i < n && Filling(m, |table.buck|, i, n, end) && |m.buckets| == |table.buck|
    requires forall b | 0 <= b < |table.buck| :: table.buck[b].Holds(m.buckets[b], table.nodes)
    modifies table, table.buck, table.nodes
    ensures Filling(m', |table.buck|, i + 1, n, end) && |m'.buckets| == |table.buck| && fresh(table.nodes - old(table.nodes))
    ensures forall b | 0 <= b < |table.buck| :: table.buck[b].Holds(m'.buckets[b], table.nodes)
  {
    ghost var b;
    b, m' := FillStep(m, |table.buck|, i, n, end);
    assert table.buck[b].Holds(m.buckets[b], table.nodes);
    table.SetModel(i, 0, b, m.buckets);
  }

  // One round of increase_thread or decrease_thread.
  method Round(table: Table, threads: seq<Thread>, t: nat, cb: (nat, nat) -> nat, ghost b: nat, ghost chains: seq<Chain>) returns (threads': seq<Thread>)
    requires table.Apart() && t < |threads| && threads[t].Going? && b == BucketOf(threads[t].i, |table.buck|) && |table.buck| == |chains|
    requires forall i | 0 <= i < |table.buck| :: table.buck[i].Holds(chains[i], table.nodes)
    modifies table.buck, table.nodes
    ensures threads' == Advanced(threads, t, chains[b])
    ensures forall i | 0 <= i < |table.buck| :: table.buck[i].Holds(chains[b := GetChain(chains[b], threads[t].i, cb)][i], table.nodes)
  {
    assert table.buck[b].Holds(chains[b], table.nodes);
    var key := threads[t].i;
    var found := table.GetModel(key, cb, b, chains);
    threads' := threads[t := if found then Going(key + 1) else Failed];
  }

  // The threads under any interleaving: each move runs one of them through a round.
  method Run(table: Table, n: nat, incs: seq<Thread>, decs: seq<Thread>, moves: seq<Move>, ghost start: Sys, ghost end: Sys)
    returns (inc: seq<Thread>, dec: seq<Thread>)
    requires table.Apart() && Moving(n, start, |table.buck|, moves, end) && start.inc == incs && start.dec == decs
    requires |start.m.buckets| == |table.buck| && forall i | 0 <= i < |table.buck| :: table.buck[i].Holds(start.m.buckets[i], table.nodes)
    modifies table.buck, table.nodes
    ensures inc == end.inc && dec == end.dec
    ensures |end.m.buckets| == |table.buck| && forall i | 0 <= i < |table.buck| :: table.buck[i].Holds(end.m.buckets[i], table.nodes)
  {
    inc, dec := incs, decs;
    ghost var m := start.m;
    var i := 0;
    while i < |moves|
      invariant 0 <= i <= |moves| && Moving(n, Sys(m, inc, dec), |table.buck|, moves[i..], end)
      invariant |m.buckets| == |table.buck| && forall b | 0 <= b < |table.buck| :: table.buck[b].Holds(m.buckets[b], table.nodes)
    {
      assert moves[i..] == [moves[i]] + moves[i + 1..];
      m, inc, dec := Perform(table, n, inc, dec, moves[i], moves[i + 1..], m, end);
      i := i + 1;
    }
    MovesEnd(n, Sys(m, inc, dec), |table.buck|, end);
  }

  method Perform(table: Table, n: nat, inc: seq<Thread>, dec: seq<Thread>, move: Move, ghost rest: seq<Move>, ghost m: Cmap, ghost end: Sys)
    returns (ghost m': Cmap, inc': seq<Thread>, dec': seq<Thread>)
    requires table.Apart() && Moving(n, Sys(m, inc, dec), |table.buck|, [move] + rest, end)
    requires |m.buckets| == |table.buck| && forall i | 0 <= i < |table.buck| :: table.buck[i].Holds(m.buckets[i], table.nodes)
    modifies table.buck, table.nodes
    ensures Moving(n, Sys(m', inc', dec'), |table.buck|, rest, end)
    ensures |m'.buckets| == |table.buck| && forall i | 0 <= i < |table.buck| :: table.buck[i].Holds(m'.buckets[i], table.nodes)
  {
    m', inc', dec' := m, inc, dec;
    var threads := if move.Increase? then inc else dec;
    var t := move.t;
    if !(t < |threads| && threads[t].Going? && threads[t].i < n) {
      NoStep(n, Sys(m, inc, dec), |table.buck|, move, rest, end);
    } else if move.Increase? {
      ghost var b;
      b, m' := IncreaseStep(n, Sys(m, inc, dec), |table.buck|, t, rest, end);
      inc' := Round(table, inc, t, IncFunc, b, m.buckets);
    } else {
      ghost var b;
      b, m' := DecreaseStep(n, Sys(m, inc, dec), |table.buck|, t, rest, end);
      dec' := Round(table, dec, t, DecFunc, b, m.buckets);
    }
  }

  lemma Begins(bucketOf: nat -> nat, buckSize: nat, dataSize: nat, n: nat, s: Sys, moves: seq<Move>)
    requires buckSize > 0 && (forall k {:trigger BucketOf(k, buckSize)} :: bucketOf(k) == BucketOf(k, buckSize))
    requires HashFits(bucketOf, buckSize) && Valid(s.m) && s.m == Start(bucketOf, buckSize, dataSize, n, 0, 0).m
    ensures Filling(Alloc(bucketOf, buckSize, dataSize), buckSize, 0, n, s.m)
    ensures Moving(n, s, buckSize, moves, Exec(n, s, moves))
  {
    AllocValid(bucketOf, buckSize, dataSize);
    FilledHashes(Alloc(bucketOf, buckSize, dataSize), 0, n);
  }

  lemma {:induction false} FilledHashes(m: Cmap, i: nat, n: nat)
    requires Valid(m) && i <= n
    ensures Filled(m, i, n).bucketOf == m.bucketOf && |Filled(m, i, n).buckets| == |m.buckets|
    decreases n - i
  {
    if i < n {
      FilledHashes(Do(m, SetOp(i, 0)), i + 1, n);
    }
  }

  // main under any interleaving of its threads: no lookup misses, and once as many
  // increment as decrement threads are done the scan returns 0.
  method CheckedRun(buckSize: nat, dataSize: nat, n: nat, incs: nat, decs: nat, moves: seq<Move>)
    returns (inc: seq<Thread>, dec: seq<Thread>, result: int)
    requires buckSize > 0
    ensures |inc| == incs && |dec| == decs && Within(n, inc) && Within(n, dec)
    ensures incs == decs && Done(n, inc) && Done(n, dec) ==> result == 0
  {
    ghost var bucketOf := (k: nat) => BucketOf(k, buckSize);
    ghost var s := Start(bucketOf, buckSize, dataSize, n, incs, decs);
    ghost var end := Exec(n, s, moves);
    Begins(bucketOf, buckSize, dataSize, n, s, moves);
    var table := new Table(buckSize, dataSize);
    Fill(table, n, Alloc(bucketOf, buckSize, dataSize), s.m);
    inc, dec := Run(table, n, seq(incs, _ => Going(0)), seq(decs, _ => Going(0)), moves, s, end);
    result := ScanModel(table, end.m.buckets);
    Outcome(bucketOf, buckSize, dataSize, n, incs, decs, moves);
  }

  method ScanModel(table: Table, ghost chains: seq<Chain>) returns (result: int)
    requires |chains| == |table.buck| && forall i | 0 <= i < |table.buck| :: table.buck[i].Holds(chains[i], table.nodes)
    ensures result == 0 <==> AllZero(chains)
  {
    forall i | 0 <= i < |table.buck| ensures table.buck[i].Valid() && table.buck[i].contents == chains[i] {
      assert table.buck[i].Holds(chains[i], table.nodes);
    }
    result := table.FinalScan();
  }

  lemma Outcome(bucketOf: nat -> nat, buckSize: nat, dataSize: nat, n: nat, incs: nat, decs: nat, moves: seq<Move>)
    requires HashFits(bucketOf, buckSize)
    ensures var end := Exec(n, Start(bucketOf, buckSize, dataSize, n, incs, decs), moves);
            && |end.inc| == incs && |end.dec| == decs && Within(n, end.inc) && Within(n, end.dec)
            && (incs == decs && Done(n, end.inc) && Done(n, end.dec) ==> AllZero(end.m.buckets))
  {
    StartInv(bucketOf, buckSize, dataSize, n, incs, decs);
    ExecInv(n, Start(bucketOf, buckSize, dataSize, n, incs, decs), moves);
    if incs == decs {
      FinalScanZero(bucketOf, buckSize, dataSize, n, incs, moves);
    }
  }
}
