/**
 The hash map of ksync-rcu-cmap/rcucmap.c as a value: bucket list heads, the
 nodes that are allocated, and what its writers do to them under a bucket lock.
 */
module RcuMap {

  type Ref = nat

  // The end of a bucket list (and the NULL pointer).
  const NIL: Ref := 0

  // `slot` is auxiliary: the number of the insertion that created the key's
  // place in its chain. Copying a node copies it; no operation reads it.
  datatype Node = Node(key: int, value: int, next: Ref, slot: nat)

  // `bucketOf` is the hash function, `heads` and `heap` are the memory that readers and writers see. `chains`
  // (the linked nodes of each bucket, in list order) and `slots` (insertions so
  // far) are auxiliary.
  datatype Map = Map(bucketOf: int -> nat, heads: seq<Ref>, heap: map<Ref, Node>, chains: seq<seq<Ref>>, slots: nat)

  function At(ch: seq<Ref>, i: nat): Ref {
    if i < |ch| then ch[i] else NIL
  }

  // The list that starts at head visits exactly the nodes of ch.
  ghost predicate Linked(heap: map<Ref, Node>, head: Ref, ch: seq<Ref>) {
    && head == At(ch, 0)
    && (forall i | 0 <= i < |ch| :: ch[i] in heap)
    && (forall i, j | 0 <= i < j < |ch| && j == i + 1 :: heap[ch[i]].next == ch[j])
    && (ch != [] ==> heap[ch[|ch| - 1]].next == NIL)
  }

  // The nodes of ch have distinct keys that hash to b, newest slot first.
  ghost predicate Ordered(bucketOf: int -> nat, heap: map<Ref, Node>, ch: seq<Ref>, b: nat, slots: nat) {
    && (forall i | 0 <= i < |ch| :: ch[i] in heap && bucketOf(heap[ch[i]].key) == b && heap[ch[i]].slot < slots)
    && (forall i, j | 0 <= i < j < |ch| ::
          heap[ch[i]].slot > heap[ch[j]].slot && heap[ch[i]].key != heap[ch[j]].key)
  }

  ghost predicate ValidChain(bucketOf: int -> nat, heap: map<Ref, Node>, head: Ref, ch: seq<Ref>, b: nat, slots: nat) {
    Linked(heap, head, ch) && Ordered(bucketOf, heap, ch, b, slots)
  }

  // Every bucket is a well-linked list that holds each key at most once, only
  // keys that hash to it, and newer insertions before older ones.
  ghost predicate Valid(m: Map) {
    && 0 < |m.heads| == |m.chains|
    && (forall k :: m.bucketOf(k) < |m.chains|)
    && NIL !in m.heap
    && forall b | 0 <= b < |m.chains| :: ValidChain(m.bucketOf, m.heap, m.heads[b], m.chains[b], b, m.slots)
  }

  // x is linked in the bucket of its key.
  ghost predicate Live(m: Map, x: Ref)
    requires Valid(m)
  {
    x in m.heap && x in m.chains[m.bucketOf(m.heap[x].key)]
  }

  ghost function LiveSet(m: Map): set<Ref>
    requires Valid(m)
  {
    set x | x in m.heap && Live(m, x)
  }

  lemma LiveUnique(m: Map, x: Ref, y: Ref)
    requires Valid(m) && Live(m, x) && Live(m, y) && m.heap[x].key == m.heap[y].key
    ensures x == y
  {
    var b := m.bucketOf(m.heap[x].key);
    assert ValidChain(m.bucketOf, m.heap, m.heads[b], m.chains[b], b, m.slots);
    var i :| 0 <= i < |m.chains[b]| && m.chains[b][i] == x;
    var j :| 0 <= j < |m.chains[b]| && m.chains[b][j] == y;
  }

  ghost predicate Distinct(heap: map<Ref, Node>, live: set<Ref>) {
    && live <= heap.Keys
    && forall x, y | x in live && y in live && heap[x].key == heap[y].key :: x == y
  }

  ghost function Bindings(heap: map<Ref, Node>, live: set<Ref>): map<int, int>
    requires Distinct(heap, live)
  {
    map k | k in Keys(heap, live) :: heap[NodeOf(heap, live, k)].value
  }

  ghost function Keys(heap: map<Ref, Node>, live: set<Ref>): set<int>
    requires live <= heap.Keys
  {
    set x | x in live :: heap[x].key
  }

  ghost function NodeOf(heap: map<Ref, Node>, live: set<Ref>, key: int): (x: Ref)
    requires live <= heap.Keys && key in Keys(heap, live)
    ensures x in live && heap[x].key == key
  {
    var x :| x in live && heap[x].key == key;
    x
  }

  lemma LiveDistinct(m: Map)
    requires Valid(m)
    ensures Distinct(m.heap, LiveSet(m))
  {
    forall x, y | x in LiveSet(m) && y in LiveSet(m) && m.heap[x].key == m.heap[y].key ensures x == y {
      LiveUnique(m, x, y);
    }
  }

  // The finite map that the linked nodes represent.
  ghost function Abs(m: Map): map<int, int>
    requires Valid(m)
  {
    LiveDistinct(m);
    Bindings(m.heap, LiveSet(m))
  }

  ghost predicate HasKey(heap: map<Ref, Node>, live: set<Ref>, key: int)
    requires live <= heap.Keys
  {
    exists x :: x in live && heap[x].key == key
  }

  // The walk of a bucket under its lock: the position of the first node with this key.
  function Find(heap: map<Ref, Node>, ch: seq<Ref>, key: int): (i: nat)
    requires forall x | x in ch :: x in heap
    ensures i <= |ch|
    ensures i < |ch| ==> heap[ch[i]].key == key
    ensures forall j | 0 <= j < i :: heap[ch[j]].key != key
  {
    if ch == [] then 0
    else if heap[ch[0]].key == key then 0
    else 1 + Find(heap, ch[1..], key)
  }

  ghost function Chain(m: Map, key: int): seq<Ref>
    requires Valid(m)
  {
    m.chains[m.bucketOf(key)]
  }

  ghost function Position(m: Map, key: int): (i: nat)
    requires Valid(m)
    ensures i <= |Chain(m, key)|
  {
    assert ValidChain(m.bucketOf, m.heap, m.heads[m.bucketOf(key)], Chain(m, key), m.bucketOf(key), m.slots);
    Find(m.heap, Chain(m, key), key)
  }

  // The node that holds the key, or NIL.
  ghost function Holder(m: Map, key: int): Ref
    requires Valid(m)
  {
    At(Chain(m, key), Position(m, key))
  }

  // Storing x in the link that leads to position i of a chain writes either the
  // bucket's head or the next of the node before it.
  function HeadAfter(head: Ref, i: nat, x: Ref): Ref {
    if i == 0 then x else head
  }

  function HeapAfter(heap: map<Ref, Node>, ch: seq<Ref>, i: nat, x: Ref): map<Ref, Node>
    requires i < |ch| && forall y | y in ch :: y in heap
  {
    if i == 0 then heap else heap[ch[i - 1] := heap[ch[i - 1]].(next := x)]
  }

  // list_add_rcu: a new node goes to the head of its bucket.
  ghost function Insert(m: Map, key: int, value: int, n: Ref): Map
    requires Valid(m)
  {
    var b := m.bucketOf(key);
    Map(m.bucketOf, m.heads[b := n],
        m.heap[n := Node(key, value, m.heads[b], m.slots)],
        m.chains[b := [n] + m.chains[b]],
        m.slots + 1)
  }

  // memcpy and list_replace_rcu: a changed copy n takes the place of the i-th node.
  ghost function Replace(m: Map, b: nat, i: nat, value: int, n: Ref): Map
    requires Valid(m) && b < |m.chains| && i < |m.chains[b]|
  {
    assert ValidChain(m.bucketOf, m.heap, m.heads[b], m.chains[b], b, m.slots);
    var ch := m.chains[b];
    Map(m.bucketOf, m.heads[b := HeadAfter(m.heads[b], i, n)],
        HeapAfter(m.heap, ch, i, n)[n := m.heap[ch[i]].(value := value)],
        m.chains[b := ch[i := n]],
        m.slots)
  }

  // list_del_rcu: the i-th node is bypassed and keeps its own next.
  ghost function Delete(m: Map, b: nat, i: nat): Map
    requires Valid(m) && b < |m.chains| && i < |m.chains[b]|
  {
    assert ValidChain(m.bucketOf, m.heap, m.heads[b], m.chains[b], b, m.slots);
    var ch := m.chains[b];
    var next := m.heap[ch[i]].next;
    Map(m.bucketOf, m.heads[b := HeadAfter(m.heads[b], i, next)],
        HeapAfter(m.heap, ch, i, next),
        m.chains[b := ch[..i] + ch[i + 1..]],
        m.slots)
  }

  // The locked part of update_ccmap, given the node n that kzalloc returned.
  ghost function Update(m: Map, key: int, value: int, n: Ref): Map
    requires Valid(m)
  {
    var i := Position(m, key);
    if i == |Chain(m, key)| then Insert(m, key, value, n) else Replace(m, m.bucketOf(key), i, value, n)
  }

  // The locked part of remove_ccmap.
  ghost function Remove(m: Map, key: int): Map
    requires Valid(m)
  {
    var i := Position(m, key);
    if i == |Chain(m, key)| then m else Delete(m, m.bucketOf(key), i)
  }

  ghost predicate SameEntry(x: Node, y: Node) {
    x.key == y.key && x.value == y.value && x.slot == y.slot
  }

  // What a reader can tell of a map: which nodes are allocated, and which are linked.
  datatype Snap = Snap(bucketOf: int -> nat, heap: map<Ref, Node>, live: set<Ref>, slots: nat)

  ghost function Of(m: Map): (a: Snap)
    requires Valid(m)
    ensures a.live <= a.heap.Keys
  {
    Snap(m.bucketOf, m.heap, LiveSet(m), m.slots)
  }

  ghost predicate SlotTaken(a: Snap, key: int, slot: nat)
    requires a.live <= a.heap.Keys
  {
    exists x :: x in a.live && a.heap[x].key == key && a.heap[x].slot == slot
  }

  // What every locked write keeps: nodes already allocated stay, with the same
  // key, value and slot; a node that is not linked keeps its next; a linked node
  // either occupies a slot its key already had, or a new slot for an absent key;
  // and no unlinked node is ever linked again.
  ghost predicate Evolves(a: Snap, b: Snap) {
    && a.live <= a.heap.Keys && b.live <= b.heap.Keys
    && a.bucketOf == b.bucketOf
    && a.slots <= b.slots
    && (forall x | x in a.heap :: x in b.heap && SameEntry(a.heap[x], b.heap[x])
                                  && (x in b.live || b.heap[x].next == a.heap[x].next))
    && (forall y | y in b.live :: || SlotTaken(a, b.heap[y].key, b.heap[y].slot)
                                  || (b.heap[y].slot >= a.slots && !HasKey(a.heap, a.live, b.heap[y].key)))
    && (forall y | y in b.live :: y in a.live || y !in a.heap)
  }

  lemma HolderFacts(m: Map, key: int)
    requires Valid(m)
    ensures Holder(m, key) == NIL <==> !HasKey(m.heap, LiveSet(m), key)
    ensures Holder(m, key) != NIL ==> Holder(m, key) in LiveSet(m) && m.heap[Holder(m, key)].key == key
  {
    var b, ch, i := m.bucketOf(key), Chain(m, key), Position(m, key);
    assert ValidChain(m.bucketOf, m.heap, m.heads[b], ch, b, m.slots);
    if i < |ch| {
      assert Live(m, ch[i]);
    }
  }

  lemma OtherChain(bucketOf: int -> nat, heap: map<Ref, Node>, heap': map<Ref, Node>, head: Ref, ch: seq<Ref>, b: nat, slots: nat, slots': nat)
    requires slots <= slots'
    requires ValidChain(bucketOf, heap, head, ch, b, slots)
    requires forall x | x in ch :: x in heap' && heap'[x] == heap[x]
    ensures ValidChain(bucketOf, heap', head, ch, b, slots')
  {
    forall i | 0 <= i < |ch| ensures ch[i] in heap' && heap'[ch[i]] == heap[ch[i]] {
      assert ch[i] in ch;
    }
  }

  lemma InsertChain(bucketOf: int -> nat, heap: map<Ref, Node>, head: Ref, ch: seq<Ref>, b: nat, slots: nat, node: Node, n: Ref)
    requires ValidChain(bucketOf, heap, head, ch, b, slots)
    requires n !in heap && bucketOf(node.key) == b && node.slot == slots && node.next == head
    requires forall j | 0 <= j < |ch| :: heap[ch[j]].key != node.key
    ensures ValidChain(bucketOf, heap[n := node], n, [n] + ch, b, slots + 1)
  {
    var heap', ch' := heap[n := node], [n] + ch;
    assert forall j | 0 < j < |ch'| :: ch'[j] == ch[j - 1] && heap'[ch'[j]] == heap[ch[j - 1]];
  }

  lemma ReplaceChain(bucketOf: int -> nat, heap: map<Ref, Node>, head: Ref, ch: seq<Ref>, b: nat, slots: nat, i: nat, value: int, n: Ref)
    requires ValidChain(bucketOf, heap, head, ch, b, slots)
    requires i < |ch| && n !in heap
    ensures ValidChain(bucketOf, HeapAfter(heap, ch, i, n)[n := heap[ch[i]].(value := value)],
                       HeadAfter(head, i, n), ch[i := n], b, slots)
  {
    var heap' := HeapAfter(heap, ch, i, n)[n := heap[ch[i]].(value := value)];
    var ch' := ch[i := n];
    assert forall j | 0 <= j < |ch| ::
        ch'[j] in heap' && heap'[ch'[j]] == if j == i then heap[ch[i]].(value := value)
                                            else if j + 1 == i then heap[ch[j]].(next := n)
                                            else heap[ch[j]];
  }

  lemma DeleteOrdered(bucketOf: int -> nat, heap: map<Ref, Node>, heap': map<Ref, Node>, ch: seq<Ref>, b: nat, slots: nat, i: nat)
    requires Ordered(bucketOf, heap, ch, b, slots) && i < |ch|
    requires forall x | x in heap :: x in heap' && SameEntry(heap[x], heap'[x])
    ensures Ordered(bucketOf, heap', ch[..i] + ch[i + 1..], b, slots)
  {
    var ch' := ch[..i] + ch[i + 1..];
    forall j | 0 <= j < |ch'| ensures ch'[j] == if j < i then ch[j] else ch[j + 1] {
    }
  }

  lemma DeleteLinked(heap: map<Ref, Node>, head: Ref, ch: seq<Ref>, i: nat)
    requires Linked(heap, head, ch) && i < |ch|
    requires forall j, k | 0 <= j < k < |ch| :: ch[j] != ch[k]
    ensures Linked(HeapAfter(heap, ch, i, heap[ch[i]].next), HeadAfter(head, i, heap[ch[i]].next), ch[..i] + ch[i + 1..])
  {
    var heap' := HeapAfter(heap, ch, i, heap[ch[i]].next);
    var ch' := ch[..i] + ch[i + 1..];
    forall j | 0 <= j < |ch'| ensures ch'[j] == if j < i then ch[j] else ch[j + 1] {
    }
    assert forall x | x in heap && (i == 0 || x != ch[i - 1]) :: heap'[x] == heap[x];
  }

  lemma InsertValid(m: Map, key: int, value: int, n: Ref)
    requires Valid(m) && n !in m.heap && n != NIL && Holder(m, key) == NIL
    ensures Valid(Insert(m, key, value, n))
    ensures LiveSet(Insert(m, key, value, n)) == LiveSet(m) + {n}
  {
    var m' := Insert(m, key, value, n);
    var b := m.bucketOf(key);
    forall c | 0 <= c < |m'.chains|
      ensures ValidChain(m'.bucketOf, m'.heap, m'.heads[c], m'.chains[c], c, m'.slots)
    {
      assert ValidChain(m.bucketOf, m.heap, m.heads[c], m.chains[c], c, m.slots);
      if c == b {
        InsertChain(m.bucketOf, m.heap, m.heads[b], m.chains[b], b, m.slots, m'.heap[n], n);
      } else {
        OtherChain(m.bucketOf, m.heap, m'.heap, m.heads[c], m.chains[c], c, m.slots, m'.slots);
      }
    }
    assert n in m'.chains[b];
  }

  lemma ReplaceValid(m: Map, b: nat, i: nat, value: int, n: Ref)
    requires Valid(m) && n !in m.heap && n != NIL && b < |m.chains| && i < |m.chains[b]|
    ensures Valid(Replace(m, b, i, value, n))
  {
    var m' := Replace(m, b, i, value, n);
    assert ValidChain(m.bucketOf, m.heap, m.heads[b], m.chains[b], b, m.slots);
    forall c | 0 <= c < |m'.chains|
      ensures ValidChain(m'.bucketOf, m'.heap, m'.heads[c], m'.chains[c], c, m'.slots)
    {
      assert ValidChain(m.bucketOf, m.heap, m.heads[c], m.chains[c], c, m.slots);
      if c == b {
        ReplaceChain(m.bucketOf, m.heap, m.heads[b], m.chains[b], b, m.slots, i, value, n);
      } else {
        OtherChain(m.bucketOf, m.heap, m'.heap, m.heads[c], m.chains[c], c, m.slots, m'.slots);
      }
    }
  }

  lemma DeleteValid(m: Map, b: nat, i: nat)
    requires Valid(m) && b < |m.chains| && i < |m.chains[b]|
    ensures Valid(Delete(m, b, i))
  {
    var m' := Delete(m, b, i);
    assert ValidChain(m.bucketOf, m.heap, m.heads[b], m.chains[b], b, m.slots);
    forall c | 0 <= c < |m'.chains|
      ensures ValidChain(m'.bucketOf, m'.heap, m'.heads[c], m'.chains[c], c, m'.slots)
    {
      assert ValidChain(m.bucketOf, m.heap, m.heads[c], m.chains[c], c, m.slots);
      if c == b {
        DeleteLinked(m.heap, m.heads[b], m.chains[b], i);
        DeleteOrdered(m.bucketOf, m.heap, m'.heap, m.chains[b], b, m.slots, i);
      } else {
        OtherChain(m.bucketOf, m.heap, m'.heap, m.heads[c], m.chains[c], c, m.slots, m'.slots);
      }
    }
  }

  lemma ReplacedMember(ch: seq<Ref>, i: nat, n: Ref, x: Ref)
    requires i < |ch| && x != n && forall j, k | 0 <= j < k < |ch| :: ch[j] != ch[k]
    ensures x in ch[i := n] <==> x in ch && x != ch[i]
  {
    if x in ch && x != ch[i] {
      var j :| 0 <= j < |ch| && ch[j] == x;
      assert ch[i := n][j] == x;
    }
  }

  lemma DroppedMember(ch: seq<Ref>, i: nat, x: Ref)
    requires i < |ch| && forall j, k | 0 <= j < k < |ch| :: ch[j] != ch[k]
    ensures x in ch[..i] + ch[i + 1..] <==> x in ch && x != ch[i]
  {
    if x in ch && x != ch[i] {
      var j :| 0 <= j < |ch| && ch[j] == x;
      assert (ch[..i] + ch[i + 1..])[if j < i then j else j - 1] == x;
    }
  }

  // A linked node is in its own bucket only.
  lemma ChainMember(m: Map, b: nat, i: nat)
    requires Valid(m) && b < |m.chains| && i < |m.chains[b]|
    ensures m.chains[b][i] in m.heap && m.bucketOf(m.heap[m.chains[b][i]].key) == b
    ensures forall j, k | 0 <= j < k < |m.chains[b]| :: m.chains[b][j] != m.chains[b][k]
  {
    assert ValidChain(m.bucketOf, m.heap, m.heads[b], m.chains[b], b, m.slots);
  }

  // Taking one node out of one chain unlinks that node and no other.
  lemma UnlinkOne(bucketOf: int -> nat, chains: seq<seq<Ref>>, b: nat, ch': seq<Ref>, key: int, goneKey: int, x: Ref, gone: Ref)
    requires b < |chains| && bucketOf(key) < |chains| && bucketOf(goneKey) == b && (x == gone ==> key == goneKey)
    requires x in ch' <==> x in chains[b] && x != gone
    ensures x in chains[b := ch'][bucketOf(key)] <==> x in chains[bucketOf(key)] && x != gone
  {
  }

  lemma ReplaceLiveAt(m: Map, m': Map, b: nat, i: nat, value: int, n: Ref, x: Ref)
    requires Valid(m) && b < |m.chains| && i < |m.chains[b]| && m' == Replace(m, b, i, value, n) && Valid(m')
    requires x in m.heap && n !in m.heap
    ensures Live(m', x) <==> Live(m, x) && x != m.chains[b][i]
  {
    ChainMember(m, b, i);
    ReplacedMember(m.chains[b], i, n, x);
    UnlinkOne(m.bucketOf, m.chains, b, m'.chains[b], m.heap[x].key, m.heap[m.chains[b][i]].key, x, m.chains[b][i]);
  }

  lemma DeleteLiveAt(m: Map, m': Map, b: nat, i: nat, x: Ref)
    requires Valid(m) && b < |m.chains| && i < |m.chains[b]| && m' == Delete(m, b, i) && Valid(m') && x in m.heap
    ensures Live(m', x) <==> Live(m, x) && x != m.chains[b][i]
  {
    ChainMember(m, b, i);
    DroppedMember(m.chains[b], i, x);
    UnlinkOne(m.bucketOf, m.chains, b, m'.chains[b], m.heap[x].key, m.heap[m.chains[b][i]].key, x, m.chains[b][i]);
  }

  // The linked nodes after one was exchanged for those in added.
  lemma LiveAfter(m: Map, m': Map, gone: Ref, added: set<Ref>)
    requires Valid(m) && Valid(m') && m'.heap.Keys == m.heap.Keys + added && added !! m.heap.Keys
    requires (forall x | x in m.heap :: Live(m', x) <==> Live(m, x) && x != gone) && (forall x | x in added :: Live(m', x))
    ensures LiveSet(m') == LiveSet(m) - {gone} + added
  {
    forall x ensures x in LiveSet(m') <==> x in LiveSet(m) - {gone} + added {
    }
  }

  lemma ReplaceKeys(m: Map, b: nat, i: nat, value: int, n: Ref, m': Map)
    requires Valid(m) && n !in m.heap && b < |m.chains| && i < |m.chains[b]| && m' == Replace(m, b, i, value, n) && Valid(m')
    ensures m'.heap.Keys == m.heap.Keys + {n} && Live(m', n)
  {
    ChainMember(m, b, i);
    assert ValidChain(m.bucketOf, m.heap, m.heads[b], m.chains[b], b, m.slots);
    assert m'.chains[b][i] == n;
  }

  lemma ReplaceLive(m: Map, b: nat, i: nat, value: int, n: Ref, m': Map)
    requires Valid(m) && n !in m.heap && b < |m.chains| && i < |m.chains[b]| && m' == Replace(m, b, i, value, n) && Valid(m')
    ensures LiveSet(m') == LiveSet(m) - {m.chains[b][i]} + {n}
  {
    ReplaceKeys(m, b, i, value, n, m');
    forall x | x in m.heap ensures Live(m', x) <==> Live(m, x) && x != m.chains[b][i] {
      ReplaceLiveAt(m, m', b, i, value, n, x);
    }
    LiveAfter(m, m', m.chains[b][i], {n});
  }

  lemma DeleteKeys(m: Map, b: nat, i: nat, m': Map)
    requires Valid(m) && b < |m.chains| && i < |m.chains[b]| && m' == Delete(m, b, i)
    ensures m'.heap.Keys == m.heap.Keys
  {
    assert ValidChain(m.bucketOf, m.heap, m.heads[b], m.chains[b], b, m.slots);
  }

  lemma DeleteLive(m: Map, b: nat, i: nat, m': Map)
    requires Valid(m) && b < |m.chains| && i < |m.chains[b]| && m' == Delete(m, b, i) && Valid(m')
    ensures LiveSet(m') == LiveSet(m) - {m.chains[b][i]}
  {
    DeleteKeys(m, b, i, m');
    forall x | x in m.heap ensures Live(m', x) <==> Live(m, x) && x != m.chains[b][i] {
      DeleteLiveAt(m, m', b, i, x);
    }
    LiveAfter(m, m', m.chains[b][i], {});
  }

  // The keys of a chain in list order.
  ghost function KeyOrder(heap: map<Ref, Node>, ch: seq<Ref>): seq<int>
    requires forall i | 0 <= i < |ch| :: ch[i] in heap
  {
    seq(|ch|, i requires 0 <= i < |ch| => heap[ch[i]].key)
  }

  ghost function Order(m: Map, b: nat): seq<int>
    requires Valid(m) && b < |m.chains|
  {
    assert ValidChain(m.bucketOf, m.heap, m.heads[b], m.chains[b], b, m.slots);
    KeyOrder(m.heap, m.chains[b])
  }

  lemma UpdateEntries(m: Map, key: int, value: int, n: Ref)
    requires Valid(m) && n !in m.heap
    ensures Update(m, key, value, n).heap.Keys == m.heap.Keys + {n}
    ensures Update(m, key, value, n).heap[n].key == key && Update(m, key, value, n).heap[n].value == value
    ensures forall x | x in m.heap :: SameEntry(m.heap[x], Update(m, key, value, n).heap[x])
  {
    var b := m.bucketOf(key);
    assert ValidChain(m.bucketOf, m.heap, m.heads[b], m.chains[b], b, m.slots);
  }

  lemma UpdateEffect(m: Map, key: int, value: int, n: Ref, m': Map)
    requires Valid(m) && n !in m.heap && n != NIL && m' == Update(m, key, value, n)
    ensures Valid(m') && LiveSet(m') == LiveSet(m) - {Holder(m, key)} + {n}
    ensures m'.heap.Keys == m.heap.Keys + {n} && m'.heap[n].key == key && m'.heap[n].value == value
    ensures forall x | x in m.heap :: SameEntry(m.heap[x], m'.heap[x])
  {
    UpdateEntries(m, key, value, n);
    var i := Position(m, key);
    if i == |Chain(m, key)| {
      InsertValid(m, key, value, n);
    } else {
      ReplaceValid(m, m.bucketOf(key), i, value, n);
      ReplaceLive(m, m.bucketOf(key), i, value, n, m');
    }
  }

  lemma RemoveEffect(m: Map, key: int, m': Map)
    requires Valid(m) && m' == Remove(m, key)
    ensures Valid(m') && LiveSet(m') == LiveSet(m) - {Holder(m, key)}
    ensures m'.heap.Keys == m.heap.Keys
    ensures forall x | x in m.heap :: SameEntry(m.heap[x], m'.heap[x])
  {
    var i := Position(m, key);
    if i < |Chain(m, key)| {
      DeleteValid(m, m.bucketOf(key), i);
      DeleteLive(m, m.bucketOf(key), i, m');
    }
  }

  // Bindings is the one map that binds each linked node's key to its value and no other key.
  lemma BindingsFacts(heap: map<Ref, Node>, live: set<Ref>)
    requires Distinct(heap, live)
    ensures IsBindings(heap, live, Bindings(heap, live))
  {
  }

  ghost predicate IsBindings(heap: map<Ref, Node>, live: set<Ref>, f: map<int, int>)
    requires live <= heap.Keys
  {
    && (forall x | x in live :: heap[x].key in f && f[heap[x].key] == heap[x].value)
    && (forall k | k in f :: HasKey(heap, live, k))
  }

  lemma BindingsUnique(heap: map<Ref, Node>, live: set<Ref>, f: map<int, int>)
    requires Distinct(heap, live) && IsBindings(heap, live, f)
    ensures Bindings(heap, live) == f
  {
    BindingsFacts(heap, live);
    forall k | k in f ensures k in Bindings(heap, live) && f[k] == Bindings(heap, live)[k] {
      var x :| x in live && heap[x].key == k;
    }
    forall k | k in Bindings(heap, live) ensures k in f {
      var x :| x in live && heap[x].key == k;
    }
  }

  lemma BindingsUpdate(heap: map<Ref, Node>, live: set<Ref>, heap': map<Ref, Node>, live': set<Ref>, gone: Ref, n: Ref, f: map<int, int>)
    requires Distinct(heap, live) && Distinct(heap', live') && IsBindings(heap, live, f)
    requires n in live' && n !in live && live' == live - {gone} + {n}
    requires forall x | x in live :: x in heap' && SameEntry(heap[x], heap'[x])
    requires if gone in live then heap[gone].key == heap'[n].key else !HasKey(heap, live, heap'[n].key)
    ensures IsBindings(heap', live', f[heap'[n].key := heap'[n].value])
  {
    var f' := f[heap'[n].key := heap'[n].value];
    forall x | x in live' ensures heap'[x].key in f' && f'[heap'[x].key] == heap'[x].value {
      if x != n {
        assert x in live;
      }
    }
    forall k | k in f' ensures HasKey(heap', live', k) {
      if k != heap'[n].key {
        var x :| x in live && heap[x].key == k;
        assert x in live';
      }
    }
  }

  lemma BindingsRemove(heap: map<Ref, Node>, live: set<Ref>, heap': map<Ref, Node>, live': set<Ref>, gone: Ref, key: int)
    requires Distinct(heap, live) && Distinct(heap', live')
    requires live' == live - {gone}
    requires forall x | x in live :: x in heap' && SameEntry(heap[x], heap'[x])
    requires if gone in live then heap[gone].key == key else !HasKey(heap, live, key)
    ensures Bindings(heap', live') == Bindings(heap, live) - {key}
  {
    var f := Bindings(heap, live) - {key};
    BindingsFacts(heap, live);
    forall k | k in f ensures HasKey(heap', live', k) {
      var x :| x in live && heap[x].key == k;
      assert x in live';
    }
    BindingsUnique(heap', live', f);
  }

  lemma UpdateAbs(m: Map, key: int, value: int, n: Ref)
    requires Valid(m) && n !in m.heap && n != NIL
    requires Valid(Update(m, key, value, n))
    ensures Abs(Update(m, key, value, n)) == Abs(m)[key := value]
  {
    var m' := Update(m, key, value, n);
    UpdateEffect(m, key, value, n, m');
    HolderFacts(m, key);
    LiveDistinct(m);
    LiveDistinct(m');
    BindingsFacts(m.heap, LiveSet(m));
    BindingsUpdate(m.heap, LiveSet(m), m'.heap, LiveSet(m'), Holder(m, key), n, Abs(m));
    BindingsUnique(m'.heap, LiveSet(m'), Abs(m)[key := value]);
  }

  lemma RemoveAbs(m: Map, key: int)
    requires Valid(m) && Valid(Remove(m, key))
    ensures Abs(Remove(m, key)) == Abs(m) - {key}
  {
    var m' := Remove(m, key);
    RemoveEffect(m, key, m');
    HolderFacts(m, key);
    LiveDistinct(m);
    LiveDistinct(m');
    BindingsRemove(m.heap, LiveSet(m), m'.heap, LiveSet(m'), Holder(m, key), key);
  }

  lemma UpdateEvolves(m: Map, key: int, value: int, n: Ref, m': Map)
    requires Valid(m) && n !in m.heap && n != NIL && m' == Update(m, key, value, n)
    ensures Valid(m') && Evolves(Of(m), Of(m'))
  {
    UpdateEffect(m, key, value, n, m');
    HolderFacts(m, key);
    UpdateNexts(m, m', key, value, n);
    UpdateSlots(m, m', key, value, n);
    Assemble(m, m', {n});
  }

  lemma Assemble(m: Map, m': Map, added: set<Ref>)
    requires Valid(m) && Valid(m') && m'.bucketOf == m.bucketOf && m.slots <= m'.slots && m'.heap.Keys == m.heap.Keys + added
    requires forall x | x in m.heap :: SameEntry(m.heap[x], m'.heap[x])
    requires forall x | x in m.heap :: x in LiveSet(m') || m'.heap[x].next == m.heap[x].next
    requires LiveSet(m') <= LiveSet(m) + added && added !! m.heap.Keys
    requires forall y | y in LiveSet(m') ::
               || SlotTaken(Of(m), m'.heap[y].key, m'.heap[y].slot)
               || (m'.heap[y].slot >= m.slots && !HasKey(m.heap, LiveSet(m), m'.heap[y].key))
    ensures Evolves(Of(m), Of(m'))
  {
  }

  // Only the node in front of the key's holder gets a new next, and it stays linked.
  lemma UpdateNexts(m: Map, m': Map, key: int, value: int, n: Ref)
    requires Valid(m) && Valid(m') && m' == Update(m, key, value, n) && n !in m.heap
    requires LiveSet(m') == LiveSet(m) - {Holder(m, key)} + {n}
    ensures forall x | x in m.heap :: x in m'.heap && (x in LiveSet(m') || m'.heap[x].next == m.heap[x].next)
  {
    var b := m.bucketOf(key);
    assert ValidChain(m.bucketOf, m.heap, m.heads[b], m.chains[b], b, m.slots);
    UnlinkedKeepNext(m, key);
  }

  lemma UpdateSlots(m: Map, m': Map, key: int, value: int, n: Ref)
    requires Valid(m) && Valid(m') && m' == Update(m, key, value, n) && n !in m.heap && n in m'.heap && m'.heap[n].key == key
    requires LiveSet(m') == LiveSet(m) - {Holder(m, key)} + {n}
    requires forall x | x in m.heap :: x in m'.heap && SameEntry(m.heap[x], m'.heap[x])
    ensures forall y | y in LiveSet(m') ::
              || SlotTaken(Of(m), m'.heap[y].key, m'.heap[y].slot)
              || (m'.heap[y].slot >= m.slots && !HasKey(m.heap, LiveSet(m), m'.heap[y].key))
  {
    HolderFacts(m, key);
    forall y | y in LiveSet(m')
      ensures || SlotTaken(Of(m), m'.heap[y].key, m'.heap[y].slot)
              || (m'.heap[y].slot >= m.slots && !HasKey(m.heap, LiveSet(m), m'.heap[y].key))
    {
      var x := if y == n then Holder(m, key) else y;
      assert x in LiveSet(m) ==> m.heap[x].key == m'.heap[y].key && m.heap[x].slot == m'.heap[y].slot;
    }
  }

  lemma RemoveEvolves(m: Map, key: int, m': Map)
    requires Valid(m) && m' == Remove(m, key)
    ensures Valid(m') && Evolves(Of(m), Of(m'))
  {
    RemoveEffect(m, key, m');
    HolderFacts(m, key);
    UnlinkedKeepNext(m, key);
    forall y | y in LiveSet(m') ensures SlotTaken(Of(m), m'.heap[y].key, m'.heap[y].slot) {
      assert y in LiveSet(m);
    }
  }

  // The node in front of a key's holder is linked and holds another key.
  lemma UnlinkedKeepNext(m: Map, key: int)
    requires Valid(m)
    ensures 0 < Position(m, key) ==> Chain(m, key)[Position(m, key) - 1] in LiveSet(m) - {Holder(m, key)}
  {
    var b, ch := m.bucketOf(key), Chain(m, key);
    assert ValidChain(m.bucketOf, m.heap, m.heads[b], ch, b, m.slots);
    if 0 < Position(m, key) {
      assert ch[Position(m, key) - 1] in ch;
    }
  }

  lemma OrderInserted(heap: map<Ref, Node>, heap': map<Ref, Node>, ch: seq<Ref>, n: Ref)
    requires n in heap' && forall x | x in ch :: x in heap && x in heap' && SameEntry(heap[x], heap'[x])
    ensures KeyOrder(heap', [n] + ch) == [heap'[n].key] + KeyOrder(heap, ch)
  {
  }

  lemma OrderReplaced(heap: map<Ref, Node>, heap': map<Ref, Node>, ch: seq<Ref>, i: nat, n: Ref)
    requires i < |ch| && n in heap' && forall x | x in ch :: x in heap && x in heap' && SameEntry(heap[x], heap'[x])
    requires heap'[n].key == heap[ch[i]].key
    ensures KeyOrder(heap', ch[i := n]) == KeyOrder(heap, ch)
  {
  }

  // The chains of m' have the keys of those of m in the same order, after one new key in
  // the bucket of a key that is new.
  ghost predicate OrderUpdated(m: Map, m': Map, key: int, added: bool)
    requires Valid(m) && Valid(m')
  {
    && |m'.chains| == |m.chains|
    && forall b | 0 <= b < |m.chains| ::
         Order(m', b) == (if b == m.bucketOf(key) && added then [key] else []) + Order(m, b)
  }

  // update_ccmap refines a map update. Replacing a node keeps its bucket's order,
  // a new key goes first, and no other bucket changes.
  lemma UpdateRefines(m: Map, key: int, value: int, n: Ref, m': Map)
    requires Valid(m) && n !in m.heap && n != NIL && m' == Update(m, key, value, n)
    ensures Valid(m') && Abs(m') == Abs(m)[key := value] && OrderUpdated(m, m', key, key !in Abs(m))
  {
    UpdateEffect(m, key, value, n, m');
    UpdateAbs(m, key, value, n);
    HolderAbs(m, key);
    UpdateOrders(m, m', key, value, n);
  }

  lemma UpdateOrders(m: Map, m': Map, key: int, value: int, n: Ref)
    requires Valid(m) && Valid(m') && m' == Update(m, key, value, n) && n in m'.heap && m'.heap[n].key == key
    requires forall x | x in m.heap :: x in m'.heap && SameEntry(m.heap[x], m'.heap[x])
    ensures OrderUpdated(m, m', key, Holder(m, key) == NIL)
  {
    forall b | 0 <= b < |m.chains|
      ensures Order(m', b) == (if b == m.bucketOf(key) && Holder(m, key) == NIL then [key] else []) + Order(m, b)
    {
      UpdateOrder(m, m', key, value, n, b);
    }
  }

  lemma HolderAbs(m: Map, key: int)
    requires Valid(m)
    ensures Holder(m, key) == NIL <==> key !in Abs(m)
  {
    HolderFacts(m, key);
    LiveDistinct(m);
    BindingsFacts(m.heap, LiveSet(m));
  }

  lemma UpdateOrder(m: Map, m': Map, key: int, value: int, n: Ref, b: nat)
    requires Valid(m) && Valid(m') && m' == Update(m, key, value, n) && n in m'.heap && b < |m.chains|
    requires m'.heap[n].key == key
    requires forall x | x in m.heap :: x in m'.heap && SameEntry(m.heap[x], m'.heap[x])
    ensures Order(m', b) == (if b == m.bucketOf(key) && Holder(m, key) == NIL then [key] else []) + Order(m, b)
  {
    var ch, i := m.chains[b], Position(m, key);
    assert ValidChain(m.bucketOf, m.heap, m.heads[b], ch, b, m.slots);
    if b != m.bucketOf(key) {
      assert m'.chains[b] == ch;
    } else if i < |ch| {
      OrderReplaced(m.heap, m'.heap, ch, i, n);
    } else {
      OrderInserted(m.heap, m'.heap, ch, n);
    }
  }

  function Without(keys: seq<int>, key: int): seq<int> {
    if keys == [] then [] else (if keys[0] == key then [] else [keys[0]]) + Without(keys[1..], key)
  }

  lemma {:induction false} WithoutAbsent(keys: seq<int>, key: int)
    requires key !in keys
    ensures Without(keys, key) == keys
    decreases |keys|
  {
    if keys != [] {
      WithoutAbsent(keys[1..], key);
    }
  }

  lemma {:induction false} WithoutOne(keys: seq<int>, i: nat, key: int)
    requires i < |keys| && keys[i] == key && key !in keys[..i] && key !in keys[i + 1..]
    ensures Without(keys, key) == keys[..i] + keys[i + 1..]
    decreases |keys|
  {
    if i == 0 {
      WithoutAbsent(keys[1..], key);
    } else {
      assert keys[1..][..i - 1] == keys[..i][1..] && keys[1..][i..] == keys[i + 1..];
      WithoutOne(keys[1..], i - 1, key);
      assert keys[..i] == [keys[0]] + keys[1..][..i - 1];
    }
  }

  lemma OrderDeleted(heap: map<Ref, Node>, heap': map<Ref, Node>, ch: seq<Ref>, i: nat, ch': seq<Ref>)
    requires i < |ch| && ch' == ch[..i] + ch[i + 1..] && forall x | x in ch :: x in heap && x in heap' && SameEntry(heap[x], heap'[x])
    requires forall j, k | 0 <= j < k < |ch| :: heap[ch[j]].key != heap[ch[k]].key
    ensures forall j | 0 <= j < |ch'| :: ch'[j] in heap'
    ensures KeyOrder(heap', ch') == Without(KeyOrder(heap, ch), heap[ch[i]].key)
  {
    var keys := KeyOrder(heap, ch);
    forall j | 0 <= j < |ch'| ensures ch'[j] == if j < i then ch[j] else ch[j + 1] {
    }
    WithoutOne(keys, i, heap[ch[i]].key);
  }

  lemma OrderSame(heap: map<Ref, Node>, heap': map<Ref, Node>, ch: seq<Ref>, key: int)
    requires forall x | x in ch :: x in heap && x in heap' && SameEntry(heap[x], heap'[x]) && heap[x].key != key
    ensures KeyOrder(heap', ch) == Without(KeyOrder(heap, ch), key)
  {
    WithoutAbsent(KeyOrder(heap, ch), key);
  }

  lemma RemoveOrder(m: Map, m': Map, key: int, b: nat)
    requires Valid(m) && Valid(m') && m' == Remove(m, key) && b < |m.chains|
    requires forall x | x in m.heap :: x in m'.heap && SameEntry(m.heap[x], m'.heap[x])
    ensures Order(m', b) == Without(Order(m, b), key)
  {
    var ch, i := m.chains[b], Position(m, key);
    assert ValidChain(m.bucketOf, m.heap, m.heads[b], ch, b, m.slots);
    if b == m.bucketOf(key) && i < |ch| {
      OrderDeleted(m.heap, m'.heap, ch, i, m'.chains[b]);
    } else {
      assert m'.chains[b] == ch;
      OrderSame(m.heap, m'.heap, ch, key);
    }
  }

  // The chains of m' have the keys of those of m in the same order, without one key.
  ghost predicate OrderRemoved(m: Map, m': Map, key: int)
    requires Valid(m) && Valid(m')
  {
    |m'.chains| == |m.chains| && forall b | 0 <= b < |m.chains| :: Order(m', b) == Without(Order(m, b), key)
  }

  // remove_ccmap refines a map removal, and keeps the order of what stays.
  lemma RemoveRefines(m: Map, key: int, m': Map)
    requires Valid(m) && m' == Remove(m, key)
    ensures Valid(m') && Abs(m') == Abs(m) - {key} && OrderRemoved(m, m', key)
  {
    RemoveEffect(m, key, m');
    RemoveAbs(m, key);
    RemoveOrders(m, m', key);
  }

  lemma RemoveOrders(m: Map, m': Map, key: int)
    requires Valid(m) && Valid(m') && m' == Remove(m, key)
    requires forall x | x in m.heap :: x in m'.heap && SameEntry(m.heap[x], m'.heap[x])
    ensures OrderRemoved(m, m', key)
  {
    forall b | 0 <= b < |m.chains| ensures Order(m', b) == Without(Order(m, b), key) {
      RemoveOrder(m, m', key, b);
    }
  }
}
