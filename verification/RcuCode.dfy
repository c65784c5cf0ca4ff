/**
 make_ccmap, update_ccmap, remove_ccmap and get_ccmap_rcu of
 ksync-rcu-cmap/rcucmap.c as code on the map's memory. Each method is one holder of
 the bucket lock (or, for the lookup, one reader with no writer beside it).
 */
module RcuCode {
  import opened RcuHash
  import opened RcuMap

  class CcMap {
    const count: nat
    const bucketOf: int -> nat
    var heads: seq<Ref>
    var heap: map<Ref, Node>
    var slots: nat
    ghost var chains: seq<seq<Ref>>

    ghost function View(): Map
      reads this
    {
      Map(bucketOf, heads, heap, chains, slots)
    }

    ghost predicate Sound()
      reads this
    {
      count == |heads| && Valid(View())
    }

    // make_ccmap: every bucket is an empty list.
    constructor (bcount: nat)
      requires bcount > 0
      ensures Sound() && count == bcount && heap == map[] && Abs(View()) == map[]
      ensures forall k :: bucketOf(k) == Hash(k, bcount)
    {
      count := bcount;
      bucketOf := key => Hash(key, bcount);
      heap := map[];
      slots := 0;
      chains := seq(bcount, _ => []);
      var hs: seq<Ref> := [];
      for i := 0 to bcount
        invariant |hs| == i && forall j | 0 <= j < i :: hs[j] == NIL
      {
        hs := hs + [NIL];
      }
      heads := hs;
      new;
      forall b | 0 <= b < |chains| ensures ValidChain(bucketOf, heap, heads[b], chains[b], b, slots) {
      }
      assert LiveSet(View()) == {};
      BindingsUnique(heap, {}, map[]);
    }

    // list_for_each_entry over a bucket, up to the first node with the key. prev stands
    // for the back link of the node found, which is how the list operations reach the
    // link that leads to it.
    method Walk(idx: nat, key: int) returns (prev: Ref, cur: Ref)
      requires Sound() && idx == bucketOf(key)
      ensures cur == Holder(View(), key)
      ensures prev == if Position(View(), key) == 0 then NIL else Chain(View(), key)[Position(View(), key) - 1]
    {
      ghost var ch, i := chains[idx], 0;
      assert ValidChain(bucketOf, heap, heads[idx], ch, idx, slots);
      prev, cur := NIL, heads[idx];
      while cur != NIL && heap[cur].key != key
        invariant 0 <= i <= |ch| && cur == At(ch, i) && prev == if i == 0 then NIL else ch[i - 1]
        invariant cur == NIL <==> i == |ch|
        invariant forall j | 0 <= j < i :: heap[ch[j]].key != key
        decreases |ch| - i
      {
        prev, cur := cur, heap[cur].next;
        i := i + 1;
      }
      assert i == Position(View(), key);
    }

    method ListAdd(idx: nat, key: int, value: int, n: Ref)
      requires Sound() && idx == bucketOf(key)
      modifies this
      ensures View() == Insert(old(View()), key, value, n)
    {
      heap := heap[n := Node(key, value, heads[idx], slots)];
      heads := heads[idx := n];
      slots := slots + 1;
      chains := chains[idx := [n] + chains[idx]];
    }

    method ListReplace(idx: nat, prev: Ref, cur: Ref, value: int, n: Ref, ghost i: nat)
      requires Sound() && idx < |chains| && i < |chains[idx]| && cur == chains[idx][i] && n !in heap
      requires prev == if i == 0 then NIL else chains[idx][i - 1]
      modifies this
      ensures View() == Replace(old(View()), idx, i, value, n)
    {
      assert ValidChain(bucketOf, heap, heads[idx], chains[idx], idx, slots);
      heap := heap[n := heap[cur].(value := value)];
      if prev == NIL {
        heads := heads[idx := n];
      } else {
        heap := heap[prev := heap[prev].(next := n)];
      }
      ghost var ch: seq<Ref> := chains[idx];
      chains := chains[idx := ch[i := n]];
    }

    method ListDel(idx: nat, prev: Ref, cur: Ref, ghost i: nat)
      requires Sound() && idx < |chains| && i < |chains[idx]| && cur == chains[idx][i]
      requires prev == if i == 0 then NIL else chains[idx][i - 1]
      modifies this
      ensures View() == Delete(old(View()), idx, i)
    {
      assert ValidChain(bucketOf, heap, heads[idx], chains[idx], idx, slots);
      if prev == NIL {
        heads := heads[idx := heap[cur].next];
      } else {
        heap := heap[prev := heap[prev].(next := heap[cur].next)];
      }
      chains := chains[idx := chains[idx][..i] + chains[idx][i + 1..]];
    }

    // update_ccmap; n is what kzalloc returned, retire what call_rcu is called with.
    method Update(key: int, value: int, n: Ref) returns (result: int, retire: Ref)
      requires Sound() && n !in heap
      modifies this
      ensures Sound()
      ensures n == NIL ==> result == -1 && retire == NIL && View() == old(View())
      ensures n != NIL ==> result == bucketOf(key) && retire == Holder(old(View()), key)
      ensures n != NIL ==> View() == RcuMap.Update(old(View()), key, value, n)
      ensures n != NIL ==> Abs(View()) == Abs(old(View()))[key := value]
    {
      ghost var i := Position(View(), key);
      var idx := bucketOf(key);
      var prev, cur := Walk(idx, key);
      if n == NIL {
        return -1, NIL;
      }
      UpdateRefines(View(), key, value, n, RcuMap.Update(View(), key, value, n));
      HolderFacts(View(), key);
      if cur == NIL {
        ListAdd(idx, key, value, n);
      } else {
        ListReplace(idx, prev, cur, value, n, i);
      }
      return idx, cur;
    }

    // remove_ccmap.
    method Remove(key: int) returns (result: int, retire: Ref)
      requires Sound()
      modifies this
      ensures Sound() && View() == RcuMap.Remove(old(View()), key)
      ensures retire == Holder(old(View()), key)
      ensures result == if key in Abs(old(View())) then bucketOf(key) else -1
      ensures Abs(View()) == Abs(old(View())) - {key}
    {
      ghost var i := Position(View(), key);
      var idx := bucketOf(key);
      var prev, cur := Walk(idx, key);
      RemoveRefines(View(), key, RcuMap.Remove(View(), key));
      HolderAbs(View(), key);
      if cur == NIL {
        return -1, NIL;
      }
      ListDel(idx, prev, cur, i);
      return idx, cur;
    }

    // get_ccmap_rcu.
    method Get(key: int) returns (node: Ref)
      requires Sound()
      ensures node == NIL <==> key !in Abs(View())
      ensures node != NIL ==> node in heap && heap[node].key == key && Abs(View())[key] == heap[node].value
    {
      var prev;
      prev, node := Walk(bucketOf(key), key);
      HolderAbs(View(), key);
      HolderFacts(View(), key);
      LiveDistinct(View());
      BindingsFacts(heap, LiveSet(View()));
    }
  }
}
