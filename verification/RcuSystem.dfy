/**
 Any number of readers and writers on the map of ksync-rcu-cmap/rcucmap.c, as a
 step system. A writer's locked section is one step and its call_rcu another;
 a reader's walk takes one step per node. A grace period ends once every reader
 that was in a critical section when the node was retired has left it.
 */
module RcuSystem {
  import opened RcuMap

  type Tid = nat

  // `seen` (nodes linked at some moment since the lookup began) and `missed` (the
  // key was absent at some such moment) are auxiliary: no step reads them.
  // Faulted is a walk that dereferenced reclaimed memory.
  datatype Lookup =
    | Idle
    | Walking(key: int, cur: Ref, seen: set<Ref>, missed: bool)
    | Returned(key: int, node: Ref, seen: set<Ref>, missed: bool)
    | Faulted

  // A read-side critical section. `held` is auxiliary: the nodes linked at some
  // moment since rcu_read_lock.
  datatype Section = Section(held: set<Ref>, lookup: Lookup)

  // readers: threads inside a critical section; pending: writers that unlinked a
  // node and have not called call_rcu yet; retired: nodes handed to call_rcu, with
  // the readers their grace period still waits for.
  datatype Sys = Sys(m: Map, readers: map<Tid, Section>, pending: map<Tid, Ref>, retired: map<Ref, set<Tid>>)

  datatype Step =
    | UpdateStep(w: Tid, key: int, value: int, n: Ref)
    | UpdateFails(w: Tid, key: int)
    | RemoveStep(w: Tid, key: int)
    | CallRcu(w: Tid)
    | ReadLock(r: Tid)
    | BeginLookup(r: Tid, key: int)
    | Visit(r: Tid)
    | ReadUnlock(r: Tid)
    | Reclaim(x: Ref)

  ghost predicate Init(s: Sys) {
    && Valid(s.m)
    && s.m.heap == map[] && s.m.slots == 0
    && s.readers == map[] && s.pending == map[] && s.retired == map[]
  }

  ghost predicate Enabled(s: Sys, step: Step) {
    && Valid(s.m)
    && match step
       case UpdateStep(w, key, value, n) => w !in s.pending && n !in s.m.heap && n != NIL
       case UpdateFails(w, key) => w !in s.pending
       case RemoveStep(w, key) => w !in s.pending
       case CallRcu(w) => w in s.pending
       case ReadLock(r) => r !in s.readers
       case BeginLookup(r, key) => r in s.readers && (s.readers[r].lookup.Idle? || s.readers[r].lookup.Returned?)
       case Visit(r) => r in s.readers && s.readers[r].lookup.Walking?
       case ReadUnlock(r) => r in s.readers && (s.readers[r].lookup.Idle? || s.readers[r].lookup.Returned?)
       case Reclaim(x) => x in s.retired && s.retired[x] == {}
  }

  ghost function ObserveLookup(a: Snap, look: Lookup): Lookup
    requires a.live <= a.heap.Keys
  {
    match look
    case Walking(key, cur, seen, missed) => Walking(key, cur, seen + a.live, missed || Absent(a, key))
    case other => other
  }

  ghost function Observe(a: Snap, sec: Section): Section
    requires a.live <= a.heap.Keys
  {
    Section(sec.held + a.live, ObserveLookup(a, sec.lookup))
  }

  ghost function Written(s: Sys, w: Tid, m: Map, unlinked: Ref): Sys
    requires Valid(m)
  {
    Sys(m,
        map r | r in s.readers :: Observe(Of(m), s.readers[r]),
        if unlinked == NIL then s.pending else s.pending[w := unlinked],
        s.retired)
  }

  // One iteration of the loop of get_ccmap_rcu.
  ghost function Advance(heap: map<Ref, Node>, look: Lookup): Lookup
    requires look.Walking?
  {
    if look.cur == NIL then Returned(look.key, NIL, look.seen, look.missed)
    else if look.cur !in heap then Faulted
    else if heap[look.cur].key == look.key then Returned(look.key, look.cur, look.seen, look.missed)
    else look.(cur := heap[look.cur].next)
  }

  ghost function Apply(s: Sys, step: Step): Sys
    requires Enabled(s, step)
  {
    match step
    case UpdateStep(w, key, value, n) =>
      UpdateEffect(s.m, key, value, n, Update(s.m, key, value, n));
      Written(s, w, Update(s.m, key, value, n), Holder(s.m, key))
    case UpdateFails(w, key) => s
    case RemoveStep(w, key) =>
      RemoveEffect(s.m, key, Remove(s.m, key));
      Written(s, w, Remove(s.m, key), Holder(s.m, key))
    case CallRcu(w) =>
      s.(retired := s.retired[s.pending[w] := s.readers.Keys], pending := s.pending - {w})
    case ReadLock(r) => s.(readers := s.readers[r := Section(LiveSet(s.m), Idle)])
    case BeginLookup(r, key) =>
      s.(readers := s.readers[r := s.readers[r].(lookup :=
        Walking(key, s.m.heads[s.m.bucketOf(key)], LiveSet(s.m), Absent(Of(s.m), key)))])
    case Visit(r) => s.(readers := s.readers[r := s.readers[r].(lookup := Advance(s.m.heap, s.readers[r].lookup))])
    case ReadUnlock(r) =>
      s.(readers := s.readers - {r}, retired := map x | x in s.retired :: s.retired[x] - {r})
    case Reclaim(x) => s.(m := s.m.(heap := s.m.heap - {x}), retired := s.retired - {x})
  }

  // The rank of a link target: its slot, or below every slot at the end of the list.
  ghost function Rank(a: Snap, x: Ref): int
    requires x == NIL || x in a.heap
  {
    if x == NIL then -1 else a.heap[x].slot
  }

  ghost predicate SameBucket(a: Snap, x: Ref, y: Ref)
    requires x in a.heap && y in a.heap
  {
    a.bucketOf(a.heap[x].key) == a.bucketOf(a.heap[y].key)
  }

  // A set of nodes that is safe to walk: it holds every linked node, only allocated
  // nodes, and is closed under next; every link, even a stale one, leads to a lower
  // slot of the same bucket and skips no slot that is still linked.
  ghost predicate Walkable(a: Snap, view: set<Ref>) {
    && a.live <= view <= a.heap.Keys
    && (forall x {:trigger GoodLink(a, view, x)} | x in view :: GoodLink(a, view, x))
    && (forall x, y | x in view && y in view && SameBucket(a, x, y) && a.heap[x].slot == a.heap[y].slot ::
          a.heap[x].key == a.heap[y].key)
  }

  ghost predicate GoodLink(a: Snap, view: set<Ref>, x: Ref)
    requires a.live <= view <= a.heap.Keys && x in view
  {
    var next := a.heap[x].next;
    && (next == NIL || (next in view && SameBucket(a, x, next)))
    && Rank(a, next) < a.heap[x].slot < a.slots
    && forall y | y in a.live && SameBucket(a, x, y) ::
         a.heap[y].slot <= Rank(a, next) || a.heap[x].slot <= a.heap[y].slot
  }

  lemma LiveLink(m: Map, x: Ref)
    requires Valid(m) && x in LiveSet(m)
    ensures GoodLink(Of(m), LiveSet(m), x)
  {
    var b := m.bucketOf(m.heap[x].key);
    var ch := m.chains[b];
    assert ValidChain(m.bucketOf, m.heap, m.heads[b], ch, b, m.slots);
    var i :| 0 <= i < |ch| && ch[i] == x;
    assert m.heap[x].next == At(ch, i + 1);
    forall y | y in LiveSet(m) && m.bucketOf(m.heap[y].key) == b
      ensures m.heap[y].slot <= Rank(Of(m), At(ch, i + 1)) || m.heap[x].slot <= m.heap[y].slot
    {
      var j :| 0 <= j < |ch| && ch[j] == y;
    }
  }

  lemma LiveSlots(m: Map, x: Ref, y: Ref)
    requires Valid(m) && x in LiveSet(m) && y in LiveSet(m)
    requires SameBucket(Of(m), x, y) && m.heap[x].slot == m.heap[y].slot
    ensures x == y
  {
    var b := m.bucketOf(m.heap[x].key);
    assert ValidChain(m.bucketOf, m.heap, m.heads[b], m.chains[b], b, m.slots);
    var i :| 0 <= i < |m.chains[b]| && m.chains[b][i] == x;
    var j :| 0 <= j < |m.chains[b]| && m.chains[b][j] == y;
  }

  lemma LiveWalkable(m: Map)
    requires Valid(m)
    ensures Walkable(Of(m), LiveSet(m))
  {
    forall x | x in LiveSet(m) ensures GoodLink(Of(m), LiveSet(m), x) {
      LiveLink(m, x);
    }
    forall x, y | x in LiveSet(m) && y in LiveSet(m) && SameBucket(Of(m), x, y) && m.heap[x].slot == m.heap[y].slot
      ensures m.heap[x].key == m.heap[y].key
    {
      LiveSlots(m, x, y);
    }
  }

  lemma StaleLink(a: Snap, b: Snap, view: set<Ref>, x: Ref)
    requires Evolves(a, b) && Walkable(a, view) && x in view && x !in b.live
    requires view + b.live <= b.heap.Keys
    ensures GoodLink(b, view + b.live, x)
  {
    assert GoodLink(a, view, x);
    var next := a.heap[x].next;
    forall y | y in b.live && SameBucket(b, x, y)
      ensures b.heap[y].slot <= Rank(b, next) || b.heap[x].slot <= b.heap[y].slot
    {
      if SlotTaken(a, b.heap[y].key, b.heap[y].slot) {
        var z :| z in a.live && a.heap[z].key == b.heap[y].key && a.heap[z].slot == b.heap[y].slot;
        assert SameBucket(a, x, z);
      }
    }
  }

  lemma SlotsEvolve(a: Snap, b: Snap, view: set<Ref>, x: Ref, y: Ref)
    requires Evolves(a, b) && Walkable(a, view) && x in view && y in b.live
    requires SameBucket(b, x, y) && b.heap[x].slot == b.heap[y].slot
    ensures b.heap[x].key == b.heap[y].key
  {
    assert GoodLink(a, view, x);
    var z :| z in a.live && a.heap[z].key == b.heap[y].key && a.heap[z].slot == b.heap[y].slot;
    assert SameBucket(a, x, z);
  }

  // Any walkable view stays walkable across a write, once it takes in what is linked now.
  lemma WalkableEvolves(a: Snap, b: Snap, view: set<Ref>)
    requires Evolves(a, b) && Walkable(a, view) && Walkable(b, b.live)
    ensures Walkable(b, view + b.live)
  {
    var view' := view + b.live;
    forall x | x in view' ensures GoodLink(b, view', x) {
      if x in b.live {
        assert GoodLink(b, b.live, x);
      } else {
        StaleLink(a, b, view, x);
      }
    }
    forall x, y | x in view' && y in view' && SameBucket(b, x, y) && b.heap[x].slot == b.heap[y].slot
      ensures b.heap[x].key == b.heap[y].key
    {
      if x in view && y in view {
        assert SameBucket(a, x, y);
      } else if x in view {
        SlotsEvolve(a, b, view, x, y);
      } else if y in view {
        SlotsEvolve(a, b, view, y, x);
      }
    }
  }

  ghost predicate Absent(a: Snap, key: int)
    requires a.live <= a.heap.Keys
  {
    !HasKey(a.heap, a.live, key)
  }

  // Where a walk for key stands: either the key has been absent at some moment of
  // the lookup, or its slot is still linked and not yet behind the cursor.
  ghost predicate OnCourse(a: Snap, look: Lookup)
    requires a.live <= a.heap.Keys && look.Walking? && look.seen <= a.heap.Keys
  {
    && (look.cur == NIL || (look.cur in look.seen && a.bucketOf(a.heap[look.cur].key) == a.bucketOf(look.key)))
    && (look.missed ||
        (!Absent(a, look.key) &&
         look.cur != NIL &&
         forall y | y in a.live && a.heap[y].key == look.key :: a.heap[y].slot <= a.heap[look.cur].slot))
  }

  lemma OnCourseEvolves(a: Snap, b: Snap, look: Lookup)
    requires Evolves(a, b) && look.Walking? && Walkable(a, look.seen) && OnCourse(a, look)
    ensures OnCourse(b, ObserveLookup(b, look))
  {
    var look' := ObserveLookup(b, look);
    if !look'.missed {
      forall y | y in b.live && b.heap[y].key == look.key ensures b.heap[y].slot <= b.heap[look.cur].slot {
        var z :| z in a.live && a.heap[z].key == b.heap[y].key && a.heap[z].slot == b.heap[y].slot;
      }
    }
  }

  lemma OnCourseBegins(m: Map, key: int)
    requires Valid(m)
    ensures OnCourse(Of(m), Walking(key, m.heads[m.bucketOf(key)], LiveSet(m), Absent(Of(m), key)))
  {
    var b := m.bucketOf(key);
    var ch := m.chains[b];
    assert ValidChain(m.bucketOf, m.heap, m.heads[b], ch, b, m.slots);
    assert ch != [] ==> ch[0] in LiveSet(m);
    forall y | y in LiveSet(m) && m.heap[y].key == key ensures ch != [] && m.heap[y].slot <= m.heap[ch[0]].slot {
      var j :| 0 <= j < |ch| && ch[j] == y;
    }
  }

  // What a lookup may claim at any moment, given the map it reads.
  ghost predicate LookupOk(a: Snap, held: set<Ref>, look: Lookup)
    requires a.live <= held <= a.heap.Keys
  {
    match look
    case Idle => true
    case Walking(_, _, seen, _) => seen <= held && Walkable(a, seen) && OnCourse(a, look)
    case Returned(key, node, seen, missed) =>
      seen <= held && if node == NIL then missed else node in seen && a.heap[node].key == key
    case Faulted => false
  }

  lemma AdvanceOk(a: Snap, held: set<Ref>, look: Lookup)
    requires a.live <= held <= a.heap.Keys && look.Walking? && LookupOk(a, held, look)
    ensures LookupOk(a, held, Advance(a.heap, look))
    ensures Advance(a.heap, look).Walking? ==> Rank(a, Advance(a.heap, look).cur) < Rank(a, look.cur)
  {
    if look.cur != NIL && a.heap[look.cur].key != look.key {
      assert GoodLink(a, look.seen, look.cur);
      if !look.missed {
        forall y | y in a.live && a.heap[y].key == look.key
          ensures a.heap[y].slot <= Rank(a, a.heap[look.cur].next)
        {
          assert SameBucket(a, look.cur, y);
        }
      }
    }
  }

  // Some writer has unlinked x and has still to call call_rcu for it.
  ghost predicate Owed(pending: map<Tid, Ref>, x: Ref) {
    exists w :: w in pending && pending[w] == x
  }

  // Every allocated node is in exactly one of three places: linked, owed to
  // call_rcu by exactly one writer, or retired.
  ghost predicate Accounted(nodes: set<Ref>, live: set<Ref>, readers: set<Tid>, pending: map<Tid, Ref>, retired: map<Ref, set<Tid>>) {
    && (forall v, w | v in pending && w in pending && pending[v] == pending[w] :: v == w)
    && (forall w | w in pending :: pending[w] in nodes && pending[w] !in live && pending[w] !in retired)
    && (forall x | x in retired :: x in nodes && x !in live && retired[x] <= readers)
    && (forall x | x in nodes :: x in live || Owed(pending, x) || x in retired)
  }

  ghost predicate Protected(live: set<Ref>, pending: map<Tid, Ref>, retired: map<Ref, set<Tid>>, r: Tid, x: Ref) {
    x in live || Owed(pending, x) || (x in retired && r in retired[x])
  }

  ghost predicate SectionOk(s: Sys, r: Tid)
    requires Valid(s.m) && r in s.readers
  {
    && Walkable(Of(s.m), s.readers[r].held)
    && LookupOk(Of(s.m), s.readers[r].held, s.readers[r].lookup)
    && forall x | x in s.readers[r].held :: Protected(LiveSet(s.m), s.pending, s.retired, r, x)
  }

  ghost predicate Inv(s: Sys) {
    && Valid(s.m)
    && Accounted(s.m.heap.Keys, LiveSet(s.m), s.readers.Keys, s.pending, s.retired)
    && forall r {:trigger SectionOk(s, r)} | r in s.readers :: SectionOk(s, r)
  }

  // A locked write: m' evolves from s.m, and what it takes from or adds to the linked nodes.
  ghost predicate IsWrite(s: Sys, w: Tid, m': Map, unlinked: Ref, added: set<Ref>)
    requires Valid(s.m) && Valid(m')
  {
    && w !in s.pending
    && Evolves(Of(s.m), Of(m'))
    && (unlinked == NIL || unlinked in LiveSet(s.m))
    && added !! s.m.heap.Keys
    && LiveSet(m') == LiveSet(s.m) - {unlinked} + added
    && m'.heap.Keys == s.m.heap.Keys + added
  }

  lemma OwedExtends(pending: map<Tid, Ref>, w: Tid, y: Ref, x: Ref)
    requires w !in pending
    ensures Owed(pending[w := y], x) <==> x == y || Owed(pending, x)
  {
    var p := pending[w := y];
    assert p[w] == y;
    forall v | v in pending ensures p[v] == pending[v] {
    }
  }

  lemma UnlinkAccounted(nodes: set<Ref>, live: set<Ref>, readers: set<Tid>, pending: map<Tid, Ref>, retired: map<Ref, set<Tid>>,
                        w: Tid, x: Ref, added: set<Ref>)
    requires Accounted(nodes, live, readers, pending, retired) && live <= nodes && added !! nodes
    requires w !in pending && x in live
    ensures Accounted(nodes + added, live - {x} + added, readers, pending[w := x], retired)
  {
    var nodes', live', pending' := nodes + added, live - {x} + added, pending[w := x];
    forall v, u | v in pending' && u in pending' && pending'[v] == pending'[u] ensures v == u {
      assert v == w || v in pending;
      assert u == w || u in pending;
    }
    forall y | y in nodes' ensures y in live' || Owed(pending', y) || y in retired {
      OwedExtends(pending, w, x, y);
    }
    forall v | v in pending' ensures pending'[v] in nodes' && pending'[v] !in live' && pending'[v] !in retired {
      assert v == w || v in pending;
    }
  }

  lemma WriteProtects(live: set<Ref>, live': set<Ref>, pending: map<Tid, Ref>, retired: map<Ref, set<Tid>>, w: Tid, unlinked: Ref,
                      r: Tid, x: Ref)
    requires Protected(live, pending, retired, r, x) && live - {unlinked} <= live' && w !in pending
    ensures Protected(live', pending[w := unlinked], retired, r, x)
    ensures unlinked !in live ==> Protected(live', pending, retired, r, x)
  {
    OwedExtends(pending, w, unlinked, x);
  }

  lemma WriteSection(s: Sys, w: Tid, m': Map, unlinked: Ref, added: set<Ref>, r: Tid)
    requires Inv(s) && Valid(m') && IsWrite(s, w, m', unlinked, added) && r in s.readers
    ensures SectionOk(Written(s, w, m', unlinked), r)
  {
    var s' := Written(s, w, m', unlinked);
    var a, b, sec := Of(s.m), Of(m'), s.readers[r];
    assert SectionOk(s, r);
    LiveWalkable(m');
    WalkableEvolves(a, b, sec.held);
    if sec.lookup.Walking? {
      WalkableEvolves(a, b, sec.lookup.seen);
      OnCourseEvolves(a, b, sec.lookup);
    }
    assert NIL !in a.live;
    forall x | x in s'.readers[r].held ensures Protected(b.live, s'.pending, s.retired, r, x) {
      if x !in b.live {
        WriteProtects(a.live, b.live, s.pending, s.retired, w, unlinked, r, x);
      }
    }
  }

  lemma WriteInv(s: Sys, w: Tid, m': Map, unlinked: Ref, added: set<Ref>)
    requires Inv(s) && Valid(m') && IsWrite(s, w, m', unlinked, added)
    ensures Inv(Written(s, w, m', unlinked))
  {
    var s' := Written(s, w, m', unlinked);
    assert NIL !in LiveSet(s.m);
    if unlinked != NIL {
      UnlinkAccounted(s.m.heap.Keys, LiveSet(s.m), s.readers.Keys, s.pending, s.retired, w, unlinked, added);
    }
    assert s'.readers.Keys == s.readers.Keys;
    forall r | r in s'.readers ensures SectionOk(s', r) {
      WriteSection(s, w, m', unlinked, added, r);
    }
  }

  // Writer w hands its node to call_rcu.
  lemma OwedHandedOver(pending: map<Tid, Ref>, w: Tid, y: Ref)
    requires w in pending && Owed(pending, y) && y != pending[w]
    ensures Owed(pending - {w}, y)
  {
    var v :| v in pending && pending[v] == y;
    assert v in pending - {w} && (pending - {w})[v] == y;
  }

  lemma AccountedHandedOver(nodes: set<Ref>, live: set<Ref>, readers: set<Tid>, pending: map<Tid, Ref>,
                            retired: map<Ref, set<Tid>>, w: Tid)
    requires w in pending && Accounted(nodes, live, readers, pending, retired)
    ensures Accounted(nodes, live, readers, pending - {w}, retired[pending[w] := readers])
  {
    forall y | Owed(pending, y) && y != pending[w] ensures Owed(pending - {w}, y) {
      OwedHandedOver(pending, w, y);
    }
  }

  lemma ProtectedHandedOver(live: set<Ref>, readers: set<Tid>, pending: map<Tid, Ref>,
                            retired: map<Ref, set<Tid>>, w: Tid, r: Tid, y: Ref)
    requires w in pending && r in readers && Protected(live, pending, retired, r, y)
    ensures Protected(live, pending - {w}, retired[pending[w] := readers], r, y)
  {
    if Owed(pending, y) && y != pending[w] {
      OwedHandedOver(pending, w, y);
    }
  }

  lemma CallRcuInv(s: Sys, w: Tid)
    requires Inv(s) && Enabled(s, CallRcu(w))
    ensures Inv(Apply(s, CallRcu(w)))
  {
    var s' := Apply(s, CallRcu(w));
    AccountedHandedOver(s.m.heap.Keys, LiveSet(s.m), s.readers.Keys, s.pending, s.retired, w);
    forall r | r in s'.readers ensures SectionOk(s', r) {
      assert SectionOk(s, r);
      forall y | y in s'.readers[r].held ensures Protected(LiveSet(s.m), s'.pending, s'.retired, r, y) {
        ProtectedHandedOver(LiveSet(s.m), s.readers.Keys, s.pending, s.retired, w, r, y);
      }
    }
  }

  lemma ReadLockInv(s: Sys, r: Tid)
    requires Inv(s) && Enabled(s, ReadLock(r))
    ensures Inv(Apply(s, ReadLock(r)))
  {
    var s' := Apply(s, ReadLock(r));
    LiveWalkable(s.m);
    forall t | t in s'.readers ensures SectionOk(s', t) {
      assert t == r || SectionOk(s, t);
    }
  }

  // A reader step that changes only its own lookup.
  lemma LookupInv(s: Sys, r: Tid, look: Lookup)
    requires Inv(s) && r in s.readers && SectionOk(s, r) && LookupOk(Of(s.m), s.readers[r].held, look)
    ensures Inv(s.(readers := s.readers[r := s.readers[r].(lookup := look)]))
  {
    var s' := s.(readers := s.readers[r := s.readers[r].(lookup := look)]);
    assert s'.readers.Keys == s.readers.Keys;
    forall t | t in s'.readers ensures SectionOk(s', t) {
      assert SectionOk(s, t);
    }
  }

  lemma ReadUnlockInv(s: Sys, r: Tid)
    requires Inv(s) && Enabled(s, ReadUnlock(r))
    ensures Inv(Apply(s, ReadUnlock(r)))
  {
    var s' := Apply(s, ReadUnlock(r));
    forall t | t in s'.readers ensures SectionOk(s', t) {
      assert SectionOk(s, t);
      forall y | y in s'.readers[t].held ensures Protected(LiveSet(s.m), s'.pending, s'.retired, t, y) {
        assert Protected(LiveSet(s.m), s.pending, s.retired, t, y);
      }
    }
  }

  lemma FreeValid(m: Map, x: Ref)
    requires Valid(m) && x !in LiveSet(m)
    ensures Valid(m.(heap := m.heap - {x}))
    ensures LiveSet(m.(heap := m.heap - {x})) == LiveSet(m)
  {
    var m' := m.(heap := m.heap - {x});
    forall c | 0 <= c < |m'.chains|
      ensures ValidChain(m'.bucketOf, m'.heap, m'.heads[c], m'.chains[c], c, m'.slots)
    {
      assert ValidChain(m.bucketOf, m.heap, m.heads[c], m.chains[c], c, m.slots);
      forall y | y in m.chains[c] ensures y in m'.heap {
        assert y in LiveSet(m);
      }
      OtherChain(m.bucketOf, m.heap, m'.heap, m.heads[c], m.chains[c], c, m.slots, m.slots);
    }
  }

  lemma WalkableFree(a: Snap, b: Snap, view: set<Ref>, x: Ref)
    requires Walkable(a, view) && x !in view && b == a.(heap := a.heap - {x})
    ensures Walkable(b, view)
  {
    forall y | y in view ensures GoodLink(b, view, y) {
      assert GoodLink(a, view, y);
    }
  }

  // A retired node that no reader is waited for is reclaimed.
  lemma AccountedFree(nodes: set<Ref>, live: set<Ref>, readers: set<Tid>, pending: map<Tid, Ref>,
                      retired: map<Ref, set<Tid>>, x: Ref)
    requires Accounted(nodes, live, readers, pending, retired) && x in retired
    ensures Accounted(nodes - {x}, live, readers, pending, retired - {x})
    ensures x !in live && !Owed(pending, x)
  {
  }

  lemma SectionFree(a: Snap, b: Snap, sec: Section, x: Ref)
    requires Walkable(a, sec.held) && LookupOk(a, sec.held, sec.lookup) && x !in sec.held && b == a.(heap := a.heap - {x})
    ensures Walkable(b, sec.held) && LookupOk(b, sec.held, sec.lookup)
  {
    WalkableFree(a, b, sec.held, x);
    if sec.lookup.Walking? {
      WalkableFree(a, b, sec.lookup.seen, x);
    }
  }

  lemma ReclaimInv(s: Sys, x: Ref)
    requires Inv(s) && Enabled(s, Reclaim(x))
    ensures Inv(Apply(s, Reclaim(x)))
  {
    var s' := Apply(s, Reclaim(x));
    AccountedFree(s.m.heap.Keys, LiveSet(s.m), s.readers.Keys, s.pending, s.retired, x);
    FreeValid(s.m, x);
    forall r | r in s'.readers ensures SectionOk(s', r) {
      var sec := s.readers[r];
      assert SectionOk(s, r) && !Protected(LiveSet(s.m), s.pending, s.retired, r, x);
      SectionFree(Of(s.m), Of(s'.m), sec, x);
      forall y | y in sec.held ensures Protected(LiveSet(s'.m), s'.pending, s'.retired, r, y) {
        assert Protected(LiveSet(s.m), s.pending, s.retired, r, y);
      }
    }
  }

  lemma UpdateInv(s: Sys, w: Tid, key: int, value: int, n: Ref)
    requires Inv(s) && Enabled(s, UpdateStep(w, key, value, n))
    ensures Inv(Apply(s, UpdateStep(w, key, value, n)))
  {
    UpdateIsWrite(s, w, key, value, n);
    WriteInv(s, w, Update(s.m, key, value, n), Holder(s.m, key), {n});
  }

  lemma UpdateIsWrite(s: Sys, w: Tid, key: int, value: int, n: Ref)
    requires Valid(s.m) && w !in s.pending && n !in s.m.heap && n != NIL
    ensures Valid(Update(s.m, key, value, n)) && IsWrite(s, w, Update(s.m, key, value, n), Holder(s.m, key), {n})
  {
    UpdateEvolves(s.m, key, value, n, Update(s.m, key, value, n));
    UpdateEffect(s.m, key, value, n, Update(s.m, key, value, n));
    HolderFacts(s.m, key);
  }

  lemma RemoveIsWrite(s: Sys, w: Tid, key: int)
    requires Valid(s.m) && w !in s.pending
    ensures Valid(Remove(s.m, key)) && IsWrite(s, w, Remove(s.m, key), Holder(s.m, key), {})
  {
    RemoveEvolves(s.m, key, Remove(s.m, key));
    RemoveEffect(s.m, key, Remove(s.m, key));
    HolderFacts(s.m, key);
  }

  lemma RemoveInv(s: Sys, w: Tid, key: int)
    requires Inv(s) && Enabled(s, RemoveStep(w, key))
    ensures Inv(Apply(s, RemoveStep(w, key)))
  {
    RemoveIsWrite(s, w, key);
    WriteInv(s, w, Remove(s.m, key), Holder(s.m, key), {});
  }

  lemma BeginInv(s: Sys, r: Tid, key: int)
    requires Inv(s) && Enabled(s, BeginLookup(r, key))
    ensures Inv(Apply(s, BeginLookup(r, key)))
  {
    assert SectionOk(s, r);
    LiveWalkable(s.m);
    OnCourseBegins(s.m, key);
    LookupInv(s, r, Walking(key, s.m.heads[s.m.bucketOf(key)], LiveSet(s.m), Absent(Of(s.m), key)));
  }

  lemma VisitInv(s: Sys, r: Tid)
    requires Inv(s) && Enabled(s, Visit(r))
    ensures Inv(Apply(s, Visit(r)))
  {
    assert SectionOk(s, r);
    AdvanceOk(Of(s.m), s.readers[r].held, s.readers[r].lookup);
    LookupInv(s, r, Advance(s.m.heap, s.readers[r].lookup));
  }

  // Every step of every thread keeps the invariant.
  lemma StepInv(s: Sys, step: Step)
    requires Inv(s) && Enabled(s, step)
    ensures Inv(Apply(s, step))
  {
    match step
    case UpdateStep(w, key, value, n) => UpdateInv(s, w, key, value, n);
    case UpdateFails(w, key) =>
    case RemoveStep(w, key) => RemoveInv(s, w, key);
    case CallRcu(w) => CallRcuInv(s, w);
    case ReadLock(r) => ReadLockInv(s, r);
    case BeginLookup(r, key) => BeginInv(s, r, key);
    case Visit(r) => VisitInv(s, r);
    case ReadUnlock(r) => ReadUnlockInv(s, r);
    case Reclaim(x) => ReclaimInv(s, x);
  }
}
