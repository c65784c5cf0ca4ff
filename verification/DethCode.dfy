/**
 The entry points of kdev-net-eth/deth.c as code on linked packets: one next field links
 a packet either into its device's pool or into the peer's rx queue.
 */
module DethCode {
  import opened Deth

  // struct deth_packet. The ghost fields say in which list it is and how many packets come
  // after it there, and whether it was given to kfree. So a packet cannot be in two lists,
  // nor twice in one.
  class Pkt {
    const owner: bool
    ghost const id: nat
    var next: Pkt?
    var data: Frame
    ghost var home: List?
    ghost var after: nat
    ghost var freed: bool

    // kmalloc
    constructor (ghost id: nat, owner: bool)
      ensures Read() == Packet(id, owner, []) && Loose()
    {
      this.id, this.owner, next, data, home, freed := id, owner, null, [], null, false;
    }

    ghost function Read(): Packet
      reads this
    {
      Packet(id, owner, data)
    }

    // In no list, and not freed.
    ghost predicate Loose()
      reads this
    {
      home == null && !freed
    }

    // kfree
    method Free()
      requires Loose()
      modifies this
      ensures freed
    {
      freed := true;
    }
  }

  datatype Shape = Sound | Broken

  // A list head of struct deth_priv. Its list has exactly the packets ns, and they hold
  // contents.
  class List {
    ghost const tag: nat
    var head: Pkt?
    ghost var ns: seq<Pkt>
    ghost var contents: seq<Packet>

    ghost predicate Linked()
      reads this, ns
    {
      && |contents| == |ns| && head == (if ns == [] then null else ns[0])
      && (forall i | 0 <= i < |ns| ::
            ns[i].home == this && ns[i].after == |ns| - 1 - i && !ns[i].freed && ns[i].Read() == contents[i])
      && (forall i, j | 0 <= i < j < |ns| && j == i + 1 :: ns[i].next == ns[j])
      && (ns != [] ==> ns[|ns| - 1].next == null)
    }

    ghost function Shape(): Shape
      reads this, ns
    {
      if Linked() then Sound else Broken
    }

    ghost predicate Valid()
      reads this, ns
    {
      Shape() == Sound
    }

    constructor (ghost tag: nat)
      ensures Valid() && ns == [] && contents == [] && this.tag == tag
    {
      this.tag, head, ns, contents := tag, null, [], [];
    }

    // Link a packet in front. This list and all others stay well linked.
    method Push(pkt: Pkt, ghost lists: set<List>)
      requires this in lists && (forall l | l in lists :: l.Valid()) && pkt.Loose()
      modifies this, pkt
      ensures forall l | l in lists :: l.Valid()
      ensures ns == [pkt] + old(ns) && contents == [old(pkt.Read())] + old(contents) && pkt.next == old(head)
    {
      Link(pkt);
    }

    method Link(pkt: Pkt)
      requires Valid() && pkt.Loose()
      modifies this, pkt
      ensures Valid() && ns == [pkt] + old(ns) && contents == [old(pkt.Read())] + old(contents) && pkt.next == old(head)
    {
      pkt.next := head;
      head := pkt;
      pkt.home, pkt.after := this, |ns|;
      ns, contents := [pkt] + ns, [pkt.Read()] + contents;
    }

    // Take the first packet off, which keeps its next.
    method Pop(ghost lists: set<List>) returns (pkt: Pkt)
      requires this in lists && (forall l | l in lists :: l.Valid()) && ns != []
      modifies this, head
      ensures forall l | l in lists :: l.Valid()
      ensures old(contents) != [] && pkt == old(ns)[0] == old(head) && pkt.Loose() && pkt.Read() == old(contents)[0]
      ensures ns == old(ns)[1..] && contents == old(contents)[1..]
    {
      pkt := Unlink();
    }

    method Unlink() returns (pkt: Pkt)
      requires Valid() && ns != []
      modifies this, head
      ensures Valid() && pkt == old(ns)[0] == old(head) && pkt.Loose() && pkt.Read() == old(contents)[0]
      ensures ns == old(ns)[1..] && contents == old(contents)[1..]
    {
      pkt := head;
      head := pkt.next;
      pkt.home := null;
      ns, contents := ns[1..], contents[1..];
    }

    // Take the first packet off and free it.
    method Drain(ghost lists: set<List>)
      requires this in lists && (forall l | l in lists :: l.Valid()) && ns != []
      modifies this, head
      ensures forall l | l in lists :: l.Valid()
      ensures ns == old(ns)[1..] && old(ns)[0].freed
    {
      var pkt := Pop(lists);
      pkt.Free();
    }
  }

  lemma Drop(ns: seq<Pkt>, k: nat)
    requires k < |ns|
    ensures ns[k..][0] == ns[k] && ns[k..][1..] == ns[k + 1..]
  {
  }

  // Different lists have no packet in common, and no packet comes twice in a list, so
  // following next comes to an end.
  lemma Separate(lists: set<List>)
    requires forall l | l in lists :: l.Valid()
    ensures forall a, b, i, j | a in lists && b in lists && 0 <= i < |a.ns| && 0 <= j < |b.ns| && a.ns[i] == b.ns[j] :: a == b && i == j
  {
    forall a, b, i, j | a in lists && b in lists && 0 <= i < |a.ns| && 0 <= j < |b.ns| && a.ns[i] == b.ns[j]
      ensures a == b && i == j
    {
      assert a.Valid() && b.Valid() && a.ns[i].home == a && b.ns[j].home == b && a.ns[i].after == b.ns[j].after;
    }
  }

  // struct deth_priv with the state the kernel keeps of the device. lists are the lists of
  // all devices.
  class Device {
    const index: bool
    const pool: List
    const rx: List
    ghost const lists: set<List>
    var queueStopped: bool
    var napiScheduled: bool
    var rxIntr: bool
    var txIntr: bool
    var rxIntEnabled: bool
    var locked: bool
    var skb: bool
    var txPacketLen: nat
    var stats: Stats
    // Auxiliary, for the properties only.
    ghost var log: Log

    ghost predicate Wired() {
      pool in lists && rx in lists && pool != rx
    }

    ghost function View(): Dev
      reads this, pool, rx
    {
      Dev(pool.contents, rx.contents, queueStopped, napiScheduled, rxIntr, txIntr, rxIntEnabled, locked, skb, txPacketLen, stats, log)
    }

    // deth_setup and deth_open, with both lists empty
    constructor (d: bool, pool: List, rx: List, ghost lists: set<List>, poolSize: nat)
      requires pool in lists && rx in lists && pool != rx && pool.ns == [] && rx.ns == [] && forall l | l in lists :: l.Valid()
      modifies pool
      ensures index == d && this.pool == pool && this.rx == rx && this.lists == lists && View() == Fresh(d, poolSize)
      ensures forall l | l in lists :: l.Valid()
    {
      index, this.pool, this.rx, this.lists := d, pool, rx, lists;
      queueStopped, napiScheduled, rxIntr, txIntr, rxIntEnabled := false, false, false, false, true;
      locked, skb, txPacketLen, stats, log := false, false, 0, Stats(0, 0, 0, 0, 0, 0), Log([], [], [], 0, 0, []);
      new;
      assert rx.Valid() && pool.Valid();
      SetupPool(poolSize);
    }

    // deth_setup_pool; count is how many of the allocations succeed before one fails.
    method SetupPool(count: nat)
      requires Wired() && pool.ns == [] && forall l | l in lists :: l.Valid()
      modifies this`log, pool
      ensures forall l | l in lists :: l.Valid()
      ensures pool.contents == Deth.SetupPool(index, old(log).made, count) && log == old(log).(made := old(log).made + count)
      ensures forall k | 0 <= k < |pool.ns| :: fresh(pool.ns[k])
    {
      ghost var made := log.made;
      log := log.(made := made + count);
      assert pool.Valid();
      var i := 0;
      while i < count
        invariant 0 <= i <= count && log == old(log).(made := made + count) && forall l | l in lists :: l.Valid()
        invariant pool.contents == Deth.SetupPool(index, made, i)
        invariant forall k | 0 <= k < |pool.ns| :: fresh(pool.ns[k])
      {
        AddPacket(made + i);
        i := i + 1;
      }
    }

    method AddPacket(ghost id: nat)
      requires Wired() && forall l | l in lists :: l.Valid()
      modifies pool
      ensures forall l | l in lists :: l.Valid()
      ensures pool.contents == [Packet(id, index, [])] + old(pool.contents)
      ensures |pool.ns| == |old(pool.ns)| + 1 && fresh(pool.ns[0]) && pool.ns[1..] == old(pool.ns)
    {
      var pkt := new Pkt(id, index);
      pool.Push(pkt, lists);
    }

    // deth_teardown_pool
    method TeardownPool()
      requires Wired() && forall l | l in lists :: l.Valid()
      modifies pool, pool.ns
      ensures pool.ns == [] && forall l | l in lists :: l.Valid()
      ensures forall k | 0 <= k < |old(pool.ns)| :: old(pool.ns)[k].freed
    {
      ghost var all, k := pool.ns, 0;
      assert pool.Valid();
      while pool.head != null
        invariant 0 <= k <= |all| && pool.ns == all[k..] && forall l | l in lists :: l.Valid()
        invariant forall l | 0 <= l < k :: all[l].freed
        decreases |pool.ns|
      {
        assert pool.Valid();
        Drop(all, k);
        pool.Drain(lists);
        k := k + 1;
      }
      assert pool.Valid();
    }

    // deth_tx_reserve_buffer; a null result leaves the lock held.
    method ReserveBuffer() returns (pkt: Pkt?)
      requires Wired() && !locked && forall l | l in lists :: l.Valid()
      modifies this`queueStopped, this`locked, pool, pool.head
      ensures forall l | l in lists :: l.Valid()
      ensures View() == Reserve(old(View())) && pkt == old(pool.head) && (pkt == null <==> old(pool.contents) == [])
      ensures old(pool.ns) != [] ==> pkt == old(pool.ns)[0] && pool.ns == old(pool.ns)[1..]
      ensures pkt != null ==> pkt.Loose() && old(pool.contents) != [] && pkt.Read() == old(pool.contents)[0]
    {
      assert pool.Valid();
      if pool.head == null {
        locked := true;
        return null;
      }
      pkt := pool.Pop(lists);
      assert pool.Valid();
      if pool.head == null {
        queueStopped := true;
      }
    }

    // deth_tx_release_buffer, on the packet's own device
    method ReleaseBuffer(pkt: Pkt)
      requires Wired() && pkt.Loose() && forall l | l in lists :: l.Valid()
      modifies this`queueStopped, pool, pkt
      ensures forall l | l in lists :: l.Valid()
      ensures pool.ns == [pkt] + old(pool.ns)
      ensures View() == old(View()).(pool := [old(pkt.Read())] + old(pool.contents),
              stopped := old(queueStopped) && old(pool.contents) != [])
    {
      assert pool.Valid();
      pool.Push(pkt, lists);
      if queueStopped && pkt.next == null {
        queueStopped := false;
      }
    }

    // deth_rx_prod_buf
    method RxProd(pkt: Pkt)
      requires Wired() && pkt.Loose() && forall l | l in lists :: l.Valid()
      modifies rx, pkt
      ensures rx.ns == [pkt] + old(rx.ns) && forall l | l in lists :: l.Valid()
      ensures View() == old(View()).(rx := [old(pkt.Read())] + old(rx.contents))
    {
      rx.Push(pkt, lists);
    }

    // deth_rx_cons_buf
    method RxCons() returns (pkt: Pkt?)
      requires Wired() && forall l | l in lists :: l.Valid()
      modifies rx, rx.head
      ensures pkt == old(rx.head) && forall l | l in lists :: l.Valid()
      ensures pkt == null <==> old(rx.contents) == []
      ensures old(rx.ns) != [] ==> pkt == old(rx.ns)[0] && rx.ns == old(rx.ns)[1..]
      ensures pkt == null ==> View() == old(View())
      ensures pkt != null ==> pkt.Loose() && old(rx.contents) != [] && pkt.Read() == old(rx.contents)[0]
      ensures pkt != null ==> View() == old(View()).(rx := old(rx.contents)[1..])
    {
      assert rx.Valid();
      pkt := null;
      if rx.head != null {
        pkt := rx.Pop(lists);
      }
    }

    // The rest of deth_hw_tx on the destination device.
    method RaiseRx()
      modifies this
      ensures View() == if old(rxIntEnabled) then Interrupt(old(View()).(rxIntr := true)) else old(View())
    {
      if rxIntEnabled {
        rxIntr := true;
        NapiInterrupt();
      }
    }

    // deth_napi_interrupt
    method NapiInterrupt()
      modifies `rxIntr, `txIntr, `napiScheduled, `stats, `skb, `log
      ensures View() == Interrupt(old(View()))
    {
      var rxPending, txPending := rxIntr, txIntr;
      rxIntr, txIntr := false, false;
      if rxPending {
        napiScheduled := true;
      }
      if txPending {
        CountTx();
      }
    }

    method CountTx()
      modifies `stats, `skb, `log
      ensures View() == TxDone(old(View()))
    {
      stats := stats.(txPackets := stats.txPackets + 1);
      stats := stats.(txBytes := stats.txBytes + txPacketLen);
      if skb {
        log := log.(freed := log.freed + 1);
        skb := false;
      }
    }

    // The end of deth_hw_tx, on the sending device.
    method Finish(buf: Frame)
      requires forall l | l in lists :: l.Valid()
      modifies this
      ensures forall l | l in lists :: l.Valid()
      ensures View() == Interrupt(old(View()).(txLen := |buf|, txIntr := true, log := old(log).(sent := old(log).sent + [buf])))
    {
      log := log.(sent := log.sent + [buf]);
      txPacketLen := |buf|;
      txIntr := true;
      NapiInterrupt();
    }

    // What a round of deth_poll counts.
    method CountRx(data: Frame, ok: bool)
      modifies `stats, `log
      ensures View() == Counted(old(View()), data, ok)
    {
      if ok {
        stats := stats.(rxPackets := stats.rxPackets + 1);
        stats := stats.(rxBytes := stats.rxBytes + |data|);
        log := log.(received := log.received + [data]);
      } else {
        stats := stats.(rxDropped := stats.rxDropped + 1);
        log := log.(dropped := log.dropped + [data]);
      }
    }

    // A round of deth_poll up to the release of the packet.
    method Take(ok: bool) returns (pkt: Pkt)
      requires Wired() && rx.ns != [] && forall l | l in lists :: l.Valid()
      modifies this, rx, rx.head
      ensures forall l | l in lists :: l.Valid()
      ensures rx.ns == old(rx.ns)[1..] && pkt == old(rx.ns)[0] && pkt.Loose()
      ensures old(rx.contents) != [] && pkt.Read() == old(rx.contents)[0] && View() == Taken(old(View()), ok)
    {
      assert rx.Valid();
      pkt := RxCons();
      CountRx(pkt.data, ok);
    }

    // deth_tx_timeout: the interrupt and the counters, then a new pool under the lock
    method TxTimeout(count: nat)
      requires Wired() && forall l | l in lists :: l.Valid()
      modifies this, pool, pool.ns
      ensures forall l | l in lists :: l.Valid()
      ensures View() == TimedOut(index, old(View()), count)
      ensures forall k | 0 <= k < |old(pool.ns)| :: old(pool.ns)[k].freed
    {
      CountTimeout();
      NewPool(count);
    }

    method NewPool(count: nat)
      requires Wired() && forall l | l in lists :: l.Valid()
      modifies this`log, pool, pool.ns
      ensures forall l | l in lists :: l.Valid()
      ensures View() == old(View()).(pool := Deth.SetupPool(index, old(log).made, count), log := old(log).(made := old(log).made + count))
      ensures forall k | 0 <= k < |old(pool.ns)| :: old(pool.ns)[k].freed
    {
      TeardownPool();
      SetupPool(count);
    }

    method CountTimeout()
      modifies this
      ensures View() == Deth.Woken(Interrupt(old(View()).(txIntr := true)))
    {
      txIntr, queueStopped := true, false;
      NapiInterrupt();
      stats := stats.(txErrors := stats.txErrors + 1);
      log := log.(again := log.again + [LastOf(log.sent)]);
    }
  }

  // deth_hw_tx of a device with a packet in its pool: the packet goes over to the other.
  method Send(dev: Device, dest: Device, buf: Frame)
    requires dev != dest && dev.Wired() && dest.Wired() && dev.lists == dest.lists && forall l | l in dev.lists :: l.Valid()
    requires dest.rx !in {dev.pool, dev.rx} && dest.pool !in {dev.pool, dev.rx} && dev.pool.ns != [] && !dev.locked
    modifies dev, dest, dev.pool, dest.rx, dev.pool.head
    ensures forall l | l in dev.lists :: l.Valid()
    ensures old(dev.pool.contents) != []
    ensures dev.View() == Transmitted(old(dev.View()), buf)
    ensures dest.View() == Deliver(old(dest.View()), old(dev.pool.contents)[0].(data := buf))
  {
    assert dev.pool.Valid();
    var pkt := dev.ReserveBuffer();
    Handover(dest, pkt, buf);
    dev.Finish(buf);
  }

  method Handover(dest: Device, pkt: Pkt, buf: Frame)
    requires dest.Wired() && pkt.Loose() && forall l | l in dest.lists :: l.Valid()
    modifies dest, dest.rx, pkt
    ensures forall l | l in dest.lists :: l.Valid()
    ensures dest.View() == Deliver(old(dest.View()), old(pkt.Read()).(data := buf))
  {
    pkt.data := buf;
    dest.RxProd(pkt);
    dest.RaiseRx();
  }

  // deth_devs
  class Driver {
    const zero: Device
    const one: Device
    ghost const lists: set<List>

    // The two devices have four different lists.
    ghost predicate Wired() {
      && (zero.index, one.index) == (false, true)
      && lists == zero.lists == one.lists == {zero.pool, zero.rx, one.pool, one.rx}
      && (zero.pool.tag, zero.rx.tag, one.pool.tag, one.rx.tag) == (0, 1, 2, 3)
    }

    ghost function View(): Net
      reads zero, one, zero.pool, zero.rx, one.pool, one.rx
    {
      Net(zero.View(), one.View())
    }

    // deth_init_module and both interfaces opened
    constructor (poolSize: nat)
      ensures Wired() && View() == Start(poolSize) && forall l | l in lists :: l.Valid()
    {
      var p0, r0, p1, r1 := NewLists();
      ghost var ls := {p0, r0, p1, r1};
      var a := new Device(false, p0, r0, ls, poolSize);
      var b := new Device(true, p1, r1, ls, poolSize);
      zero, one, lists := a, b, ls;
    }

    static method NewLists() returns (p0: List, r0: List, p1: List, r1: List)
      ensures fresh({p0, r0, p1, r1}) && (p0.tag, r0.tag, p1.tag, r1.tag) == (0, 1, 2, 3)
      ensures forall l | l in {p0, r0, p1, r1} :: l.Valid() && l.ns == []
    {
      p0 := new List(0);
      r0 := new List(1);
      p1 := new List(2);
      r1 := new List(3);
    }

    function Of(d: bool): Device {
      if d then one else zero
    }

    // deth_hw_tx
    method HwTx(d: bool, buf: Frame)
      requires Wired() && !Of(d).locked && forall l | l in lists :: l.Valid()
      modifies zero, one, Of(d).pool, Of(!d).rx, Of(d).pool.head
      ensures forall l | l in lists :: l.Valid()
      ensures View() == Deth.HwTx(old(View()), d, buf)
    {
      if |buf| < HEADERS {
        return;
      }
      var dev, dest := Of(d), Of(!d);
      if dev.pool.head == null {
        var pkt := dev.ReserveBuffer();
      } else {
        Send(dev, dest, buf);
      }
    }

    // deth_xmit
    method Xmit(d: bool, data: Frame)
      requires Wired() && !Of(d).locked && forall l | l in lists :: l.Valid()
      modifies zero, one, Of(d).pool, Of(!d).rx, Of(d).pool.head
      ensures forall l | l in lists :: l.Valid()
      ensures View() == Deth.Xmit(old(View()), d, data)
    {
      var buf := data;
      if |data| < ETH_ZLEN {
        buf := data + seq(ETH_ZLEN - |data|, _ => 0);
      }
      Of(d).skb := true;
      assert View() == Put(old(View()), d, At(old(View()), d).(skb := true));
      HwTx(d, buf);
    }

    // deth_poll; ok says which of the skb allocations succeed.
    method Poll(d: bool, budget: nat, ok: nat -> bool) returns (npackets: nat)
      requires Wired() && forall l | l in lists :: l.Valid()
      modifies zero, one, Of(d).rx, zero.pool, one.pool, Of(d).rx.ns
      ensures forall l | l in lists :: l.Valid()
      ensures View() == Deth.Poll(old(View()), d, budget, ok)
      ensures npackets == Min(budget, |old(Of(d).rx.ns)|)
    {
      npackets := PollLoop(d, budget, ok);
      if npackets < budget {
        Complete(d);
      }
    }

    // napi_complete_done
    method Complete(d: bool)
      requires Wired() && forall l | l in lists :: l.Valid()
      modifies Of(d)`napiScheduled
      ensures forall l | l in lists :: l.Valid()
      ensures View() == Put(old(View()), d, At(old(View()), d).(scheduled := false))
    {
      Of(d).napiScheduled := false;
    }

    method PollLoop(d: bool, budget: nat, ok: nat -> bool) returns (npackets: nat)
      requires Wired() && forall l | l in lists :: l.Valid()
      modifies zero, one, Of(d).rx, zero.pool, one.pool, Of(d).rx.ns
      ensures forall l | l in lists :: l.Valid()
      ensures npackets == Min(budget, |old(Of(d).rx.ns)|) && (npackets < budget ==> Of(d).rx.contents == [])
      ensures PollFrom(View(), d, npackets, budget, ok) == Deth.Poll(old(View()), d, budget, ok)
    {
      ghost var all := Of(d).rx.ns;
      npackets := 0;
      while npackets < budget && Of(d).rx.head != null
        invariant npackets <= budget && npackets + |Of(d).rx.ns| == |all| && Of(d).rx.ns == all[npackets..]
        invariant forall l | l in lists :: l.Valid()
        invariant PollFrom(View(), d, npackets, budget, ok) == Deth.Poll(old(View()), d, budget, ok)
        decreases budget - npackets
      {
        assert Of(d).rx.Valid();
        Drop(all, npackets);
        PollRound(d, ok(npackets));
        npackets := npackets + 1;
      }
      assert Of(d).rx.Valid();
    }

    // One round of the loop of deth_poll.
    method PollRound(d: bool, ok: bool)
      requires Wired() && Of(d).rx.ns != [] && forall l | l in lists :: l.Valid()
      modifies zero, one, Of(d).rx, zero.pool, one.pool, Of(d).rx.head
      ensures forall l | l in lists :: l.Valid()
      ensures Of(d).rx.ns == old(Of(d).rx.ns)[1..]
      ensures old(Of(d).rx.contents) != [] && View() == Consume(old(View()), d, ok)
    {
      var pkt := TakeFrom(d, ok);
      Return(pkt);
    }

    method TakeFrom(d: bool, ok: bool) returns (pkt: Pkt)
      requires Wired() && Of(d).rx.ns != [] && forall l | l in lists :: l.Valid()
      modifies Of(d), Of(d).rx, Of(d).rx.head
      ensures forall l | l in lists :: l.Valid()
      ensures Of(d).rx.ns == old(Of(d).rx.ns)[1..] && pkt == old(Of(d).rx.ns)[0] && pkt.Loose()
      ensures old(Of(d).rx.contents) != [] && pkt.Read() == old(Of(d).rx.contents)[0]
      ensures View() == Put(old(View()), d, Taken(At(old(View()), d), ok))
    {
      pkt := Of(d).Take(ok);
    }

    // deth_tx_release_buffer on the device that the packet names
    method Return(pkt: Pkt)
      requires Wired() && pkt.Loose() && forall l | l in lists :: l.Valid()
      modifies Of(pkt.owner), Of(pkt.owner).pool, pkt
      ensures forall l | l in lists :: l.Valid()
      ensures View() == Release(old(View()), old(pkt.Read())) && zero.rx.ns == old(zero.rx.ns) && one.rx.ns == old(one.rx.ns)
    {
      Of(pkt.owner).ReleaseBuffer(pkt);
    }

    // deth_tx_timeout
    method TxTimeout(d: bool, count: nat)
      requires Wired() && forall l | l in lists :: l.Valid()
      modifies Of(d), Of(d).pool, Of(d).pool.ns
      ensures forall l | l in lists :: l.Valid()
      ensures View() == Timeout(old(View()), d, count)
    {
      ghost var n := View();
      TimeoutOne(Of(d), Of(!d), count);
      TimeoutAt(n, d, count, View());
    }

    // A transmission, as the kernel asks for it. In a state that keeps the invariant the
    // lock is free and a queue that runs has a packet, so it never ends early.
    method TryXmit(d: bool, data: Frame)
      requires Wired() && Inv(View()) && forall l | l in lists :: l.Valid()
      modifies zero, one, Of(d).pool, Of(!d).rx, Of(d).pool.head
      ensures forall l | l in lists :: l.Valid()
      ensures View() == Apply(old(View()), XmitStep(d, data))
    {
      EitherFlow(View(), d);
      if !Of(d).queueStopped {
        Xmit(d, data);
      }
    }

    // A poll, while NAPI is scheduled.
    method TryPoll(d: bool, budget: nat, ok: nat -> bool)
      requires Wired() && forall l | l in lists :: l.Valid()
      modifies zero, one, Of(d).rx, zero.pool, one.pool, Of(d).rx.ns
      ensures forall l | l in lists :: l.Valid()
      ensures View() == Apply(old(View()), PollStep(d, budget, ok))
    {
      if Of(d).napiScheduled {
        var npackets := Poll(d, budget, ok);
      }
    }

    // One call of the kernel; it may relink any packet.
    method Perform(step: Step)
      requires Wired() && Inv(View()) && forall l | l in lists :: l.Valid()
      modifies zero, one, zero.pool, zero.rx, one.pool, one.rx, set p: Pkt | Any(p)
      ensures forall l | l in lists :: l.Valid()
      ensures View() == Apply(old(View()), step)
    {
      match step {
        case XmitStep(d, data) => TryXmit(d, data);
        case PollStep(d, budget, ok) => TryPoll(d, budget, ok);
        case TimeoutStep(d, count) => TxTimeout(d, count);
      }
    }

    // Any run whose timeouts can allocate.
    method Run(steps: seq<Step>)
      requires Wired() && Inv(View()) && Allocates(steps) && forall l | l in lists :: l.Valid()
      modifies zero, one, zero.pool, zero.rx, one.pool, one.rx, set p: Pkt | Any(p)
      ensures forall l | l in lists :: l.Valid()
      ensures View() == Exec(old(View()), steps) && Inv(View())
    {
      var i := 0;
      while i < |steps|
        invariant 0 <= i <= |steps| && Inv(View()) && forall l | l in lists :: l.Valid()
        invariant Exec(View(), steps[i..]) == Exec(old(View()), steps)
      {
        ghost var n := View();
        assert steps[i..][0] == steps[i] && steps[i..][1..] == steps[i + 1..];
        Perform(steps[i]);
        ApplyInv(n, steps[i], View());
        i := i + 1;
      }
    }
  }

  // A timeout of one device leaves the other alone.
  method TimeoutOne(dev: Device, other: Device, count: nat)
    requires dev != other && dev.Wired() && dev.pool !in {other.pool, other.rx} && forall l | l in dev.lists :: l.Valid()
    modifies dev, dev.pool, dev.pool.ns
    ensures forall l | l in dev.lists :: l.Valid()
    ensures dev.View() == TimedOut(dev.index, old(dev.View()), count) && other.View() == old(other.View())
  {
    dev.TxTimeout(count);
  }

  predicate Any(p: Pkt) {
    true
  }

  lemma TimeoutAt(n: Net, d: bool, count: nat, n': Net)
    requires At(n', d) == TimedOut(d, At(n, d), count) && At(n', !d) == At(n, !d)
    ensures n' == Timeout(n, d, count)
  {
  }
}
