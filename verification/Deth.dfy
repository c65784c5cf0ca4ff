/**
 The paired virtual Ethernet driver of kdev-net-eth/deth.c: each device owns a pool of
 packets, a transmitted packet waits in the other device's rx queue, and polling that
 queue gives the packet back. Every entry point of the driver is one step.
 */
module Deth {

  type Frame = seq<bv8>

  // struct deth_packet. id is auxiliary: which of its owner's allocations the packet is.
  datatype Packet = Packet(id: nat, owner: bool, data: Frame)

  datatype Stats = Stats(txPackets: nat, txBytes: nat, txErrors: nat, rxPackets: nat, rxBytes: nat, rxDropped: nat)

  // Auxiliary: the frames given to the device, handed to the network stack and dropped by
  // its poll, how many transmitted buffers were freed, how many packets it allocated, and
  // the frames that timeouts counted again.
  datatype Log = Log(sent: seq<Frame>, received: seq<Frame>, dropped: seq<Frame>, freed: nat, made: nat,
                     again: seq<Frame>)

  // struct deth_priv. stopped is the state of the tx queue, scheduled that of NAPI, and
  // lockHeld says that an entry point returned without releasing the lock.
  datatype Dev = Dev(
    pool: seq<Packet>, rx: seq<Packet>, stopped: bool, scheduled: bool,
    rxIntr: bool, txIntr: bool, rxIntEnabled: bool, lockHeld: bool, skb: bool, txLen: nat,
    stats: Stats, log: Log)

  // deth_devs, by index.
  datatype Net = Net(zero: Dev, one: Dev)

  function At(n: Net, d: bool): Dev {
    if d then n.one else n.zero
  }

  function Put(n: Net, d: bool, v: Dev): Net {
    if d then n.(one := v) else n.(zero := v)
  }

  const ETH_ZLEN: nat := 60
  // sizeof(struct ethhdr) + sizeof(struct iphdr)
  const HEADERS: nat := 34

  // ---------- the entry points ----------

  // deth_setup_pool, when count allocations succeed: each new packet goes in front.
  function SetupPool(d: bool, first: nat, count: nat): (pool: seq<Packet>)
    ensures |pool| == count
  {
    if count == 0 then [] else [Packet(first + count - 1, d, [])] + SetupPool(d, first, count - 1)
  }

  // deth_napi_interrupt
  function Interrupt(v: Dev): Dev {
    var w := v.(rxIntr := false, txIntr := false, scheduled := v.scheduled || v.rxIntr);
    if v.txIntr then TxDone(w) else w
  }

  // Its transmit half: count the packet and free the buffer.
  function TxDone(v: Dev): Dev {
    v.(stats := v.stats.(txPackets := v.stats.txPackets + 1, txBytes := v.stats.txBytes + v.txLen),
    skb := false,
    log := if v.skb then v.log.(freed := v.log.freed + 1) else v.log)
  }

  // deth_tx_reserve_buffer; with an empty pool it returns without unlocking.
  function Reserve(v: Dev): Dev {
    if v.pool == [] then v.(lockHeld := true)
    else v.(pool := v.pool[1..], stopped := v.stopped || |v.pool| == 1)
  }

  // deth_tx_release_buffer
  function Release(n: Net, pkt: Packet): Net {
    var v := At(n, pkt.owner);
    Put(n, pkt.owner, v.(pool := [pkt] + v.pool, stopped := v.stopped && v.pool != []))
  }

  // The receiving half of deth_hw_tx: queue the packet and raise the rx interrupt.
  function Deliver(v: Dev, pkt: Packet): Dev {
    var v' := v.(rx := [pkt] + v.rx);
    if v.rxIntEnabled then Interrupt(v'.(rxIntr := true)) else v'
  }

  // The sending half of deth_hw_tx.
  function Transmitted(v: Dev, buf: Frame): Dev {
    Interrupt(Reserve(v).(txLen := |buf|, txIntr := true, log := v.log.(sent := v.log.sent + [buf])))
  }

  function HwTx(n: Net, d: bool, buf: Frame): Net {
    var v := At(n, d);
    if |buf| < HEADERS then n
    else if v.pool == [] then Put(n, d, Reserve(v))
    else
      var pkt := v.pool[0].(data := buf);
      Put(Put(n, !d, Deliver(At(n, !d), pkt)), d, Transmitted(v, buf))
  }

  // The frame that deth_xmit hands on: short ones are filled up with zeros.
  function Padded(data: Frame): (buf: Frame)
    ensures |buf| >= 60 && data <= buf
    ensures |data| >= 60 ==> buf == data
    ensures |data| < 60 ==> |buf| == 60
    ensures forall i | |data| <= i < |buf| :: buf[i] == 0
  {
    if |data| < ETH_ZLEN then data + seq(ETH_ZLEN - |data|, _ => 0) else data
  }

  // deth_xmit
  function Xmit(n: Net, d: bool, data: Frame): Net {
    HwTx(Put(n, d, At(n, d).(skb := true)), d, Padded(data))
  }

  // The receiving half of one round of deth_poll; ok says whether the skb was allocated.
  function Taken(v: Dev, ok: bool): Dev
    requires v.rx != []
  {
    Counted(v.(rx := v.rx[1..]), v.rx[0].data, ok)
  }

  function Counted(v: Dev, data: Frame, ok: bool): Dev {
    if ok then
      v.(stats := v.stats.(rxPackets := v.stats.rxPackets + 1, rxBytes := v.stats.rxBytes + |data|),
      log := v.log.(received := v.log.received + [data]))
    else
      v.(stats := v.stats.(rxDropped := v.stats.rxDropped + 1),
      log := v.log.(dropped := v.log.dropped + [data]))
  }

  function Consume(n: Net, d: bool, ok: bool): Net
    requires At(n, d).rx != []
  {
    Release(Put(n, d, Taken(At(n, d), ok)), At(n, d).rx[0])
  }

  // deth_poll from its round k on; ok(k) says whether round k could allocate an skb.
  function PollFrom(n: Net, d: bool, k: nat, budget: nat, ok: nat -> bool): Net
    decreases budget - k
  {
    if k < budget then
      if At(n, d).rx != [] then PollFrom(Consume(n, d, ok(k)), d, k + 1, budget, ok)
      else Put(n, d, At(n, d).(scheduled := false))
    else n
  }

  function Poll(n: Net, d: bool, budget: nat, ok: nat -> bool): Net {
    PollFrom(n, d, 0, budget, ok)
  }

  // deth_tx_timeout, when count packets can be allocated for the new pool.
  function TimedOut(d: bool, v: Dev, count: nat): Dev {
    var w := Woken(Interrupt(v.(txIntr := true)));
    w.(pool := SetupPool(d, w.log.made, count), log := w.log.(made := w.log.made + count))
  }

  function LastOf(frames: seq<Frame>): Frame {
    if frames == [] then [] else frames[|frames| - 1]
  }

  // It counts an error and wakes the queue. The interrupt before it has counted the frame
  // sent last once more.
  function Woken(v: Dev): Dev {
    v.(stats := v.stats.(txErrors := v.stats.txErrors + 1), stopped := false,
       log := v.log.(again := v.log.again + [LastOf(v.log.sent)]))
  }

  function Timeout(n: Net, d: bool, count: nat): Net {
    Put(n, d, TimedOut(d, At(n, d), count))
  }

  datatype Step = XmitStep(d: bool, data: Frame) | PollStep(d: bool, budget: nat, ok: nat -> bool) | TimeoutStep(d: bool, count: nat)

  // The kernel transmits only on a queue that is not stopped and polls only while NAPI is
  // scheduled; a step that is not possible changes nothing.
  function Apply(n: Net, step: Step): Net {
    match step
    case XmitStep(d, data) => if At(n, d).stopped then n else Xmit(n, d, data)
    case PollStep(d, budget, ok) => if At(n, d).scheduled then Poll(n, d, budget, ok) else n
    case TimeoutStep(d, count) => Timeout(n, d, count)
  }

  function Exec(n: Net, steps: seq<Step>): Net
    decreases |steps|
  {
    if steps == [] then n else Exec(Apply(n, steps[0]), steps[1..])
  }

  // deth_setup and deth_open.
  function Fresh(d: bool, poolSize: nat): Dev {
    Dev(SetupPool(d, 0, poolSize), [], false, false, false, false, true, false, false, 0,
        Stats(0, 0, 0, 0, 0, 0), Log([], [], [], 0, poolSize, []))
  }

  function Start(poolSize: nat): Net {
    Net(Fresh(false, poolSize), Fresh(true, poolSize))
  }

  // ---------- the books, from a sender s with index d to its peer r ----------

  // No interrupt is pending between steps.
  predicate Calm(v: Dev) {
    !v.rxIntr && !v.txIntr && v.rxIntEnabled
  }

  function Ids(pkts: seq<Packet>): multiset<nat> {
    if pkts == [] then multiset{} else multiset{pkts[0].id} + Ids(pkts[1..])
  }

  // The packets of device d, wherever they are.
  function Owned(s: Dev, r: Dev): multiset<nat> {
    Ids(s.pool) + Ids(r.rx)
  }

  ghost predicate Placed(pkts: seq<Packet>, d: bool, limit: nat) {
    forall i | 0 <= i < |pkts| :: pkts[i].owner == d && pkts[i].id < limit
  }

  // Every packet of the device is in exactly one of the two places.
  ghost predicate Ownership(s: Dev, r: Dev, d: bool) {
    && Placed(s.pool, d, s.log.made)
    && Placed(r.rx, d, s.log.made)
    && forall id :: Owned(s, r)[id] <= 1
  }

  function Frames(pkts: seq<Packet>): multiset<Frame> {
    if pkts == [] then multiset{} else multiset{pkts[0].data} + Frames(pkts[1..])
  }

  function Bytes(frames: seq<Frame>): nat {
    if frames == [] then 0 else Bytes(frames[..|frames| - 1]) + |frames[|frames| - 1]|
  }

  // The sender's counters say what it sent and what timeouts counted again.
  predicate TxBooks(s: Dev) {
    && s.stats.txErrors == |s.log.again| && s.stats.txPackets == |s.log.sent| + |s.log.again|
    && s.stats.txBytes == Bytes(s.log.sent) + Bytes(s.log.again)
    && s.txLen == |LastOf(s.log.sent)|
  }

  predicate RxBooks(r: Dev) {
    r.stats.rxPackets == |r.log.received| && r.stats.rxBytes == Bytes(r.log.received) && r.stats.rxDropped == |r.log.dropped|
  }

  // Every frame sent was received, dropped or is still queued, and nothing else was.
  predicate Conserved(s: Dev, r: Dev) {
    multiset(s.log.sent) == multiset(r.log.received) + multiset(r.log.dropped) + Frames(r.rx)
  }

  ghost predicate Ledger(s: Dev, r: Dev, d: bool) {
    Calm(s) && (s.stopped ==> s.pool == []) && Ownership(s, r, d) && TxBooks(s) && RxBooks(r) && Conserved(s, r)
  }

  ghost predicate LedgerAt(n: Net, d: bool) {
    Ledger(At(n, d), At(n, !d), d)
  }

  function OwnedAt(n: Net, d: bool): multiset<nat> {
    Owned(At(n, d), At(n, !d))
  }

  // What every step keeps.
  ghost predicate Ledgers(n: Net) {
    LedgerAt(n, false) && LedgerAt(n, true)
  }

  // Between two states every device keeps its packets.
  ghost predicate SameOwned(n: Net, n': Net) {
    OwnedAt(n', false) == OwnedAt(n, false) && OwnedAt(n', true) == OwnedAt(n, true)
  }

  // Both directions, whichever device d is.
  lemma BothLedgers(n: Net, d: bool)
    requires LedgerAt(n, d) && LedgerAt(n, !d)
    ensures Ledgers(n)
  {
  }

  lemma EitherLedger(n: Net, d: bool)
    requires Ledgers(n)
    ensures LedgerAt(n, d)
  {
  }

  lemma {:induction false} SetupIds(d: bool, first: nat, count: nat)
    ensures Placed(SetupPool(d, first, count), d, first + count)
    ensures forall id :: Ids(SetupPool(d, first, count))[id] == if first <= id < first + count then 1 else 0
  {
    if count > 0 {
      SetupIds(d, first, count - 1);
      assert SetupPool(d, first, count)[1..] == SetupPool(d, first, count - 1);
    }
  }

  lemma StartLedgers(poolSize: nat)
    ensures Ledgers(Start(poolSize))
  {
    FreshLedger(poolSize, false);
    FreshLedger(poolSize, true);
  }

  lemma FreshLedger(poolSize: nat, d: bool)
    ensures Ledger(Fresh(d, poolSize), Fresh(!d, poolSize), d)
  {
    SetupIds(d, 0, poolSize);
  }

  // ---------- xmit ----------

  lemma BytesPush(frames: seq<Frame>, f: Frame)
    ensures Bytes(frames + [f]) == Bytes(frames) + |f|
  {
    assert (frames + [f])[..|frames|] == frames;
  }

  lemma XmitUnfold(n: Net, d: bool, data: Frame)
    requires Calm(At(n, !d)) && At(n, d).pool != []
    ensures var s, r, buf := At(n, d), At(n, !d), Padded(data);
            && At(Xmit(n, d, data), d) == Transmitted(s.(skb := true), buf)
            && At(Xmit(n, d, data), !d) == r.(rx := [s.pool[0].(data := buf)] + r.rx, scheduled := true)
  {
  }

  lemma MoveId(a: multiset<nat>, b: multiset<nat>, id: nat)
    ensures (multiset{id} + a) + b == a + (multiset{id} + b)
  {
  }

  lemma XmitOwnership(s: Dev, r: Dev, d: bool, buf: Frame, s': Dev, r': Dev)
    requires s.pool != [] && Ownership(s, r, d)
    requires s'.pool == s.pool[1..] && s'.log.made == s.log.made && r'.rx == [s.pool[0].(data := buf)] + r.rx
    ensures Owned(s', r') == Owned(s, r) && Ownership(s', r', d)
  {
    assert r'.rx[1..] == r.rx;
    MoveId(Ids(s'.pool), Ids(r.rx), s.pool[0].id);
  }

  lemma XmitLedger(s: Dev, r: Dev, d: bool, buf: Frame, s': Dev, r': Dev)
    requires Ledger(s, r, d) && s.pool != []
    requires s' == Transmitted(s.(skb := true), buf)
    requires r' == r.(rx := [s.pool[0].(data := buf)] + r.rx, scheduled := true)
    ensures Ledger(s', r', d) && Owned(s', r') == Owned(s, r)
  {
    XmitOwnership(s, r, d, buf, s', r');
    BytesPush(s.log.sent, buf);
    assert r'.rx[1..] == r.rx;
  }

  // What the books of the other direction see of a device.
  predicate SameReceiver(r: Dev, r': Dev) {
    && r'.rx == r.rx
    && r'.stats.rxPackets == r.stats.rxPackets && r'.stats.rxBytes == r.stats.rxBytes
    && r'.stats.rxDropped == r.stats.rxDropped && r'.log.received == r.log.received && r'.log.dropped == r.log.dropped
  }

  predicate SameSender(s: Dev, s': Dev) {
    && s'.pool == s.pool && Calm(s') == Calm(s) && s'.stopped == s.stopped && s'.txLen == s.txLen && s'.log.again == s.log.again
    && s'.stats.txPackets == s.stats.txPackets && s'.stats.txBytes == s.stats.txBytes
    && s'.stats.txErrors == s.stats.txErrors && s'.log.sent == s.log.sent && s'.log.made == s.log.made
  }

  lemma LedgerSame(s: Dev, r: Dev, d: bool, s': Dev, r': Dev)
    requires Ledger(s, r, d) && SameSender(s, s') && SameReceiver(r, r')
    ensures Ledger(s', r', d) && Owned(s', r') == Owned(s, r)
  {
    assert Owned(s', r') == Owned(s, r);
  }

  // A step that changes neither direction's books.
  lemma LedgersSame(n: Net, n': Net)
    requires Ledgers(n) && SameSender(n.zero, n'.zero) && SameReceiver(n.zero, n'.zero)
    requires SameSender(n.one, n'.one) && SameReceiver(n.one, n'.one)
    ensures Ledgers(n') && SameOwned(n, n')
  {
    LedgerSame(n.zero, n.one, false, n'.zero, n'.one);
    LedgerSame(n.one, n.zero, true, n'.one, n'.zero);
  }

  // A step that changes the books of direction d only.
  lemma LedgersOne(n: Net, n': Net, d: bool)
    requires Ledgers(n) && LedgerAt(n', d) && OwnedAt(n', d) == OwnedAt(n, d)
    requires SameSender(At(n, !d), At(n', !d)) && SameReceiver(At(n, d), At(n', d))
    ensures Ledgers(n') && SameOwned(n, n')
  {
    EitherLedger(n, !d);
    LedgerSame(At(n, !d), At(n, d), !d, At(n', !d), At(n', d));
    BothLedgers(n', d);
  }

  lemma XmitLedgers(n: Net, d: bool, data: Frame, n': Net)
    requires Ledgers(n) && n' == Xmit(n, d, data)
    ensures Ledgers(n') && SameOwned(n, n')
  {
    if At(n, d).pool == [] {
      LedgersSame(n, n');
    } else {
      EitherLedger(n, d);
      EitherLedger(n, !d);
      XmitUnfold(n, d, data);
      XmitLedger(At(n, d), At(n, !d), d, Padded(data), At(n', d), At(n', !d));
      LedgersOne(n, n', d);
    }
  }

  // ---------- poll ----------

  lemma ConsumeUnfold(n: Net, d: bool, ok: bool)
    requires At(n, d).rx != [] && At(n, d).rx[0].owner == !d
    ensures var s, r := At(n, !d), At(n, d);
            && At(Consume(n, d, ok), d) == Taken(r, ok)
            && At(Consume(n, d, ok), !d) == s.(pool := [r.rx[0]] + s.pool, stopped := s.stopped && s.pool != [])
  {
  }

  lemma ConsumeOwnership(s: Dev, r: Dev, d: bool, s': Dev, r': Dev)
    requires r.rx != [] && Ownership(s, r, d)
    requires s'.pool == [r.rx[0]] + s.pool && s'.log.made == s.log.made && r'.rx == r.rx[1..]
    ensures Owned(s', r') == Owned(s, r) && Ownership(s', r', d)
  {
    assert s'.pool[1..] == s.pool;
    MoveId(Ids(s.pool), Ids(r'.rx), r.rx[0].id);
  }

  lemma OneReceived(sent: multiset<Frame>, received: seq<Frame>, dropped: seq<Frame>, f: Frame, rest: multiset<Frame>)
    requires sent == multiset(received) + multiset(dropped) + (multiset{f} + rest)
    ensures sent == multiset(received + [f]) + multiset(dropped) + rest
    ensures sent == multiset(received) + multiset(dropped + [f]) + rest
  {
  }

  lemma ConsumeBooks(s: Dev, r: Dev, ok: bool)
    requires r.rx != [] && RxBooks(r) && Conserved(s, r)
    ensures RxBooks(Taken(r, ok)) && Conserved(s, Taken(r, ok))
  {
    BytesPush(r.log.received, r.rx[0].data);
    OneReceived(multiset(s.log.sent), r.log.received, r.log.dropped, r.rx[0].data, Frames(r.rx[1..]));
  }

  lemma ConsumeLedger(s: Dev, r: Dev, d: bool, ok: bool, s': Dev, r': Dev)
    requires Ledger(s, r, d) && r.rx != []
    requires s' == s.(pool := [r.rx[0]] + s.pool, stopped := s.stopped && s.pool != []) && r' == Taken(r, ok)
    ensures Ledger(s', r', d) && Owned(s', r') == Owned(s, r)
  {
    ConsumeOwnership(s, r, d, s', r');
    ConsumeBooks(s, r, ok);
  }

  lemma ConsumeLedgers(n: Net, d: bool, ok: bool, n': Net)
    requires Ledgers(n) && At(n, d).rx != [] && n' == Consume(n, d, ok)
    ensures Ledgers(n') && SameOwned(n, n')
  {
    EitherLedger(n, !d);
    ConsumeUnfold(n, d, ok);
    ConsumeLedger(At(n, !d), At(n, d), !d, ok, At(n', !d), At(n', d));
    LedgersOne(n, n', !d);
  }

  lemma {:induction false} PollLedgers(n: Net, d: bool, k: nat, budget: nat, ok: nat -> bool, n': Net)
    requires Ledgers(n) && n' == PollFrom(n, d, k, budget, ok)
    ensures Ledgers(n') && SameOwned(n, n')
    decreases budget - k
  {
    if k < budget {
      if At(n, d).rx != [] {
        var n1 := Consume(n, d, ok(k));
        ConsumeLedgers(n, d, ok(k), n1);
        PollLedgers(n1, d, k + 1, budget, ok, n');
      } else {
        LedgersSame(n, n');
      }
    }
  }

  // ---------- timeout ----------

  lemma {:induction false} IdsBelow(pkts: seq<Packet>, d: bool, limit: nat, id: nat)
    requires Placed(pkts, d, limit) && id >= limit
    ensures Ids(pkts)[id] == 0
    decreases |pkts|
  {
    if pkts != [] {
      IdsBelow(pkts[1..], d, limit, id);
    }
  }

  // A new pool has packets that are not anywhere else.
  lemma TimeoutOwnership(s: Dev, r: Dev, d: bool, count: nat, s': Dev)
    requires Ownership(s, r, d) && s' == TimedOut(d, s, count)
    ensures Ownership(s', r, d)
  {
    var limit := s.log.made;
    SetupIds(d, limit, count);
    forall id ensures Owned(s', r)[id] <= 1 {
      if id >= limit {
        IdsBelow(r.rx, d, limit, id);
      } else {
        assert Owned(s, r)[id] <= 1;
      }
    }
  }

  lemma TimeoutLedgers(n: Net, d: bool, count: nat, n': Net)
    requires Ledgers(n) && n' == Timeout(n, d, count)
    ensures Ledgers(n')
  {
    EitherLedger(n, d);
    EitherLedger(n, !d);
    TimeoutOwnership(At(n, d), At(n, !d), d, count, At(n', d));
    BytesPush(At(n, d).log.again, LastOf(At(n, d).log.sent));
    LedgerSame(At(n, !d), At(n, d), !d, At(n', !d), At(n', d));
    BothLedgers(n', d);
  }

  // ---------- what every run keeps ----------

  lemma ApplyLedgers(n: Net, step: Step, n': Net)
    requires Ledgers(n) && n' == Apply(n, step)
    ensures Ledgers(n') && (!step.TimeoutStep? ==> SameOwned(n, n'))
  {
    match step
    case XmitStep(d, data) => if !At(n, d).stopped { XmitLedgers(n, d, data, n'); }
    case PollStep(d, budget, ok) => if At(n, d).scheduled { PollLedgers(n, d, 0, budget, ok, n'); }
    case TimeoutStep(d, count) => TimeoutLedgers(n, d, count, n');
  }

  lemma {:induction false} ExecLedgers(n: Net, steps: seq<Step>, n': Net)
    requires Ledgers(n) && n' == Exec(n, steps)
    ensures Ledgers(n')
    decreases |steps|
  {
    if steps != [] {
      var n1 := Apply(n, steps[0]);
      ApplyLedgers(n, steps[0], n1);
      ExecLedgers(n1, steps[1..], n');
    }
  }

  // Nothing is lost or made up in any run, whatever timeouts can allocate: frame for frame,
  // and in the two devices' counters.
  lemma FramesConserved(poolSize: nat, steps: seq<Step>, d: bool)
    ensures var s, r := At(Exec(Start(poolSize), steps), d), At(Exec(Start(poolSize), steps), !d);
            && multiset(s.log.sent) == multiset(r.log.received) + multiset(r.log.dropped) + Frames(r.rx)
            && s.stats.txPackets == r.stats.rxPackets + r.stats.rxDropped + |r.rx| + s.stats.txErrors
            && r.stats.rxBytes == Bytes(r.log.received)
            && s.stats.txBytes == Bytes(s.log.sent) + Bytes(s.log.again) && s.stats.txErrors == |s.log.again|
  {
    var n := Exec(Start(poolSize), steps);
    StartLedgers(poolSize);
    ExecLedgers(Start(poolSize), steps, n);
    EitherLedger(n, d);
    FrameCount(At(n, !d).rx);
    assert |At(n, d).log.sent| == |multiset(At(n, d).log.sent)|;
  }

  lemma {:induction false} FrameCount(pkts: seq<Packet>)
    ensures |Frames(pkts)| == |pkts| && |Ids(pkts)| == |pkts|
    decreases |pkts|
  {
    if pkts != [] {
      FrameCount(pkts[1..]);
    }
  }

  // What a timeout does after any run: it frees the pool and sets up a new one, wakes the
  // queue, counts an error, and counts the frame sent last once more; nothing is sent.
  lemma TimeoutEffect(poolSize: nat, steps: seq<Step>, d: bool, count: nat, n: Net, n': Net)
    requires n == Exec(Start(poolSize), steps) && n' == Apply(n, TimeoutStep(d, count))
    ensures var v, v' := At(n, d), At(n', d);
            && |v'.pool| == count && !v'.stopped && v'.rx == v.rx && v'.log.sent == v.log.sent
            && v'.stats == v.stats.(txPackets := v.stats.txPackets + 1, txErrors := v.stats.txErrors + 1,
                                    txBytes := v.stats.txBytes + |LastOf(v.log.sent)|)
            && At(n', !d) == At(n, !d)
  {
    StartLedgers(poolSize);
    ExecLedgers(Start(poolSize), steps, n);
    EitherLedger(n, d);
    TimedOutDoes(At(n, d), d, count, At(n', d));
  }

  lemma TimedOutDoes(v: Dev, d: bool, count: nat, v': Dev)
    requires Calm(v) && TxBooks(v) && v' == TimedOut(d, v, count)
    ensures |v'.pool| == count && !v'.stopped && v'.rx == v.rx && v'.log.sent == v.log.sent
    ensures v'.stats == v.stats.(txPackets := v.stats.txPackets + 1, txErrors := v.stats.txErrors + 1,
                                 txBytes := v.stats.txBytes + |LastOf(v.log.sent)|)
  {
  }

  // In no run is a packet ever in two places at once.
  lemma PacketsUnique(poolSize: nat, steps: seq<Step>, d: bool, id: nat)
    ensures OwnedAt(Exec(Start(poolSize), steps), d)[id] <= 1
  {
    StartLedgers(poolSize);
    ExecLedgers(Start(poolSize), steps, Exec(Start(poolSize), steps));
    EitherLedger(Exec(Start(poolSize), steps), d);
  }

  predicate NoTimeouts(steps: seq<Step>) {
    forall i | 0 <= i < |steps| :: !steps[i].TimeoutStep?
  }

  lemma {:induction false} OwnedConstant(n: Net, steps: seq<Step>, n': Net)
    requires Ledgers(n) && NoTimeouts(steps) && n' == Exec(n, steps)
    ensures SameOwned(n, n')
    decreases |steps|
  {
    if steps != [] {
      var n1 := Apply(n, steps[0]);
      ApplyLedgers(n, steps[0], n1);
      OwnedConstant(n1, steps[1..], n');
    }
  }

  // Without timeouts each of a device's packets stays in exactly one of its pool and the
  // peer's rx queue, and the total never changes.
  lemma PacketsStay(poolSize: nat, steps: seq<Step>, d: bool, id: nat)
    requires NoTimeouts(steps)
    ensures var s, r := At(Exec(Start(poolSize), steps), d), At(Exec(Start(poolSize), steps), !d);
            && Ids(s.pool)[id] + Ids(r.rx)[id] == (if id < poolSize then 1 else 0)
            && |s.pool| + |r.rx| == poolSize
  {
    var n' := Exec(Start(poolSize), steps);
    StartLedgers(poolSize);
    OwnedConstant(Start(poolSize), steps, n');
    StartOwned(poolSize, d, id);
    OwnedCount(n', d);
  }

  lemma StartOwned(poolSize: nat, d: bool, id: nat)
    ensures OwnedAt(Start(poolSize), d)[id] == (if id < poolSize then 1 else 0)
    ensures |OwnedAt(Start(poolSize), d)| == poolSize
  {
    SetupIds(d, 0, poolSize);
    OwnedCount(Start(poolSize), d);
  }

  lemma OwnedCount(n: Net, d: bool)
    ensures |OwnedAt(n, d)| == |At(n, d).pool| + |At(n, !d).rx|
  {
    FrameCount(At(n, d).pool);
    FrameCount(At(n, !d).rx);
  }

  // ---------- flow control ----------

  // The tx queue is stopped exactly when the pool is empty.
  predicate StopOk(s: Dev) {
    s.stopped <==> s.pool == []
  }

  // Besides, the pool and the peer's rx queue are not both empty, waiting packets have NAPI
  // scheduled, the lock is free, and every transmitted buffer has been freed.
  predicate Flow(s: Dev, r: Dev) {
    && StopOk(s)
    && |s.pool| + |r.rx| >= 1
    && (r.rx != [] ==> r.scheduled)
    && !s.lockHeld && !s.skb && s.log.freed == |s.log.sent|
  }

  predicate FlowAt(n: Net, d: bool) {
    Flow(At(n, d), At(n, !d))
  }

  ghost predicate Inv(n: Net) {
    Ledgers(n) && FlowAt(n, false) && FlowAt(n, true)
  }

  lemma EitherFlow(n: Net, d: bool)
    requires Inv(n)
    ensures FlowAt(n, d) && LedgerAt(n, d)
  {
  }

  lemma BothFlows(n: Net, d: bool)
    requires Ledgers(n) && FlowAt(n, d) && FlowAt(n, !d)
    ensures Inv(n)
  {
  }

  lemma StartInv(poolSize: nat)
    requires poolSize > 0
    ensures Inv(Start(poolSize))
  {
    StartLedgers(poolSize);
  }

  // What flow control in the other direction sees of a device.
  predicate SameFlow(s: Dev, s': Dev, r: Dev, r': Dev) {
    && s'.pool == s.pool && s'.stopped == s.stopped && s'.lockHeld == s.lockHeld && s'.skb == s.skb
    && s'.log.freed == s.log.freed && s'.log.sent == s.log.sent
    && r'.rx == r.rx && (r.rx == [] || r'.scheduled == r.scheduled)
  }

  lemma FlowSame(s: Dev, r: Dev, s': Dev, r': Dev)
    requires Flow(s, r) && SameFlow(s, s', r, r')
    ensures Flow(s', r')
  {
  }

  lemma XmitFlow(s: Dev, r: Dev, buf: Frame, s': Dev, r': Dev)
    requires Flow(s, r) && !s.stopped && s' == Transmitted(s.(skb := true), buf)
    requires r' == r.(rx := [s.pool[0].(data := buf)] + r.rx, scheduled := true)
    ensures Flow(s', r')
  {
  }

  lemma XmitInv(n: Net, d: bool, data: Frame, n': Net)
    requires Inv(n) && !At(n, d).stopped && n' == Xmit(n, d, data)
    ensures Inv(n')
  {
    EitherFlow(n, d);
    EitherFlow(n, !d);
    XmitUnfold(n, d, data);
    XmitFlow(At(n, d), At(n, !d), Padded(data), At(n', d), At(n', !d));
    FlowSame(At(n, !d), At(n, d), At(n', !d), At(n', d));
    XmitLedgers(n, d, data, n');
    BothFlows(n', d);
  }

  lemma ConsumeFlow(s: Dev, r: Dev, ok: bool, s': Dev, r': Dev)
    requires Flow(s, r) && r.rx != []
    requires s' == s.(pool := [r.rx[0]] + s.pool, stopped := s.stopped && s.pool != []) && r' == Taken(r, ok)
    ensures Flow(s', r')
  {
  }

  lemma ConsumeInv(n: Net, d: bool, ok: bool, n': Net)
    requires Inv(n) && At(n, d).rx != [] && n' == Consume(n, d, ok)
    ensures Inv(n')
  {
    EitherFlow(n, d);
    EitherFlow(n, !d);
    ConsumeUnfold(n, d, ok);
    ConsumeFlow(At(n, !d), At(n, d), ok, At(n', !d), At(n', d));
    FlowSame(At(n, d), At(n, !d), At(n', d), At(n', !d));
    ConsumeLedgers(n, d, ok, n');
    BothFlows(n', d);
  }

  // napi_complete_done on an empty queue.
  lemma CompleteInv(n: Net, d: bool, n': Net)
    requires Inv(n) && At(n, d).rx == [] && n' == Put(n, d, At(n, d).(scheduled := false))
    ensures Inv(n')
  {
    EitherFlow(n, d);
    EitherFlow(n, !d);
    LedgersSame(n, n');
    BothFlows(n', d);
  }

  lemma {:induction false} PollInv(n: Net, d: bool, k: nat, budget: nat, ok: nat -> bool, n': Net)
    requires Inv(n) && n' == PollFrom(n, d, k, budget, ok)
    ensures Inv(n')
    decreases budget - k
  {
    if k < budget {
      if At(n, d).rx != [] {
        var n1 := Consume(n, d, ok(k));
        ConsumeInv(n, d, ok(k), n1);
        PollInv(n1, d, k + 1, budget, ok, n');
      } else {
        CompleteInv(n, d, n');
      }
    }
  }

  // Without a packet a timeout wakes the queue over an empty pool.
  lemma TimeoutStops(n: Net, d: bool, count: nat)
    ensures StopOk(At(Timeout(n, d, count), d)) <==> count > 0
  {
  }

  // A timeout keeps the invariant exactly when it could allocate a packet.
  lemma TimeoutInv(n: Net, d: bool, count: nat, n': Net)
    requires Inv(n) && n' == Timeout(n, d, count)
    ensures Inv(n') <==> count > 0
  {
    TimeoutStops(n, d, count);
    if count > 0 {
      EitherFlow(n, d);
      EitherFlow(n, !d);
      TimeoutLedgers(n, d, count, n');
      BothFlows(n', d);
    } else if Inv(n') {
      EitherFlow(n', d);
    }
  }

  // Every timeout of the run could allocate at least one packet.
  predicate Allocates(steps: seq<Step>) {
    forall i | 0 <= i < |steps| :: steps[i].TimeoutStep? ==> steps[i].count > 0
  }

  lemma ApplyInv(n: Net, step: Step, n': Net)
    requires Inv(n) && (step.TimeoutStep? ==> step.count > 0) && n' == Apply(n, step)
    ensures Inv(n')
  {
    match step
    case XmitStep(d, data) => if !At(n, d).stopped { XmitInv(n, d, data, n'); }
    case PollStep(d, budget, ok) => if At(n, d).scheduled { PollInv(n, d, 0, budget, ok, n'); }
    case TimeoutStep(d, count) => TimeoutInv(n, d, count, n');
  }

  lemma {:induction false} ExecInv(n: Net, steps: seq<Step>, n': Net)
    requires Inv(n) && Allocates(steps) && n' == Exec(n, steps)
    ensures Inv(n')
    decreases |steps|
  {
    if steps != [] {
      var n1 := Apply(n, steps[0]);
      ApplyInv(n, steps[0], n1);
      ExecInv(n1, steps[1..], n');
    }
  }

  lemma RunInv(poolSize: nat, steps: seq<Step>, n: Net)
    requires poolSize > 0 && Allocates(steps) && n == Exec(Start(poolSize), steps)
    ensures Inv(n)
  {
    StartInv(poolSize);
    ExecInv(Start(poolSize), steps, n);
  }

  // In every run whose timeouts can allocate a packet, a tx queue is stopped exactly when
  // its pool is empty, so no transmission is ever entered with an empty pool: the lock is
  // never left held, and every transmitted buffer is freed exactly once.
  lemma StoppedWhenEmpty(poolSize: nat, steps: seq<Step>, d: bool)
    requires poolSize > 0 && Allocates(steps)
    ensures var v := At(Exec(Start(poolSize), steps), d);
            (v.stopped <==> v.pool == []) && !v.lockHeld && !v.skb && v.log.freed == |v.log.sent|
  {
    var n := Exec(Start(poolSize), steps);
    RunInv(poolSize, steps, n);
    EitherFlow(n, d);
  }

  // Both devices have their queue stopped exactly when their pool is empty after the first
  // k steps.
  predicate StopOkAfter(poolSize: nat, steps: seq<Step>, k: nat)
    requires k <= |steps|
  {
    StopOk(Exec(Start(poolSize), steps[..k]).zero) && StopOk(Exec(Start(poolSize), steps[..k]).one)
  }

  lemma {:induction false} ExecLast(n: Net, steps: seq<Step>, step: Step)
    ensures Exec(n, steps + [step]) == Apply(Exec(n, steps), step)
    decreases |steps|
  {
    if steps == [] {
      assert steps + [step] == [step];
    } else {
      assert (steps + [step])[1..] == steps[1..] + [step];
      ExecLast(Apply(n, steps[0]), steps[1..], step);
    }
  }

  // That holds throughout a run if and only if the driver was set up with a packet and
  // every timeout of the run could allocate one.
  lemma StoppedExactly(poolSize: nat, steps: seq<Step>)
    ensures (forall k | 0 <= k <= |steps| :: StopOkAfter(poolSize, steps, k)) <==> poolSize > 0 && Allocates(steps)
  {
    if poolSize == 0 {
      assert steps[..0] == [];
      assert !StopOkAfter(poolSize, steps, 0);
    } else if Allocates(steps) {
      forall k | 0 <= k <= |steps| ensures StopOkAfter(poolSize, steps, k) {
        StoppedWhenEmpty(poolSize, steps[..k], false);
        StoppedWhenEmpty(poolSize, steps[..k], true);
      }
    } else {
      var i :| 0 <= i < |steps| && steps[i].TimeoutStep? && steps[i].count == 0;
      var n := Exec(Start(poolSize), steps[..i]);
      assert steps[..i + 1] == steps[..i] + [steps[i]];
      ExecLast(Start(poolSize), steps[..i], steps[i]);
      TimeoutStops(n, steps[i].d, 0);
      assert !StopOkAfter(poolSize, steps, i + 1);
    }
  }

  // And what comes of a timeout that could allocate nothing: the queue is woken with an
  // empty pool, and the next transmission sends nothing and leaves the lock held.
  lemma LeftLocked(poolSize: nat, steps: seq<Step>, d: bool, data: Frame, n: Net, n1: Net, n2: Net)
    requires n == Exec(Start(poolSize), steps) && n1 == Apply(n, TimeoutStep(d, 0)) && n2 == Apply(n1, XmitStep(d, data))
    ensures At(n2, d).lockHeld && At(n2, d).log.sent == At(n, d).log.sent && At(n2, !d) == At(n, !d)
  {
    TimeoutEffect(poolSize, steps, d, 0, n, n1);
  }

  // ---------- polls drain the queue ----------

  function Min(a: nat, b: nat): nat {
    if a < b then a else b
  }

  lemma ConsumeTakes(n: Net, d: bool, ok: bool, n': Net)
    requires At(n, d).rx != [] && n' == Consume(n, d, ok)
    ensures At(n', d).rx == At(n, d).rx[1..] && At(n', d).scheduled == At(n, d).scheduled
  {
  }

  // What is left of rx, and whether NAPI stays scheduled, after a poll with budget left.
  ghost predicate Took(v: Dev, v': Dev, left: nat) {
    v'.rx == v.rx[Min(left, |v.rx|)..] && v'.scheduled == (v.scheduled && left <= |v.rx|)
  }

  lemma TookMore(v: Dev, v1: Dev, v': Dev, left: nat)
    requires v.rx != [] && v1.rx == v.rx[1..] && v1.scheduled == v.scheduled && Took(v1, v', left)
    ensures Took(v, v', left + 1)
  {
    assert v.rx[1..][Min(left, |v1.rx|)..] == v.rx[Min(left + 1, |v.rx|)..];
  }

  // A poll takes as many packets as its budget allows, and leaves NAPI scheduled exactly
  // when the budget was used up.
  lemma {:induction false} PollTakes(n: Net, d: bool, k: nat, budget: nat, ok: nat -> bool, n': Net)
    requires k <= budget && n' == PollFrom(n, d, k, budget, ok)
    ensures Took(At(n, d), At(n', d), budget - k)
    decreases budget - k
  {
    if k < budget && At(n, d).rx != [] {
      var n1 := Consume(n, d, ok(k));
      PollTakes(n1, d, k + 1, budget, ok, n');
      ConsumeTakes(n, d, ok(k), n1);
      TookMore(At(n, d), At(n1, d), At(n', d), budget - k - 1);
    }
  }

  predicate PollsOf(steps: seq<Step>, d: bool) {
    forall i | 0 <= i < |steps| :: steps[i].PollStep? && steps[i].d == d
  }

  function Budget(steps: seq<Step>): nat {
    if steps == [] then 0 else (if steps[0].PollStep? then steps[0].budget else 0) + Budget(steps[1..])
  }

  // How many of count packets are left after up to total are taken.
  function Minus(count: nat, total: nat): nat {
    if total < count then count - total else 0
  }

  // Waiting packets have NAPI scheduled.
  predicate Ready(v: Dev) {
    v.rx != [] ==> v.scheduled
  }

  lemma TookDrains(v: Dev, v': Dev, budget: nat)
    requires Ready(v) && Took(v, v', budget)
    ensures Ready(v') && |v'.rx| == Minus(|v.rx|, budget) && (budget > |v.rx| ==> !v'.scheduled)
  {
  }

  lemma PollDrains(n: Net, d: bool, budget: nat, ok: nat -> bool, n': Net)
    requires Ready(At(n, d)) && n' == Poll(n, d, budget, ok)
    ensures Ready(At(n', d)) && |At(n', d).rx| == Minus(|At(n, d).rx|, budget)
    ensures budget > |At(n, d).rx| ==> !At(n', d).scheduled
  {
    PollTakes(n, d, 0, budget, ok, n');
    TookDrains(At(n, d), At(n', d), budget);
  }

  lemma PollStepDrains(n: Net, step: Step, n': Net)
    requires step.PollStep? && Ready(At(n, step.d)) && n' == Apply(n, step)
    ensures Ready(At(n', step.d)) && |At(n', step.d).rx| == Minus(|At(n, step.d).rx|, step.budget)
    ensures step.budget > |At(n, step.d).rx| ==> !At(n', step.d).scheduled
  {
    PollDrains(n, step.d, step.budget, step.ok, n');
  }

  // Polls take packets up to the sum of their budgets, whatever allocations fail.
  lemma {:induction false} Drains(n: Net, steps: seq<Step>, d: bool, n': Net)
    requires Ready(At(n, d)) && PollsOf(steps, d) && n' == Exec(n, steps)
    ensures |At(n', d).rx| == Minus(|At(n, d).rx|, Budget(steps))
    decreases |steps|
  {
    if steps != [] {
      var n1 := Apply(n, steps[0]);
      PollStepDrains(n, steps[0], n1);
      Drains(n1, steps[1..], d, n');
    }
  }

  // Once the budgets add up to more than what is queued, NAPI is complete.
  lemma {:induction false} Completes(n: Net, steps: seq<Step>, d: bool, n': Net)
    requires Ready(At(n, d)) && PollsOf(steps, d) && Budget(steps) > |At(n, d).rx| && n' == Exec(n, steps)
    ensures !At(n', d).scheduled
    decreases |steps|
  {
    var n1 := Apply(n, steps[0]);
    PollStepDrains(n, steps[0], n1);
    if steps[0].budget > |At(n, d).rx| {
      StaysComplete(n1, steps[1..], d);
    } else {
      Completes(n1, steps[1..], d, n');
    }
  }

  lemma {:induction false} StaysComplete(n: Net, steps: seq<Step>, d: bool)
    requires PollsOf(steps, d) && !At(n, d).scheduled
    ensures Exec(n, steps) == n
    decreases |steps|
  {
    if steps != [] {
      StaysComplete(n, steps[1..], d);
    }
  }

  // A poll leaves the other device's queue and NAPI alone.
  lemma {:induction false} PollLeaves(n: Net, d: bool, k: nat, budget: nat, ok: nat -> bool, n': Net)
    requires n' == PollFrom(n, d, k, budget, ok)
    ensures At(n', !d).rx == At(n, !d).rx && At(n', !d).scheduled == At(n, !d).scheduled
    decreases budget - k
  {
    if k < budget && At(n, d).rx != [] {
      PollLeaves(Consume(n, d, ok(k)), d, k + 1, budget, ok, n');
    }
  }

  predicate ReadyAll(n: Net) {
    Ready(At(n, false)) && Ready(At(n, true))
  }

  lemma BothReady(n: Net, d: bool)
    ensures ReadyAll(n) <==> Ready(At(n, d)) && Ready(At(n, !d))
  {
  }

  lemma XmitReady(n: Net, d: bool, data: Frame, n': Net)
    requires Ledgers(n) && Ready(At(n, d)) && Ready(At(n, !d)) && n' == Xmit(n, d, data)
    ensures Ready(At(n', d)) && Ready(At(n', !d))
  {
    EitherLedger(n, d);
    EitherLedger(n, !d);
    if At(n, d).pool != [] {
      XmitUnfold(n, d, data);
    }
  }

  lemma PollReady(n: Net, d: bool, budget: nat, ok: nat -> bool, n': Net)
    requires Ready(At(n, d)) && Ready(At(n, !d)) && n' == Poll(n, d, budget, ok)
    ensures Ready(At(n', d)) && Ready(At(n', !d))
  {
    PollDrains(n, d, budget, ok, n');
    PollLeaves(n, d, 0, budget, ok, n');
  }

  lemma TimeoutReady(n: Net, d: bool, count: nat, n': Net)
    requires Ledgers(n) && Ready(At(n, d)) && Ready(At(n, !d)) && n' == Timeout(n, d, count)
    ensures Ready(At(n', d)) && Ready(At(n', !d))
  {
    EitherLedger(n, d);
  }

  // Every step keeps NAPI scheduled at both devices while packets wait there.
  lemma ApplyReady(n: Net, step: Step, n': Net)
    requires Ledgers(n) && ReadyAll(n) && n' == Apply(n, step)
    ensures ReadyAll(n')
  {
    BothReady(n, step.d);
    match step {
      case XmitStep(d, data) => if !At(n, d).stopped { XmitReady(n, d, data, n'); }
      case PollStep(d, budget, ok) => if At(n, d).scheduled { PollReady(n, d, budget, ok, n'); }
      case TimeoutStep(d, count) => TimeoutReady(n, d, count, n');
    }
    BothReady(n', step.d);
  }

  lemma {:induction false} ExecReady(n: Net, steps: seq<Step>, n': Net)
    requires Ledgers(n) && ReadyAll(n) && n' == Exec(n, steps)
    ensures ReadyAll(n')
    decreases |steps|
  {
    if steps != [] {
      var n1 := Apply(n, steps[0]);
      ApplyLedgers(n, steps[0], n1);
      ApplyReady(n, steps[0], n1);
      ExecReady(n1, steps[1..], n');
    }
  }

  // After any run, whatever timeouts could allocate, waiting packets have NAPI scheduled;
  // polls take them up to the sum of their budgets, whatever allocations fail, and once the
  // budgets add up to more than was waiting, NAPI is complete.
  lemma PollsDrain(poolSize: nat, steps: seq<Step>, polls: seq<Step>, d: bool)
    requires PollsOf(polls, d)
    ensures var n := Exec(Start(poolSize), steps);
            && (At(n, d).rx != [] ==> At(n, d).scheduled)
            && |At(Exec(n, polls), d).rx| == Minus(|At(n, d).rx|, Budget(polls))
            && (Budget(polls) > |At(n, d).rx| ==> !At(Exec(n, polls), d).scheduled)
  {
    var n := Exec(Start(poolSize), steps);
    StartLedgers(poolSize);
    ExecReady(Start(poolSize), steps, n);
    BothReady(n, d);
    Drains(n, polls, d, Exec(n, polls));
    if Budget(polls) > |At(n, d).rx| {
      Completes(n, polls, d, Exec(n, polls));
    }
  }

  // A poll moves packets between the queue and the pool they came from.
  lemma PollCount(n: Net, d: bool, budget: nat, ok: nat -> bool, n': Net)
    requires Ledgers(n) && n' == Poll(n, d, budget, ok)
    ensures |At(n', !d).pool| + |At(n', d).rx| == |At(n, !d).pool| + |At(n, d).rx|
  {
    PollLedgers(n, d, 0, budget, ok, n');
    OwnedCount(n, !d);
    OwnedCount(n', !d);
  }

  lemma Wakes(n: Net, d: bool, budget: nat, ok: nat -> bool, n': Net)
    requires Inv(n) && At(n, !d).rx != [] && budget > 0 && n' == Poll(n, !d, budget, ok)
    ensures !At(n', d).stopped
  {
    PollTakes(n, !d, 0, budget, ok, n');
    PollCount(n, !d, budget, ok, n');
    PollInv(n, !d, 0, budget, ok, n');
    EitherFlow(n', d);
  }

  // A stopped device is never stuck: its peer has packets of it and NAPI scheduled, and
  // any poll of the peer that takes one wakes the device.
  lemma NoStall(poolSize: nat, steps: seq<Step>, d: bool, budget: nat, ok: nat -> bool)
    requires poolSize > 0 && Allocates(steps) && budget > 0
    ensures var n := Exec(Start(poolSize), steps);
            At(n, d).stopped ==>
              At(n, !d).rx != [] && At(n, !d).scheduled && !At(Apply(n, PollStep(!d, budget, ok)), d).stopped
  {
    var n := Exec(Start(poolSize), steps);
    RunInv(poolSize, steps, n);
    EitherFlow(n, d);
    if At(n, d).stopped {
      Wakes(n, d, budget, ok, Poll(n, !d, budget, ok));
    }
  }

  // ---------- order ----------

  function SendAll(n: Net, d: bool, frames: seq<Frame>): Net
    decreases |frames|
  {
    if frames == [] then n else SendAll(Xmit(n, d, frames[0]), d, frames[1..])
  }

  function Datas(pkts: seq<Packet>): seq<Frame> {
    if pkts == [] then [] else [pkts[0].data] + Datas(pkts[1..])
  }

  // The frames as sent, last one first.
  function Backwards(frames: seq<Frame>): seq<Frame> {
    if frames == [] then [] else Backwards(frames[1..]) + [Padded(frames[0])]
  }

  lemma {:induction false} SentBackwards(n: Net, d: bool, frames: seq<Frame>, n': Net)
    requires Ledgers(n) && |frames| <= |At(n, d).pool| && n' == SendAll(n, d, frames)
    ensures Datas(At(n', !d).rx) == Backwards(frames) + Datas(At(n, !d).rx) && At(n', !d).log == At(n, !d).log
    decreases |frames|
  {
    if frames != [] {
      var n1 := Xmit(n, d, frames[0]);
      XmitQueues(n, d, frames[0], n1);
      SentBackwards(n1, d, frames[1..], n');
      Join(Backwards(frames[1..]), Padded(frames[0]), Datas(At(n, !d).rx));
    }
  }

  lemma Join(a: seq<Frame>, f: Frame, b: seq<Frame>)
    ensures a + ([f] + b) == a + [f] + b
  {
  }

  lemma XmitQueues(n: Net, d: bool, data: Frame, n': Net)
    requires Ledgers(n) && At(n, d).pool != [] && n' == Xmit(n, d, data)
    ensures Ledgers(n') && |At(n', d).pool| == |At(n, d).pool| - 1
    ensures Datas(At(n', !d).rx) == [Padded(data)] + Datas(At(n, !d).rx) && At(n', !d).log == At(n, !d).log
  {
    EitherLedger(n, d);
    EitherLedger(n, !d);
    XmitUnfold(n, d, data);
    DatasPush(At(n, d).pool[0].(data := Padded(data)), At(n, !d).rx);
    XmitLedgers(n, d, data, n');
  }

  lemma DatasPush(pkt: Packet, pkts: seq<Packet>)
    ensures Datas([pkt] + pkts) == [pkt.data] + Datas(pkts)
  {
    assert ([pkt] + pkts)[1..] == pkts;
  }

  lemma ConsumeLog(n: Net, d: bool)
    requires At(n, d).rx != []
    ensures var v, v' := At(n, d), At(Consume(n, d, true), d);
            v'.rx == v.rx[1..] && v'.log.received == v.log.received + [v.rx[0].data]
  {
  }

  lemma {:induction false} PollDelivers(n: Net, d: bool, k: nat, budget: nat, ok: nat -> bool, n': Net)
    requires k + |At(n, d).rx| <= budget && (forall i :: ok(i)) && n' == PollFrom(n, d, k, budget, ok)
    ensures At(n', d).log.received == At(n, d).log.received + Datas(At(n, d).rx)
    decreases budget - k
  {
    if k < budget && At(n, d).rx != [] {
      ConsumeLog(n, d);
      PollDelivers(Consume(n, d, true), d, k + 1, budget, ok, n');
    }
  }

  function Burst(d: bool, frames: seq<Frame>): seq<Step> {
    if frames == [] then [] else [XmitStep(d, frames[0])] + Burst(d, frames[1..])
  }

  // While the pool lasts no transmission of a burst is held back.
  lemma {:induction false} BurstSends(n: Net, d: bool, frames: seq<Frame>, n': Net)
    requires Ledgers(n) && |frames| <= |At(n, d).pool| && n' == SendAll(n, d, frames)
    ensures Exec(n, Burst(d, frames)) == n' && Ledgers(n') && (frames != [] ==> At(n', !d).scheduled)
    decreases |frames|
  {
    if frames != [] {
      var n1 := Xmit(n, d, frames[0]);
      EitherLedger(n, d);
      XmitQueues(n, d, frames[0], n1);
      BurstSends(n1, d, frames[1..], n');
      BurstFirst(n, d, frames, n1);
    }
  }

  lemma BurstFirst(n: Net, d: bool, frames: seq<Frame>, n1: Net)
    requires frames != [] && n1 == Apply(n, XmitStep(d, frames[0]))
    ensures Exec(n, Burst(d, frames)) == Exec(n1, Burst(d, frames[1..]))
  {
    assert Burst(d, frames)[1..] == Burst(d, frames[1..]);
  }

  // After any run, a burst sent while the peer's queue is empty arrives complete but last
  // frame first, when the poll gets the memory it needs.
  lemma BurstReversed(poolSize: nat, steps: seq<Step>, d: bool, frames: seq<Frame>, budget: nat, ok: nat -> bool,
                      n: Net, n1: Net, n2: Net)
    requires n == Exec(Start(poolSize), steps) && |frames| <= |At(n, d).pool| && At(n, !d).rx == []
    requires n1 == Exec(n, Burst(d, frames))
    requires |frames| <= budget && (forall i :: ok(i)) && n2 == Apply(n1, PollStep(!d, budget, ok))
    ensures At(n2, !d).log.received == At(n, !d).log.received + Backwards(frames)
  {
    StartLedgers(poolSize);
    ExecLedgers(Start(poolSize), steps, n);
    BurstSends(n, d, frames, SendAll(n, d, frames));
    if frames == [] {
      PollNothing(n, d, budget, ok, n2);
    } else {
      BurstArrives(n, d, frames, budget, ok, n1, n2);
    }
  }

  lemma PollNothing(n: Net, d: bool, budget: nat, ok: nat -> bool, n': Net)
    requires At(n, !d).rx == [] && n' == Apply(n, PollStep(!d, budget, ok))
    ensures At(n', !d).log == At(n, !d).log
  {
  }

  lemma BurstArrives(n: Net, d: bool, frames: seq<Frame>, budget: nat, ok: nat -> bool, n1: Net, n2: Net)
    requires Ledgers(n) && |frames| <= |At(n, d).pool| && At(n, !d).rx == [] && |frames| <= budget && (forall i :: ok(i))
    requires n1 == SendAll(n, d, frames) && n2 == Poll(n1, !d, budget, ok)
    ensures At(n2, !d).log.received == At(n, !d).log.received + Backwards(frames)
  {
    BurstQueued(n, d, frames);
    PollDelivers(n1, !d, 0, budget, ok, n2);
  }

  lemma BurstQueued(n: Net, d: bool, frames: seq<Frame>)
    requires Ledgers(n) && |frames| <= |At(n, d).pool| && At(n, !d).rx == []
    ensures var v := At(SendAll(n, d, frames), !d);
            |v.rx| == |frames| && Datas(v.rx) == Backwards(frames) && v.log == At(n, !d).log
  {
    SentBackwards(n, d, frames, SendAll(n, d, frames));
    DatasCount(At(SendAll(n, d, frames), !d).rx);
    BackwardsCount(frames);
  }

  lemma DatasCount(pkts: seq<Packet>)
    ensures |Datas(pkts)| == |pkts|
  {
  }

  lemma BackwardsCount(frames: seq<Frame>)
    ensures |Backwards(frames)| == |frames|
  {
  }
}
