/**
 gpio_tx, the two interrupt handlers, geth_napi_interrupt and geth_poll of
 kdev-gpio-irqsock/kgpio_irqsk.c as code, and whole runs of pulses and polls.
 */
module GpioCode {
  import opened GpioLine

  function LastLevel(mode: bool, bs: seq<bool>): bool {
    if bs == [] then mode else bs[|bs| - 1]
  }

  lemma {:induction false} EncodeAppend(mode: bool, a: seq<bool>, b: seq<bool>)
    ensures EncodeBits(mode, a + b) == EncodeBits(mode, a) + EncodeBits(LastLevel(mode, a), b)
    ensures LastLevel(mode, a + b) == LastLevel(LastLevel(mode, a), b)
    decreases |a|
  {
    if a == [] {
      assert a + b == b;
    } else {
      assert (a + b)[1..] == a[1..] + b;
      EncodeAppend(a[0], a[1..], b);
    }
  }

  lemma Extend(w: seq<Pulse>, mode: bool, a: seq<bool>, b: seq<bool>)
    ensures w + EncodeBits(mode, a) + EncodeBits(LastLevel(mode, a), b) == w + EncodeBits(mode, a + b)
    ensures LastLevel(mode, a + b) == LastLevel(LastLevel(mode, a), b)
  {
    EncodeAppend(mode, a, b);
  }

  lemma BitsNext(data: seq<bv8>, i: nat)
    requires i < |data|
    ensures Bits(data[..i + 1]) == Bits(data[..i]) + Bits([data[i]])
  {
    forall q | 0 <= q < 8 * (i + 1) ensures Bits(data[..i + 1])[q] == (Bits(data[..i]) + Bits([data[i]]))[q] {
      if q >= 8 * i {
        assert q / 8 == i && (q - 8 * i) / 8 == 0 && (q - 8 * i) % 8 == q % 8;
      }
    }
  }

  class Sender {
    var mode: bool
    var wire: seq<Pulse>

    constructor ()
      ensures !mode && wire == []
    {
      mode, wire := false, [];
    }

    method CtlOn()
      modifies this`wire
      ensures wire == old(wire) + [Ctl]
    {
      wire := wire + [Ctl];
    }

    method DataOn()
      modifies this`wire
      ensures wire == old(wire) + [Data]
    {
      wire := wire + [Data];
    }

    method Delimit()
      modifies this`wire
      ensures wire == old(wire) + DELIMITER
    {
      for i := 0 to 3
        invariant wire == old(wire) + DELIMITER[..i]
      {
        CtlOn();
      }
      DataOn();
    }

    // One round of gpio_tx's inner loop.
    method SendBit(bit: bool)
      modifies this
      ensures wire == old(wire) + EncodeBits(old(mode), [bit]) && mode == bit
    {
      assert [bit][1..] == [];
      if bit {
        if !mode {
          CtlOn();
          mode := true;
        }
        DataOn();
      } else {
        if mode {
          CtlOn();
          mode := false;
        }
        DataOn();
      }
    }

    // gpio_tx's inner loop.
    method SendByte(b: bv8)
      modifies this
      ensures wire == old(wire) + EncodeBits(old(mode), Bits([b])) && mode == LastLevel(old(mode), Bits([b]))
    {
      ghost var bs := Bits([b]);
      for j := 0 to 8
        invariant wire == old(wire) + EncodeBits(old(mode), bs[..j])
        invariant mode == LastLevel(old(mode), bs[..j])
      {
        assert bs[..j + 1] == bs[..j] + [bs[j]];
        BitsAt([b], 0, j);
        SendBit(BitOf(b, j));
        Extend(old(wire), old(mode), bs[..j], [bs[j]]);
      }
      assert bs[..8] == bs;
    }

    // gpio_tx's outer loop.
    method SendBytes(data: seq<bv8>)
      modifies this
      ensures wire == old(wire) + EncodeBits(old(mode), Bits(data))
    {
      for i := 0 to |data|
        invariant wire == old(wire) + EncodeBits(old(mode), Bits(data[..i]))
        invariant mode == LastLevel(old(mode), Bits(data[..i]))
      {
        BitsNext(data, i);
        SendByte(data[i]);
        Extend(old(wire), old(mode), Bits(data[..i]), Bits([data[i]]));
      }
      assert data[..|data|] == data;
    }

    // gpio_tx: the packet between two delimiters, and the level back at 0 afterwards.
    method GpioTx(data: seq<bv8>)
      modifies this
      ensures wire == old(wire) + Tx(old(mode), data)
      ensures !mode
    {
      Delimit();
      SendBytes(data);
      Delimit();
      mode := false;
    }

    // Packet after packet.
    method SendAll(packets: seq<Frame>)
      requires !mode
      modifies this
      ensures wire == old(wire) + TxAll(packets) && !mode
    {
      for i := 0 to |packets|
        invariant !mode && wire + TxAll(packets[i..]) == old(wire) + TxAll(packets)
      {
        assert packets[i..][0] == packets[i] && packets[i..][1..] == packets[i + 1..];
        Regroup(wire, Tx(false, packets[i]), TxAll(packets[i + 1..]));
        GpioTx(packets[i]);
      }
      assert TxAll(packets[|packets|..]) == [];
    }
  }

  lemma Regroup(w: seq<Pulse>, a: seq<Pulse>, b: seq<Pulse>)
    ensures w + (a + b) == w + a + b
  {
  }

  // ---------- the network card: pulses, and polls of the frame that waits ----------

  // A frame that a poll took, and whether it got an skb for it.
  datatype Polled = Polled(frame: Frame, ok: bool)

  function Frames(polled: seq<Polled>): seq<Frame> {
    if polled == [] then [] else Frames(polled[..|polled| - 1]) + [polled[|polled| - 1].frame]
  }

  function Kept(polled: seq<Polled>): seq<Frame> {
    if polled == [] then []
    else Kept(polled[..|polled| - 1]) + if polled[|polled| - 1].ok then [polled[|polled| - 1].frame] else []
  }

  // queue is i_q, received what was handed to the network stack, dropped is rx_dropped;
  // polled is auxiliary.
  datatype Card = Card(rx: Rx, queue: seq<Frame>, received: seq<Frame>, dropped: nat, polled: seq<Polled>)

  datatype Event = Line(p: Pulse) | PollNow(ok: bool)

  // A frame ends only when the one before it has been polled, and only a queued frame is polled.
  predicate CanHandle(c: Card, e: Event) {
    match e
    case Line(Ctl) => true
    case Line(Data) => !Overruns(c.rx) && (c.rx.ctl == 3 && c.rx.bits != 0 ==> c.queue == [])
    case PollNow(ok) => |c.queue| == 1
  }

  // The frame that a pulse completes, if it does.
  function Completed(r: Rx, p: Pulse): seq<Frame>
    requires Sound(r)
  {
    if p == Data && r.ctl == 3 && r.bits != 0 then [r.buf[..r.bits / 8]] else []
  }

  function Handle(c: Card, e: Event): (c': Card)
    requires Sound(c.rx) && CanHandle(c, e)
    ensures Sound(c'.rx)
  {
    match e
    case Line(p) => c.(rx := Step(c.rx, p), queue := c.queue + Completed(c.rx, p))
    case PollNow(ok) =>
      Card(c.rx, [], c.received + (if ok then c.queue else []), c.dropped + (if ok then 0 else 1),
           c.polled + [Polled(c.queue[0], ok)])
  }

  predicate CanRun(c: Card, es: seq<Event>)
    requires Sound(c.rx)
    decreases |es|
  {
    es == [] || (CanHandle(c, es[0]) && CanRun(Handle(c, es[0]), es[1..]))
  }

  function Run(c: Card, es: seq<Event>): (c': Card)
    requires Sound(c.rx) && CanRun(c, es)
    ensures Sound(c'.rx)
    decreases |es|
  {
    if es == [] then c else Run(Handle(c, es[0]), es[1..])
  }

  function Pulses(es: seq<Event>): seq<Pulse> {
    if es == [] then []
    else (match es[0] case Line(p) => [p] case PollNow(ok) => []) + Pulses(es[1..])
  }

  // Every frame delivered was polled or is queued, in order; each one polled was received
  // or counted as dropped.
  predicate Booked(c: Card) {
    && Frames(c.polled) + c.queue == c.rx.frames
    && c.received == Kept(c.polled)
    && c.dropped + |c.received| == |c.polled|
  }

  lemma PulseBooked(c: Card, p: Pulse)
    requires Sound(c.rx) && CanHandle(c, Line(p)) && Booked(c)
    ensures Booked(Handle(c, Line(p)))
  {
    assert Step(c.rx, p).frames == c.rx.frames + Completed(c.rx, p);
    assert Frames(c.polled) + (c.queue + Completed(c.rx, p)) == Frames(c.polled) + c.queue + Completed(c.rx, p);
  }

  lemma PollBooked(c: Card, ok: bool)
    requires Sound(c.rx) && CanHandle(c, PollNow(ok)) && Booked(c)
    ensures Booked(Handle(c, PollNow(ok)))
  {
    var last := Polled(c.queue[0], ok);
    assert (c.polled + [last])[..|c.polled|] == c.polled;
    assert c.queue == [c.queue[0]];
    assert Frames(c.polled + [last]) + [] == Frames(c.polled) + c.queue;
  }

  lemma HandleBooked(c: Card, e: Event)
    requires Sound(c.rx) && CanHandle(c, e) && Booked(c)
    ensures Booked(Handle(c, e))
  {
    match e
    case Line(p) => PulseBooked(c, p);
    case PollNow(ok) => PollBooked(c, ok);
  }

  // However the polls fall between the pulses and whichever of them find no memory, the
  // receiver sees the pulses alone, and the books stay right.
  lemma {:induction false} RunFeeds(c: Card, es: seq<Event>)
    requires Sound(c.rx) && CanRun(c, es) && Booked(c)
    ensures Fits(c.rx, Pulses(es)) && Run(c, es).rx == Feed(c.rx, Pulses(es))
    ensures Booked(Run(c, es))
    decreases |es|
  {
    if es != [] {
      HandleBooked(c, es[0]);
      if es[0].Line? {
        assert Pulses(es) == [es[0].p] + Pulses(es[1..]);
        assert Pulses(es)[1..] == Pulses(es[1..]);
      } else {
        assert Pulses(es) == Pulses(es[1..]);
      }
      RunFeeds(Handle(c, es[0]), es[1..]);
    }
  }

  const NewCard: Card := Card(Sync([]), [], [], 0, [])

  // Once the whole train of packets has passed, the frames polled, received or dropped, and
  // the one still queued are the non-empty packets, in order.
  lemma PolledRoundTrip(packets: seq<Frame>, es: seq<Event>)
    requires forall i | 0 <= i < |packets| :: |packets[i]| <= MAX_PKTLEN
    requires CanRun(NewCard, es) && Pulses(es) == TxAll(packets)
    ensures var c := Run(NewCard, es);
            && Frames(c.polled) + c.queue == NonEmpty(packets)
            && c.received == Kept(c.polled) && c.dropped + |c.received| == |c.polled|
            && c.rx == Sync(NonEmpty(packets))
  {
    RunFeeds(NewCard, es);
    RoundTrip([], packets);
    assert [] + NonEmpty(packets) == NonEmpty(packets);
  }

  class Receiver {
    var ctl: nat
    var mode: bool
    var bits: nat
    const value: array<bv8>
    // i_q, of length MAX_Q_LEN = 1: the frame that waits for the poll, if any.
    var queue: seq<Frame>
    var received: seq<Frame>
    var dropped: nat
    ghost var frames: seq<Frame>
    ghost var polled: seq<Polled>

    ghost function View(): Rx
      reads this, value
    {
      Rx(ctl, mode, bits, value[..], frames)
    }

    ghost function State(): Card
      reads this, value
    {
      Card(View(), queue, received, dropped, polled)
    }

    constructor ()
      ensures State() == NewCard && fresh(value)
    {
      ctl, mode, bits, queue, received, dropped, frames, polled := 0, false, 0, [], [], 0, [], [];
      value := new bv8[MAX_PKTLEN](_ => 0);
      new;
      assert value[..] == Zeros();
    }

    // gpio_ctl_irq_handler
    method CtlIrq()
      requires Sound(View())
      modifies this`ctl
      ensures View() == OnCtl(old(View()))
    {
      ctl := (ctl + 1) % WRAP;
    }

    method ClearValue()
      requires value.Length == MAX_PKTLEN
      modifies value
      ensures value[..] == Zeros()
    {
      for i := 0 to value.Length
        invariant forall j | 0 <= j < i :: value[j] == 0
      {
        value[i] := 0;
      }
    }

    // gpio_data_irq_handler. A frame that ends finds the queue empty: the one before it
    // has been polled.
    method DataIrq()
      requires Sound(View()) && !Overruns(View())
      requires ctl == 3 && bits != 0 ==> queue == []
      modifies this`ctl, this`mode, this`bits, this`queue, this`frames, value
      ensures View() == OnData(old(View())) && queue == old(queue) + Completed(old(View()), Data)
    {
      if ctl == 3 {
        Delimiter();
      } else {
        Payload();
      }
    }

    // A delimiter: after payload, hand the frame over and start afresh.
    method Delimiter()
      requires Sound(View()) && ctl == 3 && (bits != 0 ==> queue == [])
      modifies this`ctl, this`mode, this`bits, this`queue, this`frames, value
      ensures View() == OnDelimiter(old(View())) && queue == old(queue) + Completed(old(View()), Data)
    {
      ctl := 0;
      if bits != 0 {
        Interrupt();
        ClearValue();
        bits := 0;
        mode := false;
      }
    }

    // geth_napi_interrupt: the whole bytes received so far go to the queue.
    method Interrupt()
      requires bits / 8 <= value.Length && queue == []
      modifies this`queue, this`frames
      ensures queue == [value[..bits / 8]] && frames == old(frames) + [value[..bits / 8]]
    {
      queue := queue + [value[..bits / 8]];
      frames := frames + [value[..bits / 8]];
    }

    // Any other data pulse.
    method Payload()
      requires Sound(View()) && ctl != 3 && bits < MAX_BITS
      modifies this`ctl, this`mode, this`bits, value
      ensures View() == OnPayload(old(View()))
    {
      if ctl == 1 {
        ctl := 0;
        mode := !mode;
      }
      StoreBit();
    }

    method StoreBit()
      requires value.Length == MAX_PKTLEN && bits < MAX_BITS
      modifies this`bits, value
      ensures bits == old(bits) + 1
      ensures mode ==> value[..] == old(value[..])[old(bits) / 8 := old(value[..])[old(bits) / 8] | Mask(old(bits) % 8)]
      ensures !mode ==> value[..] == old(value[..])
    {
      var pktidx, bitidx := bits / 8, bits % 8;
      if mode {
        value[pktidx] := value[pktidx] | Mask(bitidx);
      } else {
        value[pktidx] := value[pktidx] | 0;
      }
      bits := bits + 1;
    }

    // geth_poll; skbOk tells whether dev_alloc_skb succeeds.
    method Poll(budget: nat, skbOk: bool) returns (npackets: nat)
      requires |queue| == 1
      modifies this`queue, this`received, this`dropped, this`polled
      ensures budget == 0 ==> npackets == 0 && State() == old(State())
      ensures budget > 0 ==> npackets == 1 && queue == []
      ensures budget > 0 ==> received == old(received) + if skbOk then old(queue) else []
      ensures budget > 0 ==> dropped == old(dropped) + if skbOk then 0 else 1
      ensures budget > 0 ==> polled == old(polled) + [Polled(old(queue)[0], skbOk)]
    {
      npackets := 0;
      var pkt := queue[|queue| - 1];
      while npackets < budget && |queue| > 0
        invariant npackets == 0 || npackets == 1
        invariant npackets == 0 ==> State() == old(State())
        invariant npackets == 1 ==> queue == [] && received == old(received) + (if skbOk then old(queue) else [])
        invariant npackets == 1 ==> budget > 0 && dropped == old(dropped) + (if skbOk then 0 else 1)
        invariant npackets == 1 ==> polled == old(polled) + [Polled(old(queue)[0], skbOk)]
        decreases |queue|
      {
        queue := queue[..|queue| - 1];
        polled := polled + [Polled(pkt, skbOk)];
        if !skbOk {
          dropped := dropped + 1;
        } else {
          received := received + [pkt];
        }
        npackets := npackets + 1;
      }
    }

    // One pulse on either line, or one poll.
    method Serve(e: Event)
      requires Sound(View()) && CanHandle(State(), e)
      modifies this, value
      ensures State() == Handle(old(State()), e)
    {
      match e
      case Line(p) =>
        if p == Ctl {
          CtlIrq();
        } else {
          DataIrq();
        }
      case PollNow(ok) =>
        var npackets := Poll(1, ok);
    }

    // Any run of pulses and polls.
    method ServeAll(es: seq<Event>)
      requires Sound(View()) && CanRun(State(), es)
      modifies this, value
      ensures State() == Run(old(State()), es)
    {
      var i := 0;
      while i < |es|
        invariant 0 <= i <= |es| && Sound(View()) && CanRun(State(), es[i..])
        invariant Run(State(), es[i..]) == Run(old(State()), es)
      {
        assert es[i..][0] == es[i] && es[i..][1..] == es[i + 1..];
        Serve(es[i]);
        i := i + 1;
      }
    }

    // A train of pulses with a poll as soon as a frame waits; ok says which polls get memory.
    method Receive(t: seq<Pulse>, ok: nat -> bool)
      requires Sound(View()) && Fits(View(), t) && queue == [] && Booked(State())
      modifies this, value
      ensures View() == Feed(old(View()), t) && queue == [] && Booked(State())
    {
      var i, n := 0, 0;
      while i < |t|
        invariant 0 <= i <= |t| && Sound(View()) && queue == [] && Booked(State())
        invariant Fits(View(), t[i..]) && Feed(View(), t[i..]) == Feed(old(View()), t)
      {
        assert t[i..][0] == t[i] && t[i..][1..] == t[i + 1..];
        PulseBooked(State(), t[i]);
        Serve(Line(t[i]));
        if queue != [] {
          PollBooked(State(), ok(n));
          Serve(PollNow(ok(n)));
          n := n + 1;
        }
        i := i + 1;
      }
    }
  }

  // Sender and receiver joined by the two wires: every non-empty packet is polled in order,
  // and received when its poll gets memory.
  method Loopback(packets: seq<Frame>, ok: nat -> bool) returns (card: Receiver)
    requires forall i | 0 <= i < |packets| :: |packets[i]| <= MAX_PKTLEN
    ensures Frames(card.polled) == NonEmpty(packets) && card.received == Kept(card.polled)
    ensures card.View() == Sync(NonEmpty(packets))
  {
    var sender := new Sender();
    sender.SendAll(packets);
    card := new Receiver();
    RoundTrip([], packets);
    assert [] + TxAll(packets) == TxAll(packets) && [] + NonEmpty(packets) == NonEmpty(packets);
    card.Receive(sender.wire, ok);
    assert Frames(card.polled) + [] == Frames(card.polled);
  }
}
