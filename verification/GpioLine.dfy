/**
 The two-wire line code of kdev-gpio-irqsock/kgpio_irqsk.c: what gpio_tx puts on
 the wires, and what the two interrupt handlers make of it.
 */
module GpioLine {

  datatype Pulse = Ctl | Data

  type Frame = seq<bv8>

  const MAX_PKTLEN: nat := 1500
  const MAX_BITS: nat := 12000
  // The counters are C ints that wrap; ctl is kept as the counter's 32-bit pattern.
  const WRAP: nat := 0x1_0000_0000

  // 1 << j on a byte.
  function Mask(j: nat): bv8
    requires j < 8
  {
    if j == 0 then 1 else if j == 1 then 2 else if j == 2 then 4 else if j == 3 then 8
    else if j == 4 then 16 else if j == 5 then 32 else if j == 6 then 64 else 128
  }

  // CHECK_BIT
  predicate BitOf(b: bv8, j: nat)
    requires j < 8
  {
    b & Mask(j) != 0
  }

  lemma SetBit(b: bv8, j: nat, k: nat)
    requires j < 8 && k < 8
    ensures BitOf(b | Mask(j), k) <==> k == j || BitOf(b, k)
  {
  }

  lemma SameBits(a: bv8, b: bv8)
    requires forall j: nat | j < 8 :: BitOf(a, j) == BitOf(b, j)
    ensures a == b
  {
    assert BitOf(a, 0) == BitOf(b, 0) && BitOf(a, 1) == BitOf(b, 1) && BitOf(a, 2) == BitOf(b, 2) && BitOf(a, 3) == BitOf(b, 3);
    assert BitOf(a, 4) == BitOf(b, 4) && BitOf(a, 5) == BitOf(b, 5) && BitOf(a, 6) == BitOf(b, 6) && BitOf(a, 7) == BitOf(b, 7);
  }

  // ---------- the sender ----------

  // A payload's bits in line order: byte by byte, least significant first.
  function Bits(data: seq<bv8>): (bs: seq<bool>)
    ensures |bs| == 8 * |data|
  {
    seq(8 * |data|, q requires 0 <= q < 8 * |data| => BitOf(data[q / 8], q % 8))
  }

  lemma BitsAt(data: seq<bv8>, i: nat, j: nat)
    requires i < |data| && j < 8
    ensures Bits(data)[8 * i + j] == BitOf(data[i], j)
  {
    assert (8 * i + j) / 8 == i && (8 * i + j) % 8 == j;
  }

  // One payload bit: a ctl pulse first when the level changes, then a data pulse.
  function EncodeBit(mode: bool, bit: bool): seq<Pulse> {
    (if bit != mode then [Ctl] else []) + [Data]
  }

  function EncodeBits(mode: bool, bs: seq<bool>): seq<Pulse>
    decreases |bs|
  {
    if bs == [] then [] else EncodeBit(mode, bs[0]) + EncodeBits(bs[0], bs[1..])
  }

  const DELIMITER: seq<Pulse> := [Ctl, Ctl, Ctl, Data]

  function Tx(mode: bool, data: seq<bv8>): seq<Pulse> {
    DELIMITER + EncodeBits(mode, Bits(data)) + DELIMITER
  }

  lemma BitsOfOne()
    ensures Bits([1]) == [true, false, false, false, false, false, false, false]
  {
    var bs := Bits([1]);
    assert bs[0] && !bs[1] && !bs[2] && !bs[3] && !bs[4] && !bs[5] && !bs[6] && !bs[7];
  }

  lemma {:induction false} SameLevel(n: nat)
    ensures EncodeBits(false, seq(n, _ => false)) == seq(n, _ => Data)
  {
    if n > 0 {
      SameLevel(n - 1);
      assert seq(n, _ => false)[1..] == seq(n - 1, _ => false);
      assert [Data] + seq(n - 1, _ => Data) == seq(n, _ => Data);
    }
  }

  // What goes over the wires for a packet of one byte 1: the delimiter, the lowest bit with
  // its change of level, the next bit with the change back, six more bits, the delimiter.
  lemma WiresOfOne()
    ensures Tx(false, [1]) == [Ctl, Ctl, Ctl, Data] + [Ctl, Data, Ctl, Data] + [Data, Data, Data, Data, Data, Data] + [Ctl, Ctl, Ctl, Data]
  {
    BitsOfOne();
    SameLevel(6);
    var low: seq<bool> := seq(6, _ => false);
    assert Bits([1]) == [true] + ([false] + low);
    assert ([true] + ([false] + low))[1..] == [false] + low && ([false] + low)[1..] == low;
    assert EncodeBits(true, [false] + low) == [Ctl, Data] + EncodeBits(false, low);
    assert EncodeBits(false, Bits([1])) == [Ctl, Data] + EncodeBits(true, [false] + low);
  }

  // The train for a run of packets; every packet starts at level 0.
  function TxAll(packets: seq<Frame>): seq<Pulse> {
    if packets == [] then [] else Tx(false, packets[0]) + TxAll(packets[1..])
  }

  // ---------- the receiver ----------

  datatype Rx = Rx(ctl: nat, mode: bool, bits: nat, buf: seq<bv8>, frames: seq<Frame>)

  function Zeros(): seq<bv8> {
    seq(MAX_PKTLEN, _ => 0)
  }

  // Nothing received since the last delimiter: the state the driver starts in.
  function Sync(frames: seq<Frame>): Rx {
    Rx(0, false, 0, Zeros(), frames)
  }

  // The next data pulse would write past the buffer.
  predicate Overruns(r: Rx) {
    r.ctl != 3 && r.bits >= MAX_BITS
  }

  function OnCtl(r: Rx): Rx {
    r.(ctl := (r.ctl + 1) % WRAP)
  }

  // gpio_data_irq_handler at ctl count 3, a delimiter: a frame with payload is delivered.
  function OnDelimiter(r: Rx): Rx
    requires r.bits / 8 <= |r.buf|
  {
    if r.bits == 0 then r.(ctl := 0) else Rx(0, false, 0, Zeros(), r.frames + [r.buf[..r.bits / 8]])
  }

  // At any other count: 1 flips the level, and the pulse is a payload bit at that level.
  function OnPayload(r: Rx): Rx
    requires r.bits / 8 < |r.buf|
  {
    var mode := if r.ctl == 1 then !r.mode else r.mode;
    var p := r.bits / 8;
    Rx(if r.ctl == 1 then 0 else r.ctl, mode, r.bits + 1,
       if mode then r.buf[p := r.buf[p] | Mask(r.bits % 8)] else r.buf,
       r.frames)
  }

  function OnData(r: Rx): Rx
    requires !Overruns(r) && |r.buf| == MAX_PKTLEN && r.bits <= MAX_BITS
  {
    if r.ctl == 3 then OnDelimiter(r) else OnPayload(r)
  }

  predicate Sound(r: Rx) {
    |r.buf| == MAX_PKTLEN && r.bits <= MAX_BITS && r.ctl < WRAP
  }

  function Step(r: Rx, p: Pulse): (r': Rx)
    requires Sound(r) && (p == Data ==> !Overruns(r))
    ensures Sound(r')
  {
    match p
    case Ctl => OnCtl(r)
    case Data => OnData(r)
  }

  // No pulse of the train overruns the buffer.
  predicate Fits(r: Rx, t: seq<Pulse>)
    requires Sound(r)
    decreases |t|
  {
    t == [] || ((t[0] == Data ==> !Overruns(r)) && Fits(Step(r, t[0]), t[1..]))
  }

  function Feed(r: Rx, t: seq<Pulse>): (r': Rx)
    requires Sound(r) && Fits(r, t)
    ensures Sound(r')
    decreases |t|
  {
    if t == [] then r else Feed(Step(r, t[0]), t[1..])
  }

  lemma {:induction false} FeedAppend(r: Rx, t: seq<Pulse>, u: seq<Pulse>)
    requires Sound(r)
    ensures Fits(r, t + u) <==> Fits(r, t) && Fits(Feed(r, t), u)
    ensures Fits(r, t + u) ==> Feed(r, t + u) == Feed(Feed(r, t), u)
    decreases |t|
  {
    if t == [] {
      assert t + u == u;
    } else {
      assert (t + u)[0] == t[0] && (t + u)[1..] == t[1..] + u;
      if t[0] == Data ==> !Overruns(r) {
        FeedAppend(Step(r, t[0]), t[1..], u);
      }
    }
  }

  // buf holds the levels, least significant bit first, and zeros beyond them.
  ghost predicate Packs(buf: seq<bv8>, levels: seq<bool>) {
    && |buf| == MAX_PKTLEN && |levels| <= MAX_BITS
    && forall i, j: nat | 0 <= i < MAX_PKTLEN && j < 8 ::
         BitOf(buf[i], j) <==> 8 * i + j < |levels| && levels[8 * i + j]
  }

  lemma PacksZeros()
    ensures Packs(Zeros(), [])
  {
  }

  lemma PacksNext(r: Rx, levels: seq<bool>)
    requires Sound(r) && !Overruns(r) && r.ctl != 3 && Packs(r.buf, levels) && r.bits == |levels|
    ensures Packs(OnData(r).buf, levels + [OnData(r).mode])
  {
    var n := r.bits;
    var r' := OnData(r);
    var levels' := levels + [r'.mode];
    forall i, j: nat | 0 <= i < MAX_PKTLEN && j < 8
      ensures BitOf(r'.buf[i], j) <==> 8 * i + j < |levels'| && levels'[8 * i + j]
    {
      if i == n / 8 {
        SetBit(r.buf[i], n % 8, j);
      }
    }
  }

  // ---------- encoder and decoder undo each other ----------

  // A receiver between two payload pulses that has taken in these levels.
  ghost predicate Holds(r: Rx, levels: seq<bool>) {
    Sound(r) && r.ctl == 0 && r.bits == |levels| && Packs(r.buf, levels)
  }

  lemma BitArrives(r: Rx, levels: seq<bool>, bit: bool)
    requires Holds(r, levels)
    ensures Fits(r, EncodeBit(r.mode, bit)) <==> |levels| < MAX_BITS
    ensures Fits(r, EncodeBit(r.mode, bit)) ==>
              var r' := Feed(r, EncodeBit(r.mode, bit));
              Holds(r', levels + [bit]) && r'.mode == bit && r'.frames == r.frames
  {
    var r1 := if bit != r.mode then OnCtl(r) else r;
    if bit != r.mode {
      assert EncodeBit(r.mode, bit) == [Ctl, Data] && [Ctl, Data][1..] == [Data];
    } else {
      assert EncodeBit(r.mode, bit) == [Data];
    }
    assert [Data][1..] == [];
    assert Fits(r1, [Data]) <==> !Overruns(r1);
    if !Overruns(r1) {
      PacksNext(r1, levels);
      assert Feed(r1, [Data]) == Step(r1, Data);
    }
  }

  lemma {:induction false} PayloadArrives(r: Rx, levels: seq<bool>, bs: seq<bool>)
    requires Holds(r, levels)
    ensures Fits(r, EncodeBits(r.mode, bs)) <==> |levels| + |bs| <= MAX_BITS
    ensures Fits(r, EncodeBits(r.mode, bs)) ==>
              var r' := Feed(r, EncodeBits(r.mode, bs));
              Holds(r', levels + bs) && r'.frames == r.frames && (bs == [] ==> r' == r)
    decreases |bs|
  {
    if bs == [] {
      assert levels + bs == levels;
    } else {
      BitArrives(r, levels, bs[0]);
      var first, rest := EncodeBit(r.mode, bs[0]), EncodeBits(bs[0], bs[1..]);
      FeedAppend(r, first, rest);
      if Fits(r, first) {
        assert levels + bs == levels + [bs[0]] + bs[1..];
        PayloadArrives(Feed(r, first), levels + [bs[0]], bs[1..]);
      }
    }
  }

  lemma DelimiterArrives(r: Rx)
    requires Sound(r) && r.ctl == 0
    ensures Fits(r, DELIMITER)
    ensures Feed(r, DELIMITER) == if r.bits == 0 then r else Sync(r.frames + [r.buf[..r.bits / 8]])
  {
    DelimiterEnds(r, 4);
  }

  lemma {:induction false} DelimiterEnds(r: Rx, k: nat)
    requires Sound(r) && 0 < k <= 4 && r.ctl == 4 - k
    ensures Fits(r, DELIMITER[4 - k..]) && Feed(r, DELIMITER[4 - k..]) == OnDelimiter(r)
    decreases k
  {
    var t, u := DELIMITER[4 - k..], DELIMITER[5 - k..];
    assert t[1..] == u;
    if k > 1 {
      assert t[0] == Ctl;
      DelimiterEnds(OnCtl(r), k - 1);
    } else {
      assert t == [Data];
      OnePulse(r, Data);
    }
  }

  lemma OnePulse(r: Rx, p: Pulse)
    requires Sound(r) && (p == Data ==> !Overruns(r))
    ensures Fits(r, [p]) && Feed(r, [p]) == Step(r, p)
  {
    assert [p][1..] == [];
  }

  lemma PackedPayload(buf: seq<bv8>, data: seq<bv8>)
    requires |data| <= MAX_PKTLEN && Packs(buf, Bits(data))
    ensures buf[..|data|] == data
  {
    forall i | 0 <= i < |data| ensures buf[i] == data[i] {
      forall j: nat | j < 8 ensures BitOf(buf[i], j) == BitOf(data[i], j) {
        BitsAt(data, i, j);
      }
      SameBits(buf[i], data[i]);
    }
  }

  // The frame a packet is delivered as: an empty packet is not delivered at all.
  function Delivered(data: Frame): seq<Frame> {
    if data == [] then [] else [data]
  }

  // One packet from a synchronised receiver: it fits exactly when it has at most 1500
  // bytes, and then arrives whole and leaves the receiver synchronised.
  lemma PacketArrives(frames: seq<Frame>, data: Frame)
    ensures Fits(Sync(frames), Tx(false, data)) <==> |data| <= 1500
    ensures |data| <= 1500 ==> Feed(Sync(frames), Tx(false, data)) == Sync(frames + Delivered(data))
  {
    var r := Sync(frames);
    var payload := EncodeBits(false, Bits(data));
    PacksZeros();
    PayloadArrives(r, [], Bits(data));
    assert [] + Bits(data) == Bits(data);
    DelimiterArrives(r);
    FeedAppend(r, DELIMITER, payload);
    FeedAppend(r, DELIMITER + payload, DELIMITER);
    if |data| <= MAX_PKTLEN {
      FrameEnds(Feed(r, payload), frames, data);
    }
  }

  // What the opening delimiter is for: a receiver that holds the start of a frame whose end
  // was lost delivers what it has, and then the packet arrives whole.
  lemma PacketFlushes(r: Rx, data: Frame)
    requires Sound(r) && r.ctl == 0 && r.bits > 0 && |data| <= 1500
    ensures Fits(r, Tx(false, data))
    ensures Feed(r, Tx(false, data)) == Sync(r.frames + [r.buf[..r.bits / 8]] + Delivered(data))
  {
    var frames := r.frames + [r.buf[..r.bits / 8]];
    var payload := EncodeBits(false, Bits(data));
    DelimiterArrives(r);
    PacksZeros();
    PayloadArrives(Sync(frames), [], Bits(data));
    assert [] + Bits(data) == Bits(data);
    FeedAppend(r, DELIMITER, payload);
    FeedAppend(r, DELIMITER + payload, DELIMITER);
    FrameEnds(Feed(Sync(frames), payload), frames, data);
  }

  lemma FrameEnds(r: Rx, frames: seq<Frame>, data: Frame)
    requires |data| <= MAX_PKTLEN && Holds(r, Bits(data)) && r.frames == frames && (data == [] ==> r == Sync(frames))
    ensures Fits(r, DELIMITER) && Feed(r, DELIMITER) == Sync(frames + Delivered(data))
  {
    DelimiterArrives(r);
    PackedPayload(r.buf, data);
    assert frames + [] == frames;
  }

  function NonEmpty(packets: seq<Frame>): seq<Frame> {
    if packets == [] then [] else Delivered(packets[0]) + NonEmpty(packets[1..])
  }

  // Any run of packets of at most MAX_PKTLEN bytes arrives as exactly the non-empty
  // packets, in order and byte for byte, and leaves the receiver as it started.
  lemma {:induction false} RoundTrip(frames: seq<Frame>, packets: seq<Frame>)
    requires forall i | 0 <= i < |packets| :: |packets[i]| <= MAX_PKTLEN
    ensures Fits(Sync(frames), TxAll(packets))
    ensures Feed(Sync(frames), TxAll(packets)) == Sync(frames + NonEmpty(packets))
    decreases |packets|
  {
    if packets == [] {
      assert frames + [] == frames;
    } else {
      PacketArrives(frames, packets[0]);
      RoundTrip(frames + Delivered(packets[0]), packets[1..]);
      FeedAppend(Sync(frames), Tx(false, packets[0]), TxAll(packets[1..]));
      assert frames + NonEmpty(packets) == frames + Delivered(packets[0]) + NonEmpty(packets[1..]);
    }
  }
}
