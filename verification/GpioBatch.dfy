/**
 A decoder that looks at a whole recorded pulse train at once, and the proof that the
 interrupt-by-interrupt receiver of kdev-gpio-irqsock/kgpio_irqsk.c agrees with it.
 */
module GpioBatch {
  import opened GpioLine

  // The ctl count that pulse p finds. A data pulse clears a count of 1 or 3 and no other.
  function CtlAt(t: seq<Pulse>, p: nat): (c: nat)
    requires p <= |t|
    ensures c < WRAP
  {
    if p == 0 then 0
    else
      var c := CtlAt(t, p - 1);
      if t[p - 1] == Ctl then (c + 1) % WRAP else if c == 1 || c == 3 then 0 else c
  }

  predicate IsDelimiter(t: seq<Pulse>, p: nat)
    requires p < |t|
  {
    t[p] == Data && CtlAt(t, p) == 3
  }

  predicate IsPayload(t: seq<Pulse>, p: nat)
    requires p < |t|
  {
    t[p] == Data && CtlAt(t, p) != 3
  }

  predicate IsToggle(t: seq<Pulse>, p: nat)
    requires p < |t|
  {
    t[p] == Data && CtlAt(t, p) == 1
  }

  // Where the segment that holds position p starts: just after the last delimiter before p.
  function SegmentStart(t: seq<Pulse>, p: nat): (a: nat)
    requires p <= |t|
    ensures a <= p
  {
    if p == 0 then 0 else if IsDelimiter(t, p - 1) then p else SegmentStart(t, p - 1)
  }

  function Toggles(t: seq<Pulse>, a: nat, b: nat): nat
    requires a <= b <= |t|
  {
    if a == b then 0 else Toggles(t, a, b - 1) + if IsToggle(t, b - 1) then 1 else 0
  }

  // The line level at p: flipped by every toggle since the segment started.
  predicate LevelAt(t: seq<Pulse>, p: nat)
    requires p < |t|
  {
    Toggles(t, SegmentStart(t, p), p + 1) % 2 == 1
  }

  // The levels at the payload pulses of [a, b).
  function Levels(t: seq<Pulse>, a: nat, b: nat): seq<bool>
    requires a <= b <= |t|
  {
    if a == b then [] else Levels(t, a, b - 1) + if IsPayload(t, b - 1) then [LevelAt(t, b - 1)] else []
  }

  function PackByte(bs: seq<bool>): bv8
    requires |bs| == 8
  {
    (if bs[0] then 1 else 0) | (if bs[1] then 2 else 0) | (if bs[2] then 4 else 0) | (if bs[3] then 8 else 0)
    | (if bs[4] then 16 else 0) | (if bs[5] then 32 else 0) | (if bs[6] then 64 else 0) | (if bs[7] then 128 else 0)
  }

  // Whole bytes, least significant bit first; up to seven left-over levels are dropped.
  function Pack(levels: seq<bool>): Frame {
    seq(|levels| / 8, i requires 0 <= i < |levels| / 8 => PackByte(levels[8 * i..8 * i + 8]))
  }

  // The frames of all segments that a delimiter ends before position b.
  function Frames(t: seq<Pulse>, b: nat): seq<Frame>
    requires b <= |t|
  {
    if b == 0 then []
    else
      var levels := Levels(t, SegmentStart(t, b - 1), b - 1);
      Frames(t, b - 1) + if IsDelimiter(t, b - 1) && levels != [] then [Pack(levels)] else []
  }

  lemma PackByteBits(bs: seq<bool>, j: nat)
    requires |bs| == 8 && j < 8
    ensures BitOf(PackByte(bs), j) == bs[j]
  {
  }

  lemma PackedPrefix(buf: seq<bv8>, levels: seq<bool>)
    requires Packs(buf, levels)
    ensures buf[..|levels| / 8] == Pack(levels)
  {
    forall i | 0 <= i < |levels| / 8 ensures buf[i] == PackByte(levels[8 * i..8 * i + 8]) {
      forall j: nat | j < 8 ensures BitOf(buf[i], j) == BitOf(PackByte(levels[8 * i..8 * i + 8]), j) {
        PackByteBits(levels[8 * i..8 * i + 8], j);
      }
      SameBits(buf[i], PackByte(levels[8 * i..8 * i + 8]));
    }
  }

  // A segment without payload has no toggles.
  lemma {:induction false} TogglesArePayload(t: seq<Pulse>, a: nat, b: nat)
    requires a <= b <= |t|
    ensures Toggles(t, a, b) <= |Levels(t, a, b)|
    decreases b
  {
    if a < b {
      TogglesArePayload(t, a, b - 1);
    }
  }

  // What the receiver must be after the first p pulses of t.
  ghost predicate Agrees(t: seq<Pulse>, p: nat, r: Rx)
    requires p <= |t|
  {
    var a := SegmentStart(t, p);
    && Sound(r)
    && r.ctl == CtlAt(t, p)
    && r.mode == (Toggles(t, a, p) % 2 == 1)
    && r.bits == |Levels(t, a, p)|
    && Packs(r.buf, Levels(t, a, p))
    && r.frames == Frames(t, p)
  }

  lemma AgreesNext(t: seq<Pulse>, p: nat, r: Rx)
    requires p < |t| && Agrees(t, p, r) && (t[p] == Data ==> !Overruns(r))
    ensures Agrees(t, p + 1, Step(r, t[p]))
  {
    if t[p] == Ctl {
      AgreesCtl(t, p, r);
    } else if IsDelimiter(t, p) {
      AgreesDelimiter(t, p, r);
    } else {
      AgreesPayload(t, p, r);
    }
  }

  lemma AgreesCtl(t: seq<Pulse>, p: nat, r: Rx)
    requires p < |t| && Agrees(t, p, r) && t[p] == Ctl
    ensures Agrees(t, p + 1, OnCtl(r))
  {
    var levels := Levels(t, SegmentStart(t, p), p);
    assert levels + [] == levels;
  }

  lemma AgreesDelimiter(t: seq<Pulse>, p: nat, r: Rx)
    requires p < |t| && Agrees(t, p, r) && IsDelimiter(t, p)
    ensures Agrees(t, p + 1, OnData(r))
  {
    var a := SegmentStart(t, p);
    TogglesArePayload(t, a, p);
    PacksZeros();
    PackedPrefix(r.buf, Levels(t, a, p));
  }

  lemma AgreesPayload(t: seq<Pulse>, p: nat, r: Rx)
    requires p < |t| && Agrees(t, p, r) && IsPayload(t, p) && !Overruns(r)
    ensures Agrees(t, p + 1, OnData(r))
  {
    PacksNext(r, Levels(t, SegmentStart(t, p), p));
  }

  lemma {:induction false} AgreesAt(t: seq<Pulse>, p: nat)
    requires p <= |t| && Fits(Sync([]), t)
    ensures Fits(Sync([]), t[..p]) && Agrees(t, p, Feed(Sync([]), t[..p]))
  {
    assert t == t[..p] + t[p..];
    FeedAppend(Sync([]), t[..p], t[p..]);
    if p == 0 {
      PacksZeros();
    } else {
      AgreesAt(t, p - 1);
      var r := Feed(Sync([]), t[..p - 1]);
      assert t[..p] == t[..p - 1] + [t[p - 1]];
      FeedAppend(Sync([]), t[..p - 1], [t[p - 1]]);
      OnePulse(r, t[p - 1]);
      AgreesNext(t, p - 1, r);
    }
  }

  // For every pulse train that does not overfill the buffer, the receiver delivers exactly
  // the batch decoder's frames, and between delimiters its buffer holds exactly the levels
  // since the last one, with zeros beyond data_bits_count.
  lemma ReceiverRefinesBatch(t: seq<Pulse>)
    requires Fits(Sync([]), t)
    ensures var r := Feed(Sync([]), t);
            var levels := Levels(t, SegmentStart(t, |t|), |t|);
            && r.frames == Frames(t, |t|)
            && r.bits == |levels| <= MAX_BITS
            && |r.buf| == MAX_PKTLEN
            && forall i, j: nat | 0 <= i < MAX_PKTLEN && j < 8 ::
                 BitOf(r.buf[i], j) <==> 8 * i + j < |levels| && levels[8 * i + j]
  {
    AgreesAt(t, |t|);
    assert t[..|t|] == t;
  }

  // ---------- what a lost synchronisation costs ----------

  function Ctls(t: seq<Pulse>): nat {
    if t == [] then 0 else (if t[0] == Ctl then 1 else 0) + Ctls(t[1..])
  }

  function CtlRun(n: nat): (t: seq<Pulse>)
    ensures |t| == n
  {
    if n == 0 then [] else [Ctl] + CtlRun(n - 1)
  }

  // How many more ctl pulses must arrive before a count above 3 can read 3 again.
  function ToWrap(r: Rx): int {
    4294967299 - r.ctl
  }

  lemma {:induction false} QuietUntilThree(r: Rx, t: seq<Pulse>)
    requires Sound(r) && Fits(r, t)
    requires (r.ctl >= 4 && Ctls(t) < ToWrap(r)) || r.ctl + Ctls(t) < 3
    ensures Feed(r, t).frames == r.frames
    decreases |t|
  {
    if t != [] {
      QuietUntilThree(Step(r, t[0]), t[1..]);
    }
  }

  lemma OneMoreCtl(c: nat, n: nat)
    requires n > 0
    ensures ((c + 1) % WRAP + (n - 1)) % WRAP == (c + n) % WRAP
  {
  }

  lemma {:induction false} CtlRunFed(r: Rx, n: nat)
    requires Sound(r)
    ensures Fits(r, CtlRun(n)) && Feed(r, CtlRun(n)) == r.(ctl := (r.ctl + n) % WRAP)
    ensures Ctls(CtlRun(n)) == n
    decreases n
  {
    if n > 0 {
      assert CtlRun(n)[1..] == CtlRun(n - 1);
      CtlRunFed(OnCtl(r), n - 1);
      OneMoreCtl(r.ctl, n);
    }
  }

  lemma {:induction false} CtlsAppend(t: seq<Pulse>, u: seq<Pulse>)
    ensures Ctls(t + u) == Ctls(t) + Ctls(u)
    decreases |t|
  {
    if t == [] {
      assert t + u == u;
    } else {
      assert (t + u)[0] == t[0] && (t + u)[1..] == t[1..] + u;
      CtlsAppend(t[1..], u);
    }
  }

  // With payload pending, the counter's wraparound and a data pulse deliver it.
  lemma PendingDelivered(r: Rx) returns (t: seq<Pulse>)
    requires Sound(r) && r.ctl >= 4 && r.bits > 0
    ensures Fits(r, t) && Ctls(t) == ToWrap(r) && Feed(r, t).frames == r.frames + [r.buf[..r.bits / 8]]
  {
    var n := ToWrap(r);
    t := CtlRun(n) + [Data];
    CtlRunFed(r, n);
    CtlsAppend(CtlRun(n), [Data]);
    FeedAppend(r, CtlRun(n), [Data]);
    OnePulse(r.(ctl := 3), Data);
  }

  // Without payload a data pulse first makes some.
  lemma WrapDelivers(r: Rx) returns (t: seq<Pulse>)
    requires Sound(r) && r.ctl >= 4
    ensures Fits(r, t) && Ctls(t) == ToWrap(r) && |Feed(r, t).frames| == |r.frames| + 1
  {
    if r.bits > 0 {
      t := PendingDelivered(r);
    } else {
      var r' := OnData(r);
      var rest := PendingDelivered(r');
      OnePulse(r, Data);
      FeedAppend(r, [Data], rest);
      CtlsAppend([Data], rest);
      t := [Data] + rest;
    }
  }

  ghost predicate Delivers(r: Rx, t: seq<Pulse>)
    requires Sound(r)
  {
    Fits(r, t) && Feed(r, t).frames != r.frames
  }

  // Once the ctl count has passed 3, no train with fewer than ToWrap ctl pulses delivers a
  // frame, whatever its data pulses; and the bound is exact, because the counter wraps.
  lemma StuckUntilWrap(r: Rx)
    requires Sound(r) && r.ctl >= 4
    ensures forall t | Delivers(r, t) :: Ctls(t) >= ToWrap(r)
    ensures exists t :: Delivers(r, t) && Ctls(t) == ToWrap(r)
  {
    forall t | Delivers(r, t) ensures Ctls(t) >= ToWrap(r) {
      if Ctls(t) < ToWrap(r) {
        QuietUntilThree(r, t);
      }
    }
    var t := WrapDelivers(r);
    assert Delivers(r, t);
  }

  // One ctl pulse too many brings the initial receiver there.
  lemma LosesSync()
    ensures Fits(Sync([]), CtlRun(4)) && Feed(Sync([]), CtlRun(4)) == Sync([]).(ctl := 4)
  {
    CtlRunFed(Sync([]), 4);
  }
}
