/** The Subscription phase of the TotTag ranging scheduler
    (software/firmware/src/tasks/ranging/subscription_phase.c): an unscheduled
    node transmits one subscription request at a random offset, the node in
    slot 0 listens for requests for the rest of the window, and everyone
    then hands over to the Ranging phase at the same future time.  The radio
    and the ranging and schedule phases are oracles. */
module SubscriptionPhase {
  import opened Common

  /** `scheduler_phase_t` as far as this file distinguishes it; what the
      ranging phase returns is carried through unchanged. */
  datatype SchedulerPhase = Subscription | Ranging | MessageCollision | OtherPhase(code: nat)

  /** Header constants this phase depends on.  `usToDwt` and `dwtToUs` are
      the unit conversions US_TO_DWT and DWT_TO_US. */
  datatype Consts = Consts(unscheduledSlot: u8, subscriptionPacket: u8, modulePanId: u16,
                           receiveEarlyStartUs: nat, subscriptionTimeoutUs: nat,
                           broadcastPeriodUs: nat, txAntennaDelay: nat,
                           usToDwt: nat -> nat, dwtToUs: nat -> nat)

  /** The random offset is taken modulo SUBSCRIPTION_TIMEOUT_US - 100, which
      must be positive. */
  predicate ValidConsts(c: Consts) {
    c.subscriptionTimeoutUs > 100
  }

  /** The listening window of the phase in microseconds. */
  function Window(c: Consts): nat {
    c.receiveEarlyStartUs + c.subscriptionTimeoutUs
  }

  // ---------------------------------------------------------------------------
  // The subscription request header (IEEE 802.15.4-2011 MAC header)

  datatype Header = Header(frameCtrl: seq<u8>, msgType: u8, panId: seq<u8>,
                           destAddr: seq<u8>, sourceAddr: seq<u8>)

  /** `subscription_phase_initialize`: a broadcast data frame from this
      node's UID prefix of `addrLen` bytes, on the module's PAN. */
  function Initialize(c: Consts, uid: seq<u8>, addrLen: nat): (h: Header)
    requires |uid| >= addrLen
    ensures DecodeFrameControl(h.frameCtrl) == Some(SUBSCRIPTION_FRAME_CONTROL)
    ensures h.msgType == c.subscriptionPacket
    ensures |h.panId| == 2 && LeValue(h.panId) == c.modulePanId
    ensures h.destAddr == [0xFF, 0xFF]
    ensures h.sourceAddr == uid[..addrLen]
  {
    Header([0x41, 0x88], c.subscriptionPacket, [c.modulePanId % 256, c.modulePanId / 256],
           [0xFF, 0xFF], uid[..addrLen])
  }

  /** The fields of an IEEE 802.15.4-2011 frame control word (section 5.2.1.1). */
  datatype FrameControl = FrameControl(frameType: nat, security: bool, framePending: bool,
                                       ackRequest: bool, panIdCompression: bool,
                                       destAddrMode: nat, frameVersion: nat, srcAddrMode: nat)

  const FRAME_TYPE_DATA: nat := 1
  const ADDR_MODE_SHORT: nat := 2

  /** A data frame with PAN-ID compression and short destination and source
      addresses, frame version 0 (the IEEE 802.15.4-2003 frame format), no
      security, no pending data, no ACK. */
  const SUBSCRIPTION_FRAME_CONTROL: FrameControl :=
    FrameControl(FRAME_TYPE_DATA, false, false, false, true, ADDR_MODE_SHORT, 0, ADDR_MODE_SHORT)

  function B(x: bool): nat { if x then 1 else 0 }

  /** Decodes the two frame control octets (bits 0..7 in the first, bits
      8..15 in the second); `None` if a reserved bit 7..9 is set or the buffer
      is not two octets. */
  function DecodeFrameControl(b: seq<u8>): (r: Option<FrameControl>)
    ensures r.Some? ==> |b| == 2 && r.value.frameType < 8 && r.value.destAddrMode < 4 &&
                        r.value.frameVersion < 4 && r.value.srcAddrMode < 4
  {
    if |b| != 2 || b[0] >= 128 || b[1] % 4 != 0 then None
    else Some(FrameControl(b[0] % 8, (b[0] / 8) % 2 == 1, (b[0] / 16) % 2 == 1,
                           (b[0] / 32) % 2 == 1, b[0] / 64 == 1,
                           (b[1] / 4) % 4, (b[1] / 16) % 4, b[1] / 64))
  }

  /** Encodes a frame control with in-range fields into its two octets. */
  function EncodeFrameControl(f: FrameControl): (b: seq<u8>)
    requires f.frameType < 8 && f.destAddrMode < 4 && f.frameVersion < 4 && f.srcAddrMode < 4
    ensures |b| == 2
  {
    [f.frameType + 8 * B(f.security) + 16 * B(f.framePending) + 32 * B(f.ackRequest)
       + 64 * B(f.panIdCompression),
     4 * f.destAddrMode + 16 * f.frameVersion + 64 * f.srcAddrMode]
  }

  lemma LowOctet(t: nat, s: nat, p: nat, a: nat, c: nat)
    requires t < 8 && s < 2 && p < 2 && a < 2 && c < 2
    ensures var x := t + 8 * s + 16 * p + 32 * a + 64 * c;
            x < 128 && x % 8 == t && (x / 8) % 2 == s && (x / 16) % 2 == p &&
            (x / 32) % 2 == a && x / 64 == c
  {
  }

  lemma HighOctet(d: nat, v: nat, m: nat)
    requires d < 4 && v < 4 && m < 4
    ensures var x := 4 * d + 16 * v + 64 * m;
            x % 4 == 0 && (x / 4) % 4 == d && (x / 16) % 4 == v && x / 64 == m
  {
  }

  /** Decoding inverts encoding. */
  lemma FrameControlRoundTrip(f: FrameControl)
    requires f.frameType < 8 && f.destAddrMode < 4 && f.frameVersion < 4 && f.srcAddrMode < 4
    ensures DecodeFrameControl(EncodeFrameControl(f)) == Some(f)
  {
    LowOctet(f.frameType, B(f.security), B(f.framePending), B(f.ackRequest), B(f.panIdCompression));
    HighOctet(f.destAddrMode, f.frameVersion, f.srcAddrMode);
  }

  /** The octets 0x41 0x88 are exactly the encoding of the subscription frame control. */
  lemma SubscriptionFrameControlBytes()
    ensures EncodeFrameControl(SUBSCRIPTION_FRAME_CONTROL) == [0x41, 0x88]
  {
  }

  // ---------------------------------------------------------------------------
  // Phase context and hand-off

  /** `current_phase`, `schedule_index`, `schedule_length`, `reference_time`. */
  datatype Ctx = Ctx(current: SchedulerPhase, slot: u8, length: u8, referenceTime: nat)

  /** Calls the phase makes into the radio and the neighbouring phases. */
  datatype Effect =
    | SetReferenceTime(startDelay: u32)
    | ChooseAntenna(antenna: nat)
    | SetDelayedTrxTime(delay: u32)
    | Transmit
    | Listen(windowUs: nat)
    | ListenAgain(timeoutUs: u32)
    | AddDevice(eui: u8)
    | RangingBegin(slot: u8, length: u8, start: u32)
    | RangingTxComplete
    | RangingRxComplete
    | RangingRxError

  /** Everything the radio, the random generator and the ranging phase answer
      during one call. */
  datatype Oracle = Oracle(random: nat, txOk: bool, rxOk: bool, sysTimeHi32: u32,
                           rangingBegin: SchedulerPhase, rangingTxComplete: SchedulerPhase,
                           rangingRxComplete: SchedulerPhase, rangingRxError: SchedulerPhase)

  datatype Step = Step(ctx: Ctx, result: SchedulerPhase, effects: seq<Effect>)

  function ClearBit0(x: u32): (r: u32)
    ensures r % 2 == 0 && (r == x || r + 1 == x)
  {
    x - x % 2
  }

  /** A `uint64_t` tick count shifted right by 8 and cast to `uint32_t` names
      the 256-tick step of the 40-bit device clock that the count falls in. */
  lemma {:induction false} DeviceTicks(x: int)
    ensures Wrap32(Wrap64(x) / 256) * 256 <= x % TWO_40 < Wrap32(Wrap64(x) / 256) * 256 + 256
  {
    var y := Wrap64(x);
    var k := x / TWO_64;
    assert x == TWO_64 * k + y;
    var q := y / 256;
    var r := y % 256;
    assert y == 256 * q + r;
    var a := q / TWO_32;
    var v := q % TWO_32;
    assert q == TWO_32 * a + v;
    assert v == Wrap32(q);
    assert x == TWO_40 * (0x100_0000 * k + a) + (256 * v + r);
    Mod40(x, 0x100_0000 * k + a, 256 * v + r);
  }

  lemma Mod40(x: int, q: int, r: int)
    requires 0 <= r < TWO_40 && x == TWO_40 * q + r
    ensures x % TWO_40 == r
  {
  }

  /** Bit 0 of a 256-tick step cleared: the even step whose 512-tick window
      holds the tick count, taken on the 40-bit device clock. */
  function EvenStep(x: int): (s: u32)
    ensures s % 2 == 0
    ensures s * 256 <= x % TWO_40 < s * 256 + 512
  {
    DeviceTicks(x);
    ClearBit0(Wrap32(Wrap64(x) / 256))
  }

  /** The 32-bit device-time start handed to the Ranging phase: the even
      256-tick step whose window holds the reference time plus one broadcast
      period, on the 40-bit device clock. */
  function RangingStart(c: Consts, referenceTime: nat): (s: u32)
    ensures s % 2 == 0
    ensures var t := (referenceTime + c.usToDwt(c.broadcastPeriodUs)) % TWO_40;
            s * 256 <= t < s * 256 + 512
  {
    EvenStep(referenceTime + c.usToDwt(c.broadcastPeriodUs))
  }

  function HandOff(c: Consts, ctx: Ctx, o: Oracle, before: seq<Effect>): (s: Step)
    ensures s.ctx == ctx.(current := Ranging) && s.result == o.rangingBegin
    ensures s.effects == before + [RangingBegin(ctx.slot, ctx.length, RangingStart(c, ctx.referenceTime))]
  {
    Step(ctx.(current := Ranging), o.rangingBegin,
         before + [RangingBegin(ctx.slot, ctx.length, RangingStart(c, ctx.referenceTime))])
  }

  /** The delayed TX time of the unscheduled request: the early-start margin
      plus a random offset below SUBSCRIPTION_TIMEOUT_US - 100, less the
      antenna delay, in units of 256 ticks with bit 0 cleared. */
  function RequestDelay(c: Consts, random: nat): (d: u32)
    requires ValidConsts(c)
    ensures d % 2 == 0
    ensures var offsetUs := random % (c.subscriptionTimeoutUs - 100);
            var t := (c.usToDwt(c.receiveEarlyStartUs + offsetUs) - c.txAntennaDelay) % TWO_40;
            d * 256 <= t < d * 256 + 512
  {
    var offsetUs := random % (c.subscriptionTimeoutUs - 100);
    EvenStep(c.usToDwt(c.receiveEarlyStartUs + offsetUs) - c.txAntennaDelay)
  }

  /** `subscription_phase_begin`. */
  function Begin(c: Consts, slot: u8, size: u8, startDelay: u32, o: Oracle): (s: Step)
    requires ValidConsts(c)
    ensures s.ctx.slot == slot && s.ctx.length == size && s.ctx.referenceTime == startDelay * 256
    ensures s.ctx.referenceTime < TWO_40
    ensures |s.effects| >= 2 && s.effects[..2] == [SetReferenceTime(startDelay), ChooseAntenna(0)]
    ensures s.ctx.current == Subscription <==>
              (slot == c.unscheduledSlot && o.txOk) || (slot != c.unscheduledSlot && slot == 0 && o.rxOk)
    ensures s.ctx.current == Subscription ==> s.result == Subscription
    ensures s.ctx.current != Subscription ==>
              s.ctx.current == Ranging && s.result == o.rangingBegin &&
              s.effects[|s.effects| - 1] == RangingBegin(slot, size, RangingStart(c, startDelay * 256))
    ensures slot == c.unscheduledSlot ==>
              |s.effects| >= 4 && s.effects[2] == SetDelayedTrxTime(RequestDelay(c, o.random)) && s.effects[3] == Transmit
    ensures slot != c.unscheduledSlot && slot == 0 ==>
              |s.effects| >= 4 && s.effects[2..4] == [SetDelayedTrxTime(0), Listen(Window(c))]
  {
    var ctx := Ctx(Subscription, slot, size, startDelay * 256);
    var pre := [SetReferenceTime(startDelay), ChooseAntenna(0)];
    if slot == c.unscheduledSlot then
      var tried := pre + [SetDelayedTrxTime(RequestDelay(c, o.random)), Transmit];
      if o.txOk then Step(ctx, Subscription, tried) else HandOff(c, ctx, o, tried)
    else if slot == 0 then
      var tried := pre + [SetDelayedTrxTime(0), Listen(Window(c))];
      if o.rxOk then Step(ctx, Subscription, tried) else HandOff(c, ctx, o, tried)
    else HandOff(c, ctx, o, pre)
  }

  /** `subscription_phase_tx_complete`. */
  function TxComplete(c: Consts, ctx: Ctx, o: Oracle): (s: Step)
    ensures ctx.current != Subscription ==>
              s == Step(ctx, o.rangingTxComplete, [RangingTxComplete])
    ensures ctx.current == Subscription ==> s == HandOff(c, ctx, o, [])
  {
    if ctx.current != Subscription then Step(ctx, o.rangingTxComplete, [RangingTxComplete])
    else HandOff(c, ctx, o, [])
  }

  /** Microseconds since the reference time, from the high 32 bits of the
      system time: a wrap-safe 32-bit difference scaled back to ticks. */
  function ElapsedUs(c: Consts, ctx: Ctx, sysTimeHi32: u32): (e: u32)
  {
    Wrap32(c.dwtToUs(Wrap32(sysTimeHi32 - Wrap32(ctx.referenceTime / 256)) * 256))
  }

  /** `subscription_phase_rx_error`: listen again for the rest of the window
      if at least 600 us are left, otherwise hand over to Ranging. */
  function RxError(c: Consts, ctx: Ctx, o: Oracle): (s: Step)
    ensures ctx.current != Subscription ==>
              s == Step(ctx, o.rangingRxError, [RangingRxError])
    ensures ctx.current == Subscription ==>
              var elapsed := ElapsedUs(c, ctx, o.sysTimeHi32);
              var rearm := Wrap32(elapsed + 600) <= Window(c);
              (s.ctx.current == Subscription <==> rearm && o.rxOk) &&
              (rearm ==> |s.effects| >= 1 && s.effects[0] == ListenAgain(Wrap32(Window(c) - elapsed))) &&
              (rearm && elapsed + 600 < TWO_32 ==> Window(c) - elapsed >= 600) &&
              (s.ctx.current == Subscription ==> s == Step(ctx, Subscription, s.effects)) &&
              (s.ctx.current != Subscription ==> s == HandOff(c, ctx, o, if rearm then s.effects[..1] else []))
  {
    if ctx.current != Subscription then Step(ctx, o.rangingRxError, [RangingRxError])
    else
      var elapsed := ElapsedUs(c, ctx, o.sysTimeHi32);
      if Wrap32(elapsed + 600) <= Window(c) then
        var tried := [ListenAgain(Wrap32(Window(c) - elapsed))];
        if o.rxOk then Step(ctx, Subscription, tried) else HandOff(c, ctx, o, tried)
      else HandOff(c, ctx, o, [])
  }

  /** `subscription_phase_rx_complete` for a packet of type `msgType` whose
      first source-address byte is `source0`. */
  function RxComplete(c: Consts, ctx: Ctx, msgType: u8, source0: u8, o: Oracle): (s: Step)
    ensures ctx.current != Subscription ==>
              s == Step(ctx, o.rangingRxComplete, [RangingRxComplete])
    ensures ctx.current == Subscription && msgType != c.subscriptionPacket ==>
              s == Step(ctx, MessageCollision, [])
    ensures ctx.current == Subscription && msgType == c.subscriptionPacket ==>
              var after := RxError(c, ctx, o);
              s == after.(effects := [AddDevice(source0)] + after.effects)
  {
    if ctx.current != Subscription then Step(ctx, o.rangingRxComplete, [RangingRxComplete])
    else if msgType != c.subscriptionPacket then Step(ctx, MessageCollision, [])
    else
      var after := RxError(c, ctx, o);
      after.(effects := [AddDevice(source0)] + after.effects)
  }

  // ---------------------------------------------------------------------------
  // The three radio events as one dispatcher

  datatype Event = TxDone | RxDone(msgType: u8, source0: u8) | RxFailed

  function Handle(c: Consts, ctx: Ctx, e: Event, o: Oracle): Step
  {
    match e
    case TxDone => TxComplete(c, ctx, o)
    case RxDone(t, src) => RxComplete(c, ctx, t, src, o)
    case RxFailed => RxError(c, ctx, o)
  }

  function CountAddDevice(effects: seq<Effect>): nat
  {
    if |effects| == 0 then 0
    else (if effects[0].AddDevice? then 1 else 0) + CountAddDevice(effects[1..])
  }

  lemma {:induction false} CountAddDeviceAppend(a: seq<Effect>, b: seq<Effect>)
    ensures CountAddDevice(a + b) == CountAddDevice(a) + CountAddDevice(b)
  {
    if |a| > 0 {
      assert (a + b)[1..] == a[1..] + b;
      CountAddDeviceAppend(a[1..], b);
    } else {
      assert a + b == b;
    }
  }

  /** The event never touched the stored schedule; the phase only moved from
      Subscription to Ranging, if at all; and every hand-off carries the stored
      slot, length and the even start time derived from the stored reference. */
  ghost predicate KeepsSchedule(c: Consts, ctx: Ctx, s: Step) {
    s.ctx.slot == ctx.slot && s.ctx.length == ctx.length &&
    s.ctx.referenceTime == ctx.referenceTime &&
    (s.ctx.current == ctx.current || (ctx.current == Subscription && s.ctx.current == Ranging)) &&
    (forall k :: 0 <= k < |s.effects| && s.effects[k].RangingBegin? ==>
       s.effects[k] == RangingBegin(ctx.slot, ctx.length, RangingStart(c, ctx.referenceTime)))
  }

  lemma TxCompleteInvariants(c: Consts, ctx: Ctx, o: Oracle)
    ensures KeepsSchedule(c, ctx, TxComplete(c, ctx, o))
    ensures CountAddDevice(TxComplete(c, ctx, o).effects) == 0
  {
    if ctx.current == Subscription {
      assert TxComplete(c, ctx, o).effects ==
             [RangingBegin(ctx.slot, ctx.length, RangingStart(c, ctx.referenceTime))];
    }
  }

  lemma RxErrorInvariants(c: Consts, ctx: Ctx, o: Oracle)
    ensures KeepsSchedule(c, ctx, RxError(c, ctx, o))
    ensures CountAddDevice(RxError(c, ctx, o).effects) == 0
  {
    var err := RxError(c, ctx, o);
    if ctx.current == Subscription {
      var elapsed: int := ElapsedUs(c, ctx, o.sysTimeHi32);
      var pre := if Wrap32(elapsed + 600) <= Window(c) then [ListenAgain(Wrap32(Window(c) - elapsed))] else [];
      assert CountAddDevice(pre) == 0;
      if err.ctx.current != Subscription {
        CountAddDeviceAppend(pre, [RangingBegin(ctx.slot, ctx.length, RangingStart(c, ctx.referenceTime))]);
      }
    }
  }

  lemma RxCompleteInvariants(c: Consts, ctx: Ctx, msgType: u8, source0: u8, o: Oracle)
    ensures KeepsSchedule(c, ctx, RxComplete(c, ctx, msgType, source0, o))
    ensures CountAddDevice(RxComplete(c, ctx, msgType, source0, o).effects) ==
            (if ctx.current == Subscription && msgType == c.subscriptionPacket then 1 else 0)
  {
    if ctx.current == Subscription && msgType == c.subscriptionPacket {
      var err := RxError(c, ctx, o);
      var s := RxComplete(c, ctx, msgType, source0, o);
      RxErrorInvariants(c, ctx, o);
      CountAddDeviceAppend([AddDevice(source0)], err.effects);
      forall k | 0 <= k < |s.effects| && s.effects[k].RangingBegin?
        ensures s.effects[k] == RangingBegin(ctx.slot, ctx.length, RangingStart(c, ctx.referenceTime))
      {
        assert s.effects[k] == err.effects[k - 1];
      }
    }
  }

  /** Whatever the event, the stored schedule is kept (see `KeepsSchedule`)
      and at most one device is added, only for a subscription packet. */
  lemma HandleInvariants(c: Consts, ctx: Ctx, e: Event, o: Oracle)
    ensures KeepsSchedule(c, ctx, Handle(c, ctx, e, o))
    ensures CountAddDevice(Handle(c, ctx, e, o).effects) ==
            (if ctx.current == Subscription && e.RxDone? && e.msgType == c.subscriptionPacket then 1 else 0)
  {
    match e
    case TxDone => TxCompleteInvariants(c, ctx, o);
    case RxDone(t, src) => RxCompleteInvariants(c, ctx, t, src, o);
    case RxFailed => RxErrorInvariants(c, ctx, o);
  }
}
