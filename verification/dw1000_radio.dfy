/** The DW1000 radio layer of the SquarePoint module
    (software/squarepoint/firmware/dw1000.c): the SPI exchange with bounded
    retry, the interrupt drain with its escape hatch, the interrupt mutex, the
    sleep/wake flag, channel and antenna selection, the calibration lookup and
    the cached EUI.  Every hardware answer is an input. */
module Dw1000Radio {
  import opened Common

  // ---------------------------------------------------------------------------
  // SPI exchange: readfromspi / writetospi

  /** What the DMA engine reports for one attempt: did the header transfer
      complete, and would the body transfer complete if it were started. */
  datatype Attempt = Attempt(headerOk: bool, bodyOk: bool)

  datatype SpiAction = HeaderTransfer | BodyTransfer | ModuleReset

  const SPI_TRIES: nat := 3

  predicate Completes(a: Attempt) {
    a.headerOk && a.bodyOk
  }

  /** The transfers one attempt performs: a failed header skips the body. */
  function AttemptTrace(a: Attempt): (t: seq<SpiAction>)
    ensures BodyTransfer in t <==> a.headerOk
  {
    if a.headerOk then [HeaderTransfer, BodyTransfer] else [HeaderTransfer]
  }

  function AttemptsTrace(xs: seq<Attempt>): seq<SpiAction>
  {
    if |xs| == 0 then [] else AttemptsTrace(xs[..|xs| - 1]) + AttemptTrace(xs[|xs| - 1])
  }

  lemma AttemptsTraceStep(xs: seq<Attempt>, k: nat)
    requires k < |xs|
    ensures AttemptsTrace(xs[..k + 1]) == AttemptsTrace(xs[..k]) + AttemptTrace(xs[k])
    ensures ModuleReset !in AttemptTrace(xs[k])
  {
    assert xs[..k + 1][..k] == xs[..k];
  }

  /** One SPI exchange (header then body), as both `readfromspi` and
      `writetospi` perform it: up to three attempts, then a module reset. */
  method SpiExchange(outcomes: seq<Attempt>) returns (ret: int, attempts: nat, trace: seq<SpiAction>)
    requires |outcomes| >= SPI_TRIES
    ensures ret == 0 || ret == -1
    ensures ret == 0 <==> exists i :: 0 <= i < SPI_TRIES && Completes(outcomes[i])
    ensures 1 <= attempts <= SPI_TRIES
    ensures forall i :: 0 <= i < attempts - 1 ==> !Completes(outcomes[i])
    ensures ret == 0 ==> Completes(outcomes[attempts - 1])
    ensures ret == -1 ==> attempts == SPI_TRIES
    ensures trace == AttemptsTrace(outcomes[..attempts]) + (if ret == -1 then [ModuleReset] else [])
    ensures ModuleReset in trace <==> ret == -1
  {
    var tries := 0;
    trace := [];
    while tries < SPI_TRIES
      invariant 0 <= tries <= SPI_TRIES
      invariant forall i :: 0 <= i < tries ==> !Completes(outcomes[i])
      invariant trace == AttemptsTrace(outcomes[..tries])
      invariant ModuleReset !in trace
    {
      AttemptsTraceStep(outcomes, tries);
      trace := trace + AttemptTrace(outcomes[tries]);
      if Completes(outcomes[tries]) {
        return 0, tries + 1, trace;
      }
      tries := tries + 1;
    }
    ret, attempts, trace := -1, SPI_TRIES, trace + [ModuleReset];
  }

  // ---------------------------------------------------------------------------
  // dw1000_interrupt_fired

  function Max1(n: nat): nat {
    if n == 0 then 1 else n
  }

  /** Drains the radio's interrupt while the pin stays asserted, calling the
      vendor ISR at most `limit` times (DW1000_NUM_CONSECUTIVE_INTERRUPTS_BEFORE_RESET)
      and resetting the module when the line looks stuck.  `pins[k]` is the
      pin level sampled after the k-th ISR call.  The driver counts in a
      `uint8_t`, so only limits below 256 give the escape hatch. */
  method InterruptFired(pins: seq<bool>, limit: nat) returns (isrCalls: nat, reset: bool)
    requires limit < 256
    requires |pins| >= Max1(limit)
    ensures 1 <= isrCalls <= Max1(limit)
    ensures reset <==> forall i :: 0 <= i < limit ==> pins[i]
    ensures forall i :: 0 <= i < isrCalls - 1 ==> pins[i]
    ensures !reset ==> !pins[isrCalls - 1]
  {
    var count := 0;
    isrCalls := 1;
    while true
      invariant 0 <= count < Max1(limit)
      invariant isrCalls == count + 1
      invariant forall i :: 0 <= i < count ==> pins[i]
      decreases Max1(limit) - count
    {
      if !pins[isrCalls - 1] {
        break;
      }
      count := count + 1;
      if count >= limit {
        break;
      }
      isrCalls := isrCalls + 1;
    }
    reset := count >= limit;
  }

  // ---------------------------------------------------------------------------
  // decamutexon / decamutexoff

  /** `dw1000_irq_onoff` and whether the EXTI line is enabled in the NVIC. */
  datatype Irq = Irq(onoff: int, nvicEnabled: bool)

  /** The two states the driver ever puts the flag in. */
  predicate Consistent(s: Irq) {
    (s.onoff == 1 && s.nvicEnabled) || (s.onoff == 0 && !s.nvicEnabled)
  }

  /** `decamutexon`: disables the radio interrupt and reports whether it was on. */
  function MutexOn(s: Irq): (r: (Irq, int))
    ensures r.1 == 1 <==> s.onoff == 1
    ensures r.1 == 0 <==> s.onoff != 1
    ensures r.1 == 1 ==> r.0 == Irq(0, false)
    ensures r.1 == 0 ==> r.0 == s
    ensures Consistent(s) ==> Consistent(r.0)
  {
    if s.onoff == 1 then (Irq(0, false), 1) else (s, 0)
  }

  /** `decamutexoff`: re-enables the interrupt exactly when the saved status is non-zero. */
  function MutexOff(s: Irq, status: int): (r: Irq)
    ensures status != 0 ==> r.onoff == 1 && r.nvicEnabled
    ensures status == 0 ==> r == s
    ensures Consistent(s) ==> Consistent(r)
  {
    if status != 0 then Irq(1, true) else s
  }

  /** A critical section nested inside another: the inner acquire reports
      "was off", the inner release leaves interrupts off, and the outer
      release restores the state found before the outer acquire. */
  lemma NestedMutexRestores(s: Irq)
    requires Consistent(s)
    ensures var outer := MutexOn(s);
            var inner := MutexOn(outer.0);
            inner.1 == 0 &&
            MutexOff(inner.0, inner.1) == outer.0 &&
            MutexOff(MutexOff(inner.0, inner.1), outer.1) == s
  {
  }

  // ---------------------------------------------------------------------------
  // dw1000_radio_disable, dw1000_sleep, dw1000_wakeup, dw1000_force_wakeup

  const RADIO_STATE_IDLE: bv32 := 0x01_0000

  /** `dw1000_radio_disable` succeeds iff the SYS_STATE word read after the
      forced TRX-off has the IDLE bit set: the C test `reg & RADIO_STATE_IDLE`
      on the 32-bit register value.  The contract reads that bit as a number:
      the word lies in the upper half of some 2^17 block, i.e. its value
      modulo 2^17 is at least 2^16. */
  function RadioDisable(sysState: bv32): (ok: bool)
    ensures ok <==> sysState % 0x2_0000 >= RADIO_STATE_IDLE
  {
    sysState & RADIO_STATE_IDLE != 0
  }

  /** `_dw1000_asleep` and whether the SPI clock is on the fast prescaler. */
  datatype Power = Power(asleep: bool, spiFast: bool)

  /** `dw1000_sleep`: a no-op when already asleep or when the radio cannot be
      turned off; otherwise the radio is put to sleep. */
  function Sleep(p: Power, sysState: bv32): (r: Power)
    ensures p.asleep ==> r == p
    ensures !RadioDisable(sysState) ==> r == p
    ensures !p.asleep && RadioDisable(sysState) ==> r == p.(asleep := true)
    ensures r.spiFast == p.spiFast
  {
    if p.asleep then p
    else if !RadioDisable(sysState) then p
    else p.(asleep := true)
  }

  /** `dw1000_reset_hard(reinit)`: whatever the radio was doing, it is awake
      after the reset pulse.  With `reinit` the driver runs `setup()` again,
      which puts SPI back on the slow prescaler and enables the radio
      interrupt with `dw1000_irq_onoff = 1`. */
  function ResetHard(p: Power, irq: Irq, reinit: bool): (r: (Power, Irq))
    ensures !r.0.asleep
    ensures reinit ==> !r.0.spiFast && r.1 == Irq(1, true) && Consistent(r.1)
    ensures !reinit ==> r.0.spiFast == p.spiFast && r.1 == irq
  {
    if reinit then (Power(false, false), Irq(1, true))
    else (p.(asleep := false), irq)
  }

  /** A hard reset undoes a sleep: resetting a sleeping radio lands in the same
      state as resetting it before it slept, with or without re-initialisation. */
  lemma ResetUndoesSleep(p: Power, irq: Irq, reinit: bool, sysState: bv32)
    ensures ResetHard(Sleep(p, sysState), irq, reinit) == ResetHard(p, irq, reinit)
  {
  }

  const WAKEUP_POLLS: nat := 11

  /** `dw1000_wakeup`.  `ready[k]` is whether the k-th poll found the PLL
      locked and the device ID readable. */
  method Wakeup(p: Power, ready: seq<bool>) returns (r: Power, ok: bool, polls: nat)
    requires |ready| >= WAKEUP_POLLS
    ensures !p.asleep ==> r == p && ok && polls == 0
    ensures p.asleep ==> (ok <==> exists i :: 0 <= i < WAKEUP_POLLS && ready[i])
    ensures p.asleep ==> 1 <= polls <= WAKEUP_POLLS && r.spiFast
    ensures p.asleep ==> forall i :: 0 <= i < polls - 1 ==> !ready[i]
    ensures p.asleep ==> r.asleep == !ok
  {
    if !p.asleep {
      return p, true, 0;
    }
    r := p.(spiFast := false);
    var tries := 0;
    while tries <= 10
      invariant 0 <= tries <= 10
      invariant forall i :: 0 <= i < tries ==> !ready[i]
      invariant r == p.(spiFast := false)
      decreases 10 - tries
    {
      if ready[tries] {
        break;
      } else if tries == 10 {
        return r.(spiFast := true), false, tries + 1;
      }
      tries := tries + 1;
    }
    r, ok, polls := Power(false, true), true, tries + 1;
  }

  /** `dw1000_force_wakeup`: wakes the radio whatever the flag says. */
  method ForceWakeup(p: Power, ready: seq<bool>) returns (r: Power, ok: bool)
    requires |ready| >= WAKEUP_POLLS
    ensures ok <==> exists i :: 0 <= i < WAKEUP_POLLS && ready[i]
    ensures r.asleep == !ok && r.spiFast
  {
    var polls;
    r, ok, polls := Wakeup(p.(asleep := true), ready);
  }

  // ---------------------------------------------------------------------------
  // Channel and antenna selection

  /** `pgDelay[]`, indexed by channel number. */
  const PG_DELAY: seq<u8> := [0x0, 0xc9, 0xc2, 0xc5, 0x95, 0xc0, 0x0, 0x93]

  /** `tx_power[]`: the per-channel power words for channels 1, 3 and 5. */
  const TX_POWER: seq<u32> := [0x67676767, 0x8B8B8B8B, 0x85858585]

  /** `txPower_smartDisabled[]` and `txPower_smartEnabled[]` (the build without
      DW1000_MAXIMIZE_TX_POWER), indexed by channel number. */
  const TX_POWER_SMART_DISABLED: seq<u32> :=
    [0x0, TX_POWER[0], 0x67676767, TX_POWER[1], 0x9A9A9A9A, TX_POWER[2], 0x0, 0xD1D1D1D1]
  const TX_POWER_SMART_ENABLED: seq<u32> :=
    [0x0, 0x07274767, 0x07274767, 0x2B4B6B8B, 0x3A5A7A9A, 0x25456585, 0x0, 0x5171B1D1]

  /** The channel and the TX RF configuration programmed for it. */
  datatype RfConfig = RfConfig(chan: nat, pgDelay: u8, power: u32)

  function PowerFor(chan: nat, smartPower: bool): u32
    requires chan < 8
  {
    if smartPower then TX_POWER_SMART_ENABLED[chan] else TX_POWER_SMART_DISABLED[chan]
  }

  /** The TX configuration matches the channel it is programmed for. */
  predicate Matches(c: RfConfig, smartPower: bool) {
    c.chan < 8 && c.pgDelay == PG_DELAY[c.chan] && c.power == PowerFor(c.chan, smartPower)
  }

  /** `dw1000_update_channel`: DO_NOT_CHANGE_FLAG or the current channel
      leaves everything as it is; any other channel reprograms the PG delay
      and power for that channel. */
  function UpdateChannel(c: RfConfig, chan: u8, doNotChange: u8, smartPower: bool): (r: RfConfig)
    requires chan == doNotChange || chan < 8
    ensures chan == doNotChange || chan == c.chan ==> r == c
    ensures chan != doNotChange ==> r.chan == chan
    ensures chan != doNotChange && chan != c.chan ==> Matches(r, smartPower)
    ensures Matches(c, smartPower) ==> Matches(r, smartPower)
  {
    if chan == doNotChange then c
    else if c.chan != chan then RfConfig(chan, PG_DELAY[chan], PowerFor(chan, smartPower))
    else c
  }

  /** Selecting the same channel twice does no more than selecting it once. */
  lemma UpdateChannelIdempotent(c: RfConfig, chan: u8, doNotChange: u8, smartPower: bool)
    requires chan == doNotChange || chan < 8
    ensures var once := UpdateChannel(c, chan, doNotChange, smartPower);
            UpdateChannel(once, chan, doNotChange, smartPower) == once
  {
  }

  /** Levels of the three antenna-select pins ANT_SEL0..2. */
  datatype AntennaPins = AntennaPins(sel0: bool, sel1: bool, sel2: bool)

  /** `dw1000_choose_antenna`: antennas 0, 1 and 2 drive exactly their own
      select pin high; DO_NOT_CHANGE_FLAG and any other number leave the pins. */
  function ChooseAntenna(p: AntennaPins, antenna: u8, doNotChange: u8): (r: AntennaPins)
    ensures antenna == doNotChange || antenna >= 3 ==> r == p
    ensures antenna != doNotChange && antenna < 3 ==> SelectedAntenna(r) == Some(antenna)
  {
    if antenna == doNotChange then p
    else if antenna == 0 then AntennaPins(true, false, false)
    else if antenna == 1 then AntennaPins(false, true, false)
    else if antenna == 2 then AntennaPins(false, false, true)
    else p
  }

  /** Which antenna a one-hot pin pattern connects, if any. */
  function SelectedAntenna(p: AntennaPins): Option<nat>
  {
    match p
    case AntennaPins(true, false, false) => Some(0)
    case AntennaPins(false, true, false) => Some(1)
    case AntennaPins(false, false, true) => Some(2)
    case _ => None
  }

  // ---------------------------------------------------------------------------
  // Calibration lookup: dw1000_get_tx_delay / dw1000_get_rx_delay

  /** The 3x3 table `calibration_values[channel][antenna]`. */
  predicate IsCalibrationTable(cal: seq<seq<int>>) {
    |cal| == 3 && forall i :: 0 <= i < 3 ==> |cal[i]| == 3
  }

  /** Both delay getters: reduce both indices modulo 3, scale the entry by the
      per-direction unit (DW1000_DELAY_TX or DW1000_DELAY_RX), cast to 64 bits
      and divide by 100. */
  function CalibratedDelay(cal: seq<seq<int>>, channelIndex: u8, antennaIndex: u8, unit: int): (r: u64)
    requires IsCalibrationTable(cal)
    ensures var scaled := cal[channelIndex % 3][antennaIndex % 3] * unit;
            0 <= scaled < TWO_64 ==> 100 * r <= scaled < 100 * r + 100
  {
    Wrap64(cal[channelIndex % 3][antennaIndex % 3] * unit) / 100
  }

  /** Out-of-range indices alias the in-range ones: only the residues modulo 3 matter. */
  lemma CalibratedDelayPeriodic(cal: seq<seq<int>>, ch1: u8, ant1: u8, ch2: u8, ant2: u8, unit: int)
    requires IsCalibrationTable(cal)
    requires ch1 % 3 == ch2 % 3 && ant1 % 3 == ant2 % 3
    ensures CalibratedDelay(cal, ch1, ant1, unit) == CalibratedDelay(cal, ch2, ant2, unit)
  {
  }

  // ---------------------------------------------------------------------------
  // dw1000_read_eui

  /** `dw1000_read_eui`: the RAM copy is used once any of its bytes is
      non-zero; otherwise the EUI is (re)loaded from flash into both the copy
      and the caller's buffer. */
  method ReadEui(cache: seq<u8>, flash: seq<u8>) returns (buf: seq<u8>, cache': seq<u8>)
    requires |cache| == |flash|
    ensures (exists i :: 0 <= i < |cache| && cache[i] != 0) ==> buf == cache && cache' == cache
    ensures (forall i :: 0 <= i < |cache| ==> cache[i] == 0) ==> buf == flash && cache' == flash
    ensures cache' == buf
  {
    var loaded := false;
    var i := 0;
    while i < |cache|
      invariant 0 <= i <= |cache|
      invariant loaded <==> exists j :: 0 <= j < i && cache[j] != 0
    {
      if cache[i] != 0 {
        loaded := true;
        break;
      }
      i := i + 1;
    }
    if !loaded {
      cache' := flash;
      buf := flash;
    } else {
      cache' := cache;
      buf := cache;
    }
  }

  /** Reading the EUI twice gives the same answer as reading it once, and the
      second read leaves the RAM copy as the first left it. */
  method ReadEuiTwice(cache: seq<u8>, flash: seq<u8>) returns (first: seq<u8>, second: seq<u8>)
    requires |cache| == |flash|
    ensures first == second
  {
    var c1, c2;
    first, c1 := ReadEui(cache, flash);
    second, c2 := ReadEui(c1, flash);
  }
}
