/** Radio-level logic of the DW3000 driver port (software/firmware/src/peripherals/src/ranging.c):
    the EUI-64 derived from the device UID, the signal-level range
    correction table, the channel-change guard and register update, antenna
    selection, and the wake-up wait. */
module Dw3000Radio {
  import opened Common
  import opened Dw3000ChanCtrl

  // ---------------------------------------------------------------------------
  // EUI-64 construction in ranging_radio_init

  /** The UID's three high bytes, the 0xFE 0xFF filler, then its three low bytes. */
  function Eui64(uid: seq<u8>): (eui: seq<u8>)
    requires |uid| >= 6
    ensures |eui| == 8
    ensures IsExpandedUid(eui) && UidOfEui64(eui) == uid[..6]
  {
    uid[..3] + [0xFE, 0xFF] + uid[3..6]
  }

  /** An EUI-64 of the form the driver builds. */
  predicate IsExpandedUid(eui: seq<u8>) {
    |eui| == 8 && eui[3] == 0xFE && eui[4] == 0xFF
  }

  function UidOfEui64(eui: seq<u8>): (uid: seq<u8>)
    requires |eui| == 8
    ensures |uid| == 6
  {
    eui[..3] + eui[5..]
  }

  /** Every EUI-64 of the expanded form comes from exactly one UID. */
  lemma Eui64OfUid(eui: seq<u8>)
    requires IsExpandedUid(eui)
    ensures Eui64(UidOfEui64(eui)) == eui
  {
  }

  // ---------------------------------------------------------------------------
  // ranging_radio_compute_correction_for_signal_level

  /** The range correction for a truncated, sign-inverted signal level, in
      thousandths of a metre (the constant the code divides by the length of
      one device time unit). */
  function CorrectionMillimetres(inverted: u32): (mm: int)
    ensures -110 <= mm <= 81
  {
    match inverted
    case 61 | 62 => -110
    case 63 | 64 => -105
    case 65 | 66 => -100
    case 67 | 68 => -93
    case 69 | 70 => -82
    case 71 | 72 => -69
    case 73 | 74 => -51
    case 75 | 76 => -27
    case 77 | 78 => 0
    case 79 | 80 => 21
    case 81 | 82 => 35
    case 83 | 84 => 42
    case 85 | 86 => 49
    case 87 | 88 => 62
    case 89 | 90 => 71
    case 91 | 92 => 76
    case 93 | 94 => 81
    case _ => if inverted < 61 then -110 else 81
  }

  /** Reference definition: one offset per pair of levels from 61/62 to
      93/94, clamped to the end buckets outside that range. */
  const CORRECTION_BUCKETS: seq<int> :=
    [-110, -105, -100, -93, -82, -69, -51, -27, 0, 21, 35, 42, 49, 62, 71, 76, 81]

  function Bucket(inverted: nat): (k: nat)
    ensures k < |CORRECTION_BUCKETS|
  {
    if inverted < 61 then 0
    else if inverted > 94 then |CORRECTION_BUCKETS| - 1
    else (inverted - 61) / 2
  }

  lemma CorrectionMatchesBuckets(inverted: u32)
    ensures CorrectionMillimetres(inverted) == CORRECTION_BUCKETS[Bucket(inverted)]
  {
  }

  /** The buckets grow with the inverted level, so the correction never
      decreases as the signal gets weaker. */
  lemma CorrectionMonotone(lo: u32, hi: u32)
    requires lo <= hi
    ensures CorrectionMillimetres(lo) <= CorrectionMillimetres(hi)
  {
    CorrectionMatchesBuckets(lo);
    CorrectionMatchesBuckets(hi);
    assert Bucket(lo) <= Bucket(hi);
    var t := CORRECTION_BUCKETS;
    assert forall i, j :: 0 <= i <= j < |t| ==> t[i] <= t[j];
  }

  /** Each odd level shares its bucket with the next even level; levels
      below 61 share the 61/62 bucket, levels above 94 the 93/94 bucket, and
      77/78 needs no correction. */
  lemma CorrectionPairsAndClamps(inverted: u32)
    ensures 61 <= inverted <= 93 && inverted % 2 == 1 ==>
              CorrectionMillimetres(inverted) == CorrectionMillimetres(inverted + 1)
    ensures inverted < 61 ==> CorrectionMillimetres(inverted) == CorrectionMillimetres(61)
    ensures inverted > 94 ==> CorrectionMillimetres(inverted) == CorrectionMillimetres(94)
    ensures inverted == 77 || inverted == 78 <==> CorrectionMillimetres(inverted) == 0
  {
    CorrectionMatchesBuckets(inverted);
    if 61 <= inverted <= 93 && inverted % 2 == 1 {
      CorrectionMatchesBuckets(inverted + 1);
    }
  }

  // ---------------------------------------------------------------------------
  // ranging_radio_choose_channel

  /** The fields of `dw_config` the channel change reads and writes. */
  datatype DwConfig = DwConfig(chan: u8, txCode: bv8, rxCode: bv8, sfdType: bv8)

  /** `dwt_txconfig_t`: PG delay, power word, PG count. */
  datatype TxConfig = TxConfig(pgDelay: u8, power: u32, pgCount: u16)

  const TX_CONFIG_CH5: TxConfig := TxConfig(0x34, 0xFFFFFFFF, 0x0)
  const TX_CONFIG_CH9: TxConfig := TxConfig(0x34, 0xFEFEFEFE, 0x0)

  /** Which analog front-end set-up is written: channel 9 also programs the RX side. */
  datatype Analog = AnalogCh5 | AnalogCh9

  /** What a channel change programs into the radio. */
  datatype ChannelChange = ChannelChange(chanCtrl: bv32, analog: Analog, pllPolls: nat,
                                         pllLocked: bool, txConfig: TxConfig, mrxLut: u8)

  /** The PLL lock wait: up to `maxRetries` polls, stopping at the first
      locked one.  `lock[k]` is the lock bit seen by the k-th poll. */
  method PollPllLock(lock: seq<bool>, maxRetries: u8) returns (polls: nat, locked: bool)
    requires |lock| >= maxRetries
    ensures polls <= maxRetries
    ensures locked <==> exists i :: 0 <= i < maxRetries && lock[i]
    ensures locked ==> polls >= 1 && lock[polls - 1]
    ensures forall i :: 0 <= i < polls && (i < polls - 1 || !locked) ==> !lock[i]
    ensures !locked ==> polls == maxRetries
  {
    polls, locked := 0, false;
    while polls < maxRetries
      invariant polls <= maxRetries
      invariant forall i :: 0 <= i < polls ==> !lock[i]
    {
      polls := polls + 1;
      if lock[polls - 1] {
        locked := true;
        return;
      }
    }
  }

  /** The change is skipped for DO_NOT_CHANGE_FLAG and for the channel already set. */
  predicate ChannelChanges(cfg: DwConfig, channel: u8, doNotChange: u8) {
    channel != doNotChange && cfg.chan != channel
  }

  /** What a change to `channel` programs: the CHAN_CTRL word (with the
      preamble codes and SFD type of `cfg` in their fields), the analog
      set-up for the channel, the bounded PLL wait over the lock bits, the TX
      power and pulse configuration (channel 5 or not), and the matching
      receive LUT. */
  predicate ChangeMade(l: ChanCtrlLayout, cfg: DwConfig, channel: u8, chanCtrl: bv32, lock: seq<bool>,
                       maxRetries: u8, c: ChannelChange)
    requires |lock| >= maxRetries
  {
    WellFormedLayout(l) &&
    ChanCtrlProgrammed(l, cfg.rxCode, cfg.txCode, cfg.sfdType, channel, chanCtrl, c.chanCtrl) &&
    CodesHeld(l, cfg.rxCode, cfg.txCode, cfg.sfdType, c.chanCtrl) &&
    (c.analog == AnalogCh9 <==> channel == 9) &&
    c.pllPolls <= maxRetries &&
    (c.pllLocked <==> exists i :: 0 <= i < maxRetries && lock[i]) &&
    (c.txConfig == TX_CONFIG_CH5 <==> channel == 5) &&
    (c.txConfig == TX_CONFIG_CH9 <==> channel != 5) &&
    c.mrxLut == channel
  }

  /** `ranging_radio_choose_channel`. */
  method ChooseChannel(cfg: DwConfig, channel: u8, doNotChange: u8, l: ChanCtrlLayout,
                       chanCtrl: bv32, lock: seq<bool>, maxRetries: u8)
    returns (cfg': DwConfig, change: Option<ChannelChange>)
    requires WellFormedLayout(l) && |lock| >= maxRetries
    ensures !ChannelChanges(cfg, channel, doNotChange) ==> cfg' == cfg && change.None?
    ensures ChannelChanges(cfg, channel, doNotChange) ==> cfg' == cfg.(chan := channel) && change.Some?
    ensures change.Some? ==> ChangeMade(l, cfg, channel, chanCtrl, lock, maxRetries, change.value)
    ensures !ChannelChanges(cfg', channel, doNotChange)
  {
    if !ChannelChanges(cfg, channel, doNotChange) {
      return cfg, None;
    }
    cfg' := cfg.(chan := channel);
    var c := ProgramChannel(cfg', channel, l, chanCtrl, lock, maxRetries);
    change := Some(c);
  }

  /** The register writes of a channel change, with the new configuration's
      preamble codes and SFD type placed in CHAN_CTRL. */
  method ProgramChannel(cfg: DwConfig, channel: u8, l: ChanCtrlLayout,
                        chanCtrl: bv32, lock: seq<bool>, maxRetries: u8)
    returns (c: ChannelChange)
    requires WellFormedLayout(l) && |lock| >= maxRetries
    ensures ChangeMade(l, cfg, channel, chanCtrl, lock, maxRetries, c)
  {
    var word := ChanCtrlUpdate(l, cfg.rxCode, cfg.txCode, cfg.sfdType, channel, chanCtrl);
    ProgrammedHoldsCodes(l, cfg.rxCode, cfg.txCode, cfg.sfdType, channel, chanCtrl, word);
    var analog := if channel == 9 then AnalogCh9 else AnalogCh5;
    var polls, locked := PollPllLock(lock, maxRetries);
    var txConfig := if channel == 5 then TX_CONFIG_CH5 else TX_CONFIG_CH9;
    c := ChannelChange(word, analog, polls, locked, txConfig, channel);
  }

  /** Choosing the same channel again right after a change changes nothing. */
  method ChooseChannelTwice(cfg: DwConfig, channel: u8, doNotChange: u8, l: ChanCtrlLayout,
                            chanCtrl: bv32, lock: seq<bool>, maxRetries: u8)
    returns (second: Option<ChannelChange>)
    requires WellFormedLayout(l) && |lock| >= maxRetries
    ensures second.None?
  {
    var cfg1, first := ChooseChannel(cfg, channel, doNotChange, l, chanCtrl, lock, maxRetries);
    var cfg2;
    cfg2, second := ChooseChannel(cfg1, channel, doNotChange, l, chanCtrl, lock, maxRetries);
  }

  // ---------------------------------------------------------------------------
  // ranging_radio_choose_antenna

  /** Levels of the two antenna-select pins on boards before revision L. */
  datatype AntennaPins = AntennaPins(select1: bool, select2: bool)

  /** Antennas 0, 1 and 2 are the pin patterns (low, high), (high, low) and
      (high, high); any other number, and any board from revision L on,
      leaves the pins as they are. */
  function ChooseAntenna(p: AntennaPins, antenna: u8, boardBeforeRevL: bool): (r: AntennaPins)
    ensures boardBeforeRevL && antenna < 3 ==> SelectedAntenna(r) == Some(antenna as nat)
    ensures !boardBeforeRevL || antenna >= 3 ==> r == p
  {
    if !boardBeforeRevL then p
    else if antenna == 0 then AntennaPins(false, true)
    else if antenna == 1 then AntennaPins(true, false)
    else if antenna == 2 then AntennaPins(true, true)
    else p
  }

  /** Which antenna a pin pattern selects; both pins low (the pattern sleep
      leaves) selects none. */
  function SelectedAntenna(p: AntennaPins): Option<nat>
  {
    match p
    case AntennaPins(false, true) => Some(0)
    case AntennaPins(true, false) => Some(1)
    case AntennaPins(true, true) => Some(2)
    case AntennaPins(false, false) => None
  }

  /** Every pin pattern an antenna choice can produce is produced by exactly
      the antenna it decodes to. */
  lemma ChooseAntennaInverse(p: AntennaPins, q: AntennaPins)
    requires SelectedAntenna(q).Some?
    ensures ChooseAntenna(p, SelectedAntenna(q).value as u8, true) == q
  {
  }

  // ---------------------------------------------------------------------------
  // ranging_radio_wakeup

  const WAKEUP_DELAYS: nat := 100

  datatype WakeupOutcome = Restored(delays: nat) | ResetPeripheral(delays: nat)

  /** `ranging_radio_wakeup`: after the wake-up pulse, waits in 20 us steps
      for the SPI-ready callback to set the flag, for at most 100 steps;
      restores the configuration if the flag is up, resets the radio
      otherwise.  `readyAfter` is the number of steps after which the flag
      is first seen set (`None` if it never is). */
  method Wakeup(readyAfter: Option<nat>) returns (r: WakeupOutcome)
    ensures r.Restored? <==> readyAfter.Some? && readyAfter.value <= WAKEUP_DELAYS
    ensures r.Restored? ==> r.delays == readyAfter.value
    ensures r.ResetPeripheral? ==> r.delays == WAKEUP_DELAYS
  {
    var i := 0;
    while !(readyAfter.Some? && readyAfter.value <= i) && i < WAKEUP_DELAYS
      invariant 0 <= i <= WAKEUP_DELAYS
      invariant readyAfter.Some? ==> i <= readyAfter.value
    {
      i := i + 1;
    }
    if !(readyAfter.Some? && readyAfter.value <= i) {
      r := ResetPeripheral(i);
    } else {
      r := Restored(i);
    }
  }

  // ---------------------------------------------------------------------------
  // ranging_radio_readrxtimestamp / ranging_radio_readtxtimestamp

  /** The radio writes the five timestamp bytes over the low bytes of a
      static 64-bit word; the high bytes keep whatever the word held, and
      no overflow correction is applied. */
  function RawTimestamp(previous: u64, radioBytes: seq<u8>): (r: u64)
    requires |radioBytes| == 5
    ensures r % TWO_40 == LeValue(radioBytes)
    ensures previous < TWO_40 ==> r == LeValue(radioBytes) && r < TWO_40
  {
    PowersOf256();
    (previous / TWO_40) * TWO_40 + LeValue(radioBytes)
  }
}
