# SociTrack ranging stack — a Dafny model

This project models the parts of the SociTrack UWB ranging stack that carry
logic worth proving. All the code is pure Dafny with contracts, and every
hardware answer is an explicit parameter.

- **Subscription phase** of the ranging task (`SubscriptionPhase`). This is
  the IEEE 802.15.4 header a node broadcasts to join a network. It also
  covers what the phase does when it begins, on TX done, on an RX error or
  timeout, and on a received packet, and when it hands off to the ranging
  phase.
- **DW1000 driver** of the SquarePoint module:
  - `Dw1000Clock`: the 40-bit timestamp accumulator and the delayed TX/RX time.
  - `Dw1000Radio`: the SPI retry-then-reset exchange, the stuck-interrupt
    guard, the interrupt mutex, sleep, reset, wake-up, channel and antenna
    selection, the antenna delay tables and the EUI cache.
  - `Dw1000Sort`: the insertion step used to sort ranges.
- **DW3000 port layer** of the newer firmware:
  - `Dw3000Registers`: little-endian register access, the `dwt_xfer3000`
    header composer, the SPI instruction packing and the SPI retry loop.
  - `Dw3000ChanCtrl`: the CHAN_CTRL register update.
  - `Dw3000Radio`: EUI-64 expansion, the signal-level range correction table,
    the channel change with its bounded PLL lock wait, antenna selection,
    wake-up and the raw timestamp read.
- **Application task** (`AppTask`):
  - the BLE discovery table;
  - the master/participant election when a network is found;
  - the BLE advertising/scanning reconciliation;
  - notifications and battery events.
- **SEGGER RTT** debug channel:
  - `RttRing`: the ring buffers, Write/Read in the three overflow modes,
    key input, buffer configuration and the virtual-terminal framing.
  - `RttFormat`: the decimal, hexadecimal and EUI text renderers.
- **Host-side tools**:
  - `RangingDecoder`: the Bluetooth ranging-packet decoder of the
    real-time RSSI analysis script, with an encoder as its partner.
  - `PowerChange`: the TX power patching script.

`Common` holds `Option`, fixed-width integer subtypes and the
little/big-endian byte conversions with their round trips.

Wrap-around is written out wherever the source relies on machine width:
- the 32-bit sums in the subscription timing;
- `uint32_t` register words as `bv32`;
- the `uint64_t` cast of the raw timestamp.

## Behaviour worth knowing

These facts of the code are easy to miss, and the model states each of
them.
- The DW3000 SPI transfers repeat until the HAL reports success, with no
  bound and no reset (`ranging.c:244` for reads, `ranging.c:270` for
  writes). `Dw3000Registers.RetryTransfer` models a finite prefix of
  outcomes and returns `None` if no attempt within it succeeds. The DW1000
  driver, by contrast, tries three times and then resets the module
  (`dw1000.c:483-545`).
- `dwt_xfer3000` spins forever on an unknown mode (`ranging.c:177`). This is
  the `Hang` outcome of `Dw3000Registers.Xfer3000`.
- A PLL that does not lock within `MAX_RETRIES_FOR_PLL` polls is not
  reported: the channel change goes on to program TX power and the RX LUT
  anyway (`ranging.c:554-567`; `Dw3000Radio.PollPllLock`,
  `Dw3000Radio.ChangeMade`).
- The DW3000 timestamp reads write five bytes over a static `uint64_t` and
  are not extended across wraps (`ranging.c:649-663`;
  `Dw3000Radio.RawTimestamp`). Only the DW1000 driver keeps an overflow
  accumulator (`dw1000.c:1003-1011`).
- On the DW1000 a failed wake-up returns failure and leaves the radio
  asleep (`dw1000.c:860-903`). The DW3000 variant instead resets the
  peripheral after 100 polls of 20 us (`ranging.c:621-641`).

## Model

| member | source | states |
|---|---|---|
| Common.LeValueOfLeBytes | software/firmware/src/peripherals/src/ranging.c:62-74 | serialising a value into n little-endian bytes and reading it back gives the value whenever it fits in n bytes |
| Common.LeBytesOfLeValue | software/firmware/src/peripherals/src/ranging.c:45-60 | reading a little-endian byte buffer and re-serialising it to the same width gives the same buffer |
| Common.BeBytesOfBeValue | software/firmware/src/peripherals/src/ranging.c:225-227 | a big-endian header value re-serialises to the original header bytes |
| Dw1000Clock.InitClock | software/squarepoint/firmware/dw1000.c:760-761 | initialisation yields a valid accumulator whose corrected time is zero |
| Dw1000Clock.Correct | software/squarepoint/firmware/dw1000.c:1003-1011 | the overflow grows by exactly one 2^40 period iff the raw value went down; the corrected value is congruent to the raw value and lies within one period above the previous corrected time |
| Dw1000Clock.ReadTimestamp | software/squarepoint/firmware/dw1000.c:1013-1037 | RX and TX reads interpret the five radio bytes little-endian and share one accumulator; the result is congruent to the raw reading |
| Dw1000Clock.DelayTicks | software/squarepoint/firmware/dw1000.c:1039-1047 | the delay register (bit 0 cleared, shifted by 8) names a 40-bit tick count that is a multiple of 512 |
| Dw1000Clock.SetDelayedTrxTime | software/squarepoint/firmware/dw1000.c:1039-1047 | the projected time is congruent to the delay ticks, 512-aligned, and within one period at or after the last corrected time |
| Dw1000Clock.ProjectionMatchesCorrection | software/squarepoint/firmware/dw1000.c:1039-1047 | the projected delayed time is exactly what the correction would report if the radio next returned those ticks |
| Dw1000Clock.CorrectAllMonotone | software/squarepoint/firmware/dw1000.c:1003-1011 | a sequence of corrected readings never decreases and never falls below the time already reached |
| Dw1000Clock.CorrectAllClosedForm | software/squarepoint/firmware/dw1000.c:1003-1011 | each corrected reading equals its raw value plus one period per descent seen so far (independent reference definition) |
| Dw1000Clock.CorrectAllCongruent | software/squarepoint/firmware/dw1000.c:1003-1011 | every corrected reading is congruent modulo 2^40 to its raw input |
| Dw1000Radio.AttemptTrace | software/squarepoint/firmware/dw1000.c:485-507 | the body transfer is issued iff the header transfer succeeded |
| Dw1000Radio.AttemptsTraceStep | software/squarepoint/firmware/dw1000.c:485-508 | the trace of k+1 attempts extends the trace of k attempts, and no single attempt resets the module |
| Dw1000Radio.SpiExchange | software/squarepoint/firmware/dw1000.c:483-545 | returns 0 iff one of the first three attempts completes, stops at the first one that does, and resets the module exactly when it returns -1 after three failures |
| Dw1000Radio.InterruptFired | software/squarepoint/firmware/dw1000.c:408-424 | the ISR runs while the pin stays asserted and at most the limit (at least once); the module is reset iff the pin stayed high through all limit calls |
| Dw1000Radio.MutexOn | software/squarepoint/firmware/dw1000.c:548-557 | returns 1 and masks the interrupt iff it was enabled, otherwise returns 0 and changes nothing |
| Dw1000Radio.MutexOff | software/squarepoint/firmware/dw1000.c:560-567 | a non-zero saved state re-enables the interrupt; zero leaves it as it is |
| Dw1000Radio.NestedMutexRestores | software/squarepoint/firmware/dw1000.c:548-567 | a nested on/on/off/off pair returns the interrupt state to what it was before the outer call |
| Dw1000Radio.RadioDisable | software/squarepoint/firmware/dw1000.c:672-683 | the radio counts as idle iff the status word read back, taken modulo 2^17, is at least 2^16 (bit 16, the IDLE state, is set); any other word is a failure |
| Dw1000Radio.Sleep | software/squarepoint/firmware/dw1000.c:823-847 | a sleeping radio stays as it is; an awake one goes to sleep iff it could be idled; the SPI speed is untouched |
| Dw1000Radio.ResetHard | software/squarepoint/firmware/dw1000.c:586-611 | a hard reset always leaves the radio awake; with re-initialisation the SPI is back on the slow prescaler (line 167) and the radio interrupt is enabled with the on/off flag at 1 (lines 200-201); without it the SPI speed and interrupt state are kept |
| Dw1000Radio.ResetUndoesSleep | software/squarepoint/firmware/dw1000.c:586-611 | resetting after a sleep gives the same power and interrupt state as resetting without it, with or without re-initialisation |
| Dw1000Radio.Wakeup | software/squarepoint/firmware/dw1000.c:860-903 | an awake radio is left alone; otherwise succeeds iff the radio reports ready within the poll budget, stops polling at the first ready, stays asleep on failure and ends on fast SPI |
| Dw1000Radio.ForceWakeup | software/squarepoint/firmware/dw1000.c:905-910 | clears the asleep flag first and so always polls; succeeds iff a ready is seen within the budget |
| Dw1000Radio.UpdateChannel | software/squarepoint/firmware/dw1000.c:913-941 | the do-not-change flag or the current channel change nothing; any other channel loads that channel's PG delay and TX power, and consistency with the tables is preserved |
| Dw1000Radio.UpdateChannelIdempotent | software/squarepoint/firmware/dw1000.c:913-941 | applying the same channel request twice equals applying it once |
| Dw1000Radio.ChooseAntenna | software/squarepoint/firmware/dw1000.c:614-639 | a valid antenna index drives the pins so that exactly that antenna is selected; the flag or an out-of-range index leaves the pins alone |
| Dw1000Radio.CalibratedDelay | software/squarepoint/firmware/dw1000.c:711-727 | the delay is the table entry for both indices taken modulo 3, scaled by the unit and divided by 100 with truncation |
| Dw1000Radio.CalibratedDelayPeriodic | software/squarepoint/firmware/dw1000.c:711-727 | indices congruent modulo 3 give the same delay |
| Dw1000Radio.ReadEui | software/squarepoint/firmware/dw1000.c:642-661 | a cache with any non-zero byte is returned as it is; an all-zero cache is filled from flash; the cache afterwards equals the returned EUI |
| Dw1000Radio.ReadEuiTwice | software/squarepoint/firmware/dw1000.c:642-661 | two successive reads return the same EUI |
| Dw1000Sort.InsertPosition | software/squarepoint/firmware/dw1000.c:985-1000 | the element goes after every element it is not smaller than, before the first larger one |
| Dw1000Sort.FirstLargerIsPosition | software/squarepoint/firmware/dw1000.c:985-1000 | any position with that property is the one the insertion picks |
| Dw1000Sort.InsertSorted | software/squarepoint/firmware/dw1000.c:985-1000 | the in-place shifting loop produces the functional insertion |
| Dw1000Sort.ShiftIn | software/squarepoint/firmware/dw1000.c:990-999 | shifting the tail right by one slot and storing the element places it at the position, keeping everything past the end |
| Dw1000Sort.InsertedSorted | software/squarepoint/firmware/dw1000.c:985-1000 | inserting into a sorted prefix leaves a sorted prefix one longer |
| Dw1000Sort.InsertedPermutation | software/squarepoint/firmware/dw1000.c:985-1000 | the new prefix is a permutation of the old prefix plus the inserted element |
| Dw3000ChanCtrl.PlaceField | software/firmware/src/peripherals/src/ranging.c:521 | a shifted configuration value never spills outside its field mask, and inside the mask the field holds the value shifted to its offset |
| Dw3000ChanCtrl.PlaceCodes | software/firmware/src/peripherals/src/ranging.c:521-523 | the RX code, TX code and SFD type, each placed in its field, together stay inside the three code fields |
| Dw3000ChanCtrl.PlacedCodesHold | software/firmware/src/peripherals/src/ranging.c:521-523 | with disjoint code fields, each field of the combined codes holds its own value and the other two values never reach it |
| Dw3000ChanCtrl.ChanCtrlUpdate | software/firmware/src/peripherals/src/ranging.c:516-525 | the written word equals the placed RX code, TX code and SFD type on the three code fields, has the RF channel bit set iff the channel is 9, and agrees with the word read back on every bit outside the four fields |
| Dw3000ChanCtrl.MaskedUpdate | software/firmware/src/peripherals/src/ranging.c:517-523 | clearing the four fields, setting the channel bit only when asked and OR-ing in codes confined to the code fields gives a word equal to those codes on the code fields, with the channel bit set or cleared as asked and every outside bit preserved |
| Dw3000ChanCtrl.ProgrammedHoldsCodes | software/firmware/src/peripherals/src/ranging.c:516-525 | in every programmed CHAN_CTRL word the RX code, TX code and SFD type fields hold the configuration's values, shifted to their offsets and cut to the field widths |
| Dw3000ChanCtrl.FieldReadsBack | software/firmware/src/peripherals/src/ranging.c:521-523 | a field whose mask starts at its offset reads back (masked and shifted down) as the written value cut to the field width |
| Dw3000ChanCtrl.ProgrammedShowsChannel | software/firmware/src/peripherals/src/ranging.c:519 | in any programmed word the channel can be read back: the RF bit is non-zero iff the channel is 9 |
| Dw3000Radio.Eui64 | software/firmware/src/peripherals/src/ranging.c:307-309 | the 8-byte EUI is the first three UID bytes, then 0xFE at index 3 and 0xFF at index 4, then the last three UID bytes; the UID can be recovered from it |
| Dw3000Radio.Eui64OfUid | software/firmware/src/peripherals/src/ranging.c:307-309 | every expanded EUI is rebuilt exactly from the UID it contains |
| Dw3000Radio.CorrectionMillimetres | software/firmware/src/peripherals/src/ranging.c:675-735 | the correction lies between -110 and +81 mm for every inverted signal level |
| Dw3000Radio.CorrectionMatchesBuckets | software/firmware/src/peripherals/src/ranging.c:675-735 | the switch agrees with an independent bucket table indexed by (level - 61) / 2, clamped at both ends |
| Dw3000Radio.CorrectionMonotone | software/firmware/src/peripherals/src/ranging.c:675-735 | weaker signals never receive a smaller correction |
| Dw3000Radio.CorrectionPairsAndClamps | software/firmware/src/peripherals/src/ranging.c:675-735 | levels come in pairs, values below 61 and above 94 clamp to the end entries, and the correction is zero exactly at 77 and 78 |
| Dw3000Radio.PollPllLock | software/firmware/src/peripherals/src/ranging.c:554-562 | the lock is reported iff a lock bit appears within the retry budget; polling stops at the first one and exhausts the budget otherwise |
| Dw3000Radio.ProgramChannel | software/firmware/src/peripherals/src/ranging.c:513-567 | a channel change writes a CHAN_CTRL word whose code fields hold the configuration's RX code, TX code and SFD type, whose RF bit is set iff the channel is 9 and whose other bits are kept; then the analog set-up and TX config for that channel, the bounded PLL wait and the RX LUT |
| Dw3000Radio.ChooseChannel | software/firmware/src/peripherals/src/ranging.c:507-569 | the radio is reprogrammed iff the request is neither the flag nor the current channel, and afterwards the same request is no longer a change |
| Dw3000Radio.ChooseChannelTwice | software/firmware/src/peripherals/src/ranging.c:510 | repeating a channel request reprograms nothing |
| Dw3000Radio.ChooseAntenna | software/firmware/src/peripherals/src/ranging.c:571-593 | on boards before revision L a valid index selects exactly that antenna; otherwise the pins are untouched |
| Dw3000Radio.ChooseAntennaInverse | software/firmware/src/peripherals/src/ranging.c:571-593 | choosing the antenna that a pin state selects reproduces that pin state |
| Dw3000Radio.Wakeup | software/firmware/src/peripherals/src/ranging.c:621-641 | the state is restored iff the radio becomes ready within the delay budget; otherwise the peripheral is reset after the budget runs out |
| Dw3000Radio.RawTimestamp | software/firmware/src/peripherals/src/ranging.c:649-663 | the five bytes written over the low end of the previous value give the reading modulo 2^40, and exactly the reading when the previous value fit in 40 bits |
| Dw3000Registers.Read32 | software/firmware/src/peripherals/src/ranging.c:45-60 | the register value is the four bytes read little-endian |
| Dw3000Registers.Write32 | software/firmware/src/peripherals/src/ranging.c:62-74 | the buffer is the value's four little-endian bytes |
| Dw3000Registers.Write32ThenRead32 | software/firmware/src/peripherals/src/ranging.c:45-74 | reading back a written 32-bit buffer gives the written value |
| Dw3000Registers.Write16 | software/firmware/src/peripherals/src/ranging.c:76-84 | the two-byte buffer reads back little-endian as the value |
| Dw3000Registers.Write8 | software/firmware/src/peripherals/src/ranging.c:95-98 | the one-byte buffer reads back as the value |
| Dw3000Registers.Read8 | software/firmware/src/peripherals/src/ranging.c:86-93 | the result is the single byte read |
| Dw3000Registers.RegFile | software/firmware/src/peripherals/src/ranging.c:125 | the register file number fits in five bits |
| Dw3000Registers.RegOffset | software/firmware/src/peripherals/src/ranging.c:126 | the offset within the file fits in seven bits |
| Dw3000Registers.Xfer3000 | software/firmware/src/peripherals/src/ranging.c:113-181 | write modes go to the write path, RD to the read path, anything else hangs; the header is one byte iff it is a fast command or an offset-0 plain access, else two |
| Dw3000Registers.DeviceAccessDispatch | software/firmware/src/peripherals/src/ranging.c:23-43 | device reads and writes always reach the read and write paths, never the hang |
| Dw3000Registers.HeaderAddressesRegister | software/firmware/src/peripherals/src/ranging.c:130-158 | the register file and offset can be decoded back from the header bits |
| Dw3000Registers.PackInstruction | software/firmware/src/peripherals/src/ranging.c:225-227 | the header bytes become the instruction word most-significant first, and that word re-serialises to the header |
| Dw3000Registers.LeValueOfReverse | software/firmware/src/peripherals/src/ranging.c:252-253 | reversing the bytes turns the little-endian value into the big-endian one, which is the instruction packing |
| Dw3000Registers.RetryTransfer | software/firmware/src/peripherals/src/ranging.c:243-245 | the transfer finishes at the first successful attempt and never finishes if no attempt succeeds |
| AppTask.Discover | software/firmware/src/tasks/app_task_ranging.c:110-129 | the first discovery of a round restarts the table with that device and clears the scan timer; later ones append an unseen device while there is room and otherwise change nothing |
| AppTask.DiscoverPreservesWellFormed | software/firmware/src/tasks/app_task_ranging.c:110-129 | the table stays within capacity with distinct addresses of the EUI length, and existing entries keep their order |
| AppTask.DiscoverIdempotent | software/firmware/src/tasks/app_task_ranging.c:121-125 | rediscovering the same address changes nothing, whatever role it now reports |
| AppTask.ElectScan | software/firmware/src/tasks/app_task_ranging.c:53-79 | the scan over the table makes the same decision as the reference election |
| AppTask.NetworkFound | software/firmware/src/tasks/app_task_ranging.c:50-85 | if anyone ranges this node joins as participant; it becomes master only when no awake device has a larger short id; the round is closed |
| AppTask.ElectionThenFreshRound | software/firmware/src/tasks/app_task_ranging.c:83 | after an election the next discovery starts a new table holding only that device |
| AppTask.VerifyConfiguration | software/firmware/src/tasks/app_task_ranging.c:28-43 | advertising is on afterwards; scanning is on iff not ranging; each start or stop is issued only when the state differs |
| AppTask.VerifyConfigurationIdempotent | software/firmware/src/tasks/app_task_ranging.c:28-43 | a second verification issues no action and changes nothing |
| AppTask.Notify | software/firmware/src/tasks/app_task_ranging.c:148-162 | with a task the notification is added and nothing else; without one nothing changes |
| AppTask.NotifyIdempotent | software/firmware/src/tasks/app_task_ranging.c:148-162 | notifying twice equals notifying once |
| AppTask.BatteryEventHandler | software/firmware/src/tasks/app_task_ranging.c:96-102 | every event is recorded; a battery notification is raised only for plug or unplug events and only when the task exists |
| SubscriptionPhase.Initialize | software/firmware/src/tasks/ranging/subscription_phase.c:19-26 | the request is a broadcast data frame on the module PAN from this node's address prefix, with the subscription type |
| SubscriptionPhase.FrameControlRoundTrip | software/firmware/src/tasks/ranging/subscription_phase.c:22 | decoding an encoded frame control field gives back every sub-field |
| SubscriptionPhase.SubscriptionFrameControlBytes | software/firmware/src/tasks/ranging/subscription_phase.c:22 | the subscription frame control (data frame, PAN-ID compression, short destination and source addresses, frame version 0, i.e. the IEEE 802.15.4-2003 format) is the octets 0x41 0x88 |
| SubscriptionPhase.ClearBit0 | software/firmware/src/tasks/ranging/subscription_phase.c:42 | clearing bit 0 gives an even value at most one below the input |
| SubscriptionPhase.RequestDelay | software/firmware/src/tasks/ranging/subscription_phase.c:42 | the delayed TX register value is the even 256-tick step whose 512-tick window holds, on the 40-bit device clock, the early-start margin plus the random offset (taken modulo SUBSCRIPTION_TIMEOUT_US - 100) converted to ticks, less the antenna delay |
| SubscriptionPhase.DeviceTicks | software/firmware/src/tasks/ranging/subscription_phase.c:42 | a tick count cast to `uint64_t`, shifted right by 8 and cast to `uint32_t` is the 256-tick step that holds the count modulo 2^40 |
| SubscriptionPhase.RangingStart | software/firmware/src/tasks/ranging/subscription_phase.c:61 | the ranging start handed over is the even 256-tick step whose 512-tick window holds the reference time plus one broadcast period, modulo 2^40 |
| SubscriptionPhase.HandOff | software/firmware/src/tasks/ranging/subscription_phase.c:59-61 | the hand-off moves the phase to ranging, returns what the ranging phase returns, and issues exactly one ranging start, for the node's slot and the schedule length, at the start time `RangingStart` describes |
| SubscriptionPhase.Begin | software/firmware/src/tasks/ranging/subscription_phase.c:28-62 | records slot, size and reference time; the unscheduled slot transmits after a random delay, slot 0 listens for the window, anything else hands off; it stays in subscription iff that radio call succeeded |
| SubscriptionPhase.TxComplete | software/firmware/src/tasks/ranging/subscription_phase.c:64-71 | outside subscription the ranging handler runs; in subscription the phase hands off |
| SubscriptionPhase.RxError | software/firmware/src/tasks/ranging/subscription_phase.c:87-108 | the receiver is re-armed for the remaining window only when enough time is left, and the phase hands off when it is not or the re-arm fails |
| SubscriptionPhase.RxComplete | software/firmware/src/tasks/ranging/subscription_phase.c:73-85 | a subscription packet adds its sender and then behaves like an RX error; any other packet reports a collision |
| SubscriptionPhase.TxCompleteInvariants | software/firmware/src/tasks/ranging/subscription_phase.c:64-71 | TX done keeps slot, length and reference time, only moves subscription to ranging, and adds no device |
| SubscriptionPhase.RxErrorInvariants | software/firmware/src/tasks/ranging/subscription_phase.c:87-108 | an RX error keeps the schedule, starts ranging only at the agreed time, and adds no device |
| SubscriptionPhase.RxCompleteInvariants | software/firmware/src/tasks/ranging/subscription_phase.c:73-85 | a reception keeps the schedule and adds exactly one device iff it is a subscription packet during the subscription phase |
| SubscriptionPhase.HandleInvariants | software/firmware/src/tasks/ranging/subscription_phase.c:64-108 | every event keeps the schedule, every ranging start uses the agreed slot and time, and only subscription packets add devices |
| RttRing.Free | software/squarepoint/peripherals/SEGGER_RTT.c:316-321 | the free space is always less than the buffer size, so one slot stays empty |
| RttRing.FreeIsModular | software/squarepoint/peripherals/SEGGER_RTT.c:316-321 | the two-branch free-space computation equals (RdOff - WrOff - 1) mod size |
| RttRing.Used | software/squarepoint/peripherals/SEGGER_RTT.c:100-102 | used plus free is size minus one, and the buffer is empty iff the offsets are equal |
| RttRing.PutByteAppends | software/squarepoint/peripherals/SEGGER_RTT.c:358-366 | storing one byte appends it to the unread contents |
| RttRing.WriteBytesAppends | software/squarepoint/peripherals/SEGGER_RTT.c:349-370 | writing bytes that fit appends exactly them to the unread contents |
| RttRing.WriteBytesConcat | software/squarepoint/peripherals/SEGGER_RTT.c:349-370 | writing a + b equals writing a then b |
| RttRing.ChunkIsBytewise | software/squarepoint/peripherals/SEGGER_RTT.c:356-366 | a contiguous memcpy chunk has the same effect as storing its bytes one by one |
| RttRing.WriteCount | software/squarepoint/peripherals/SEGGER_RTT.c:325-336 | skip mode writes all or nothing, trim mode writes as much as fits, block mode writes everything |
| RttRing.ChunkLen | software/squarepoint/peripherals/SEGGER_RTT.c:352-357 | a chunk is non-empty, stays before the buffer end, and is cut by the remaining bytes, the free space or the end |
| RttRing.CopyLoop | software/squarepoint/peripherals/SEGGER_RTT.c:349-370 | the chunked copy loop writes exactly the requested prefix |
| RttRing.Write | software/squarepoint/peripherals/SEGGER_RTT.c:299-371 | the unread contents grow by the written prefix, whose length the mode decides; a blocking write that does not fit is marked incomplete; the reader's offset is never touched |
| RttRing.ReadPartsCorrect | software/squarepoint/peripherals/SEGGER_RTT.c:239-277 | the one or two copies of a read deliver the oldest unread bytes, up to the caller's buffer size |
| RttRing.ReadAcrossEnd | software/squarepoint/peripherals/SEGGER_RTT.c:245-272 | when the data wraps, the copy to the end followed by the copy from the start is the unread prefix |
| RttRing.AdvanceConsumes | software/squarepoint/peripherals/SEGGER_RTT.c:271-276 | advancing RdOff by n drops exactly the first n unread bytes |
| RttRing.Read | software/squarepoint/peripherals/SEGGER_RTT.c:230-278 | returns the first min(unread, size) bytes in FIFO order and leaves the rest unread |
| RttRing.HasKey | software/squarepoint/peripherals/SEGGER_RTT.c:761-772 | reports 1 iff down-buffer 0 holds unread input |
| RttRing.GetKey | software/squarepoint/peripherals/SEGGER_RTT.c:708-719 | returns -1 and changes nothing iff no key is waiting; otherwise returns the oldest byte and consumes exactly it |
| RttRing.ConfigUpBuffer | software/squarepoint/peripherals/SEGGER_RTT.c:787-806 | an out-of-range index fails with -1; index 0 only changes the mode; any other index installs a fresh empty buffer; other buffers are untouched |
| RttRing.ConfigDownBuffer | software/squarepoint/peripherals/SEGGER_RTT.c:821-840 | the same contract for the down buffers |
| RttRing.StrLen | software/squarepoint/peripherals/SEGGER_RTT.c:168-187 | the length is the position of the first NUL, and 0 for a null pointer |
| RttRing.WriteString | software/squarepoint/peripherals/SEGGER_RTT.c:685-691 | writes the text before the terminating NUL, with the same mode rules as Write |
| RttRing.TerminalChar | software/squarepoint/peripherals/SEGGER_RTT.c:864-883 | the terminal digit '0'..'9', 'A'..'F' decodes back to the terminal number |
| RttRing.SetTerminal | software/squarepoint/peripherals/SEGGER_RTT.c:864-883 | a valid terminal becomes active and its marker is appended when there is room; an invalid one changes nothing |
| RttRing.RestoreMarkerAsWritten | software/squarepoint/peripherals/SEGGER_RTT.c:914-921 | the restore marker is correct only when the target and active terminals are both below 10 or both at least 10 |
| RttRing.RestoreMarkerAsWrittenLosesTerminal | software/squarepoint/peripherals/SEGGER_RTT.c:914-921 | writing to terminal 3 while 12 is active (or the reverse) emits a byte that names no terminal |
| RttRing.RestoreMarker | software/squarepoint/peripherals/SEGGER_RTT.c:914-921 | the corrected restore marker always names the active terminal |
| RttRing.TerminalOut | software/squarepoint/peripherals/SEGGER_RTT.c:894-924 | corrected (see Findings): an invalid terminal fails with -1; otherwise, with room, the output is the target marker, the text, then the active terminal's marker, and the active terminal is unchanged |
| RttRing.WriteFramed | software/squarepoint/peripherals/SEGGER_RTT.c:912-922 | the three writes append marker, text and restore marker in that order |
| RttFormat.Decimal | software/squarepoint/peripherals/SEGGER_RTT.c:446-493 | the decimal text is canonical (no leading zero) and parses back to the number |
| RttFormat.DecimalOfParse | software/squarepoint/peripherals/SEGGER_RTT.c:446-493 | every canonical decimal text is the rendering of its own value |
| RttFormat.UnsignedText | software/squarepoint/peripherals/SEGGER_RTT.c:458-490 | the digit-counting and digit-filling loops produce the decimal text |
| RttFormat.FillDigits | software/squarepoint/peripherals/SEGGER_RTT.c:477-487 | filling the buffer right to left yields the digits most significant first |
| RttFormat.DebugMsgUint | software/squarepoint/peripherals/SEGGER_RTT.c:446-493 | a 32-bit value is printed as canonical decimal of at most 10 characters that parses back to it |
| RttFormat.DebugMsgUint64 | software/squarepoint/peripherals/SEGGER_RTT.c:495-538 | a 64-bit value is printed as canonical decimal of at most 20 characters that parses back to it |
| RttFormat.DebugMsgIntAsWritten | software/squarepoint/peripherals/SEGGER_RTT.c:387-444 | the code as written agrees with the corrected rendering on every value but INT32_MIN |
| RttFormat.DebugMsgIntMinLosesDigits | software/squarepoint/peripherals/SEGGER_RTT.c:399-425 | INT32_MIN prints as a lone "-", which is not a number |
| RttFormat.DebugMsgInt | software/squarepoint/peripherals/SEGGER_RTT.c:387-444 | corrected (see Findings): every 32-bit signed value prints as a signed decimal of at most 11 characters that parses back to it |
| RttFormat.DebugMsgHex | software/squarepoint/peripherals/SEGGER_RTT.c:608-620 | a nibble prints as one hex digit |
| RttFormat.DebugMsgHexInverse | software/squarepoint/peripherals/SEGGER_RTT.c:608-620 | the printed hex digit decodes back to the nibble |
| RttFormat.PairRoundTrip | software/squarepoint/peripherals/SEGGER_RTT.c:622-641 | a byte's two hex digits decode back to the byte |
| RttFormat.HexRoundTrip | software/squarepoint/peripherals/SEGGER_RTT.c:622-641 | a hex-rendered byte string decodes back to the bytes |
| RttFormat.DebugMsgEui | software/squarepoint/peripherals/SEGGER_RTT.c:622-641 | the buffer is "0x" followed by the bytes in reverse order, two hex digits each |
| RttFormat.EuiRoundTrip | software/squarepoint/peripherals/SEGGER_RTT.c:622-641 | the short EUI text decodes back to the original bytes |
| RttFormat.JoinedRoundTrip | software/squarepoint/peripherals/SEGGER_RTT.c:643-662 | colon-separated hex pairs decode back to the bytes |
| RttFormat.DebugMsgEuiFull | software/squarepoint/peripherals/SEGGER_RTT.c:643-662 | the buffer is the eight bytes, most significant first, as colon-separated hex pairs |
| RttFormat.EuiFullRoundTrip | software/squarepoint/peripherals/SEGGER_RTT.c:643-662 | the full EUI text decodes back to the original eight bytes |
| RangingDecoder.U32At | software/analysis/tottagRealtimeRangingRSSI.py:39 | a field is read exactly when its four bytes are present, as an unsigned little-endian value below 2^32 |
| RangingDecoder.StoreEntries | software/analysis/tottagRealtimeRangingRSSI.py:42-46 | only the last entry of the packet is kept for the device, with the sender, timestamp, host time and entry count |
| RangingDecoder.Receive | software/analysis/tottagRealtimeRangingRSSI.py:35-61 | an empty packet is an index error; a short range packet is a struct error and a complete one stores its last range; an RSSI packet is ignored while nothing is stored or it is shorter than 121 bytes, is a key error for a device never heard from, a struct error unless that device's last packet held exactly one range, and otherwise writes that device's record; any other id is rejected |
| RangingDecoder.DecodeEncodedRanges | software/analysis/tottagRealtimeRangingRSSI.py:37-47 | decoding an encoded range packet stores its last range with the right sender, timestamp and count |
| RangingDecoder.EncodedLastEntry | software/analysis/tottagRealtimeRangingRSSI.py:42-43 | the last entry read from an encoded packet is the last range encoded |
| RangingDecoder.EncodedTimestamp | software/analysis/tottagRealtimeRangingRSSI.py:39 | the timestamp read after the entries is the one encoded |
| PowerChange.PromptAsWritten | software/power_change.py:6-16 | the loop returns the first integer entered, in range or not |
| PowerChange.Prompt | software/power_change.py:6-16 | the corrected loop returns the first integer within -5..20 and nothing out of range |
| PowerChange.PromptAgreesInRange | software/power_change.py:6-16 | whenever the as-written loop returns an in-range value, the corrected loop returns the same |
| PowerChange.OrDisjoint | software/power_change.py:21 | OR-ing a value below 2^k into a multiple of 2^k is addition |
| PowerChange.InRangeKeepsCoarseGain | software/power_change.py:18-21 | for an in-range change the coarse gain bits stay the stock ones and the fine gain moves by exactly the change |
| PowerChange.ZeroChangeIsStock | software/power_change.py:18-21 | a zero change reproduces the stock power byte |
| PowerChange.HexValueOfDigits | software/power_change.py:29 | the upper-case hex digits parse back to the number |
| PowerChange.WordOfByte | software/power_change.py:28-32 | the power word repeats the byte in all four positions |
| PowerChange.ReplaceLine | software/power_change.py:35-41 | only the TX power line is replaced, and only when the file is long enough |
| PowerChange.RunAsWritten | software/power_change.py:6-41 | the script as written produces a file exactly when an integer was entered and the file has the TX power line; the file keeps its length, every other line is unchanged, and that line carries the words for whatever integer was entered, in range or not |
| PowerChange.Run | software/power_change.py:6-41 | the corrected script writes only for an in-range change and a file that has the TX power line; the file keeps its length, every other line is unchanged, and the new line carries that change's words |
| PowerChange.RunWritesPowerWords | software/power_change.py:18-32 | every written word keeps the stock coarse gain, shifts the fine gain by the change, and holds the byte four times |
| PowerChange.ZeroChangeMatchesDriver | software/power_change.py:1-2 | with a zero change the words equal the driver's stock TX power table |
| PowerChange.OutOfRangeCorruptsCoarseGain | software/power_change.py:14-16 | entering 30 is accepted as written, rejected when corrected, and would give 0xA3, whose coarse gain differs from the stock one |

## Left out

- Floating point: the RSSI computations of the analysis script, the metre-to-millimetre conversions, `dwtime_to_millimeters`, `debug_msg_double` and preamble durations. Dafny has no IEEE floats.
- Dw3000Radio.CorrectionMillimetres: gives the table in millimetres rather than as the `uint64_t` cast of a float expression. The cast of a negative float at ranging.c:682 and after it is undefined in C, so no tick value is claimed.
- Host I/O: the BLE/asyncio transport, `input()`, `print` output and file reading and writing of the host scripts. These become parameters (the input lines, the file lines) or are dropped.
- Concurrency: the host moving RdOff while the target writes, interrupts and FreeRTOS scheduling.
- RttRing.Write: the BLOCK_IF_FIFO_FULL wait for the host is modelled as an incomplete write (`completes == false`) that stops once the free space is used, not as spinning.
- RttRing.Write: requires fewer than 2^31 bytes, because the source casts the length to `int`.
- Vendor `dwt_*` internals: PLL tables, `dwt_configuretxrf`, `dwt_configmrxlut` and the TX/RX channel fields that `dw1000_update_channel` hands to the vendor driver. Only the values the model itself computes are stated.
- The MAXIMIZE_TX_POWER build variant of the DW1000 power table.
- GPIO, DMA and fast/slow SPI clock plumbing, except the SPI speed flag that sleep and wake-up manipulate.
- `rand()`: the random delay is an input.
- The rest of `handle_notification` (battery shutdown, the buzzer loop), the motion handler and the timer ISR.
- RttRing.Read: the caller's buffer size is an unbounded natural. The source compares the unread count against `(int)BufferSize`, which turns a size of 2^31 or more negative; that case is not modelled.
- RttRing.TerminalOut: `char TerminalId` is modelled as an unsigned byte. A platform with signed `char` would also reject negative ids through the `< 10` branch, and that is not modelled.
- Dw1000Clock.Correct: uses unbounded integers, so the 64-bit wrap of the accumulator (after about 17 years of ticks) is not modelled.
- SubscriptionPhase.ElapsedUs: has no contract of its own. It is the 32-bit wrapped difference used inside `RxError`, whose contract states the re-arm decision.
- Dw1000Radio.InterruptFired: requires the reset limit to be below 256. The counter is a `uint8_t` (`dw1000.c:411`), so with a limit of 256 or more `++count < limit` would always hold, the loop would run for as long as the pin stays high, and the reset would never happen; the header that defines the limit is not part of this model, so the wrap case is excluded rather than stated.
- RttFormat.DebugMsgInt: the two `WriteString` calls for the sign and the digits are modelled as one string.

## Findings

| source | as written | input that shows it | evidently intended | confidence | as-written member | corrected member |
|---|---|---|---|---|---|---|
| software/squarepoint/peripherals/SEGGER_RTT.c:914-921 | the restore marker chooses its branch by `TerminalId` but encodes `_ActiveTerminal` | TerminalOut to terminal 3 while terminal 12 is active ends with 0xFF '<' | choose the branch by `_ActiveTerminal`, so the marker always names the active terminal | not executed | RttRing.RestoreMarkerAsWrittenLosesTerminal | RttRing.RestoreMarker |
| software/squarepoint/peripherals/SEGGER_RTT.c:399-425 | a negative value is negated with `~i + 1`; for INT32_MIN the `+ 1` overflows `int` (undefined behaviour in C), and with the usual two's-complement wrap the value stays negative, so no digits follow the sign | debug_msg_int(-2147483648) prints "-" | print "-2147483648" | not executed | RttFormat.DebugMsgIntMinLosesDigits | RttFormat.DebugMsgInt |
| software/power_change.py:14-16 | the range message is printed but the loop breaks on any integer | entering 30 gives power byte 0xA3, which overwrites the coarse gain bits | keep prompting until the change is within -5..20 | not executed | PowerChange.OutOfRangeCorruptsCoarseGain | PowerChange.Prompt |
