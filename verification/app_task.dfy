/** The TotTag application task's network logic
    (software/firmware/src/tasks/app_task_ranging.c): the table of devices
    discovered over BLE, the role election run when the scanning timer
    fires, the advertising/scanning reconciliation, and the task
    notification helpers.  BLE, storage and the RTOS are oracles or left out. */
module AppTask {
  import opened Common

  /** The ranging role a device advertises; any other byte is `OtherRole`. */
  datatype Role = Master | Participant | Idle | Asleep | OtherRole

  /** One row of `discovered_devices`: the BLE address and the advertised role. */
  datatype Entry = Entry(addr: seq<u8>, role: Role)

  /** `devices_found` and the first `num_discovered_devices` rows.  The rows
      survive the flag being cleared, as the array does. */
  datatype Table = Table(found: bool, entries: seq<Entry>)

  /** At most `capacity` rows, all addresses of `euiLen` bytes and pairwise distinct. */
  ghost predicate WellFormed(t: Table, capacity: nat, euiLen: nat) {
    |t.entries| <= capacity &&
    (forall i :: 0 <= i < |t.entries| ==> |t.entries[i].addr| == euiLen) &&
    (forall i, j :: 0 <= i < j < |t.entries| ==> t.entries[i].addr != t.entries[j].addr)
  }

  predicate Known(entries: seq<Entry>, addr: seq<u8>) {
    exists i :: 0 <= i < |entries| && entries[i].addr == addr
  }

  /** `ble_discovery_handler`.  The second component says whether the BLE
      scanning timer was cleared (first discovery of a round). */
  function Discover(t: Table, addr: seq<u8>, role: Role, capacity: nat): (r: (Table, bool))
    ensures !t.found ==> r == (Table(true, [Entry(addr, role)]), true)
    ensures t.found ==> !r.1 && r.0.found
    ensures t.found && (|t.entries| >= capacity || Known(t.entries, addr)) ==> r.0 == t
    ensures t.found && |t.entries| < capacity && !Known(t.entries, addr) ==>
              r.0.entries == t.entries + [Entry(addr, role)]
  {
    if !t.found then (Table(true, [Entry(addr, role)]), true)
    else if |t.entries| < capacity then
      if Known(t.entries, addr) then (t, false)
      else (Table(true, t.entries + [Entry(addr, role)]), false)
    else (t, false)
  }

  /** Discovery keeps the table within capacity and free of duplicate
      addresses, and never changes an earlier row of the same round. */
  lemma DiscoverPreservesWellFormed(t: Table, addr: seq<u8>, role: Role, capacity: nat, euiLen: nat)
    requires WellFormed(t, capacity, euiLen) && capacity >= 1 && |addr| == euiLen
    ensures WellFormed(Discover(t, addr, role, capacity).0, capacity, euiLen)
    ensures var e := Discover(t, addr, role, capacity).0.entries;
            t.found ==> |t.entries| <= |e| <= |t.entries| + 1 && e[..|t.entries|] == t.entries
  {
  }

  /** Re-discovering an address already in this round's table, or any device
      once the table is full, changes nothing. */
  lemma DiscoverIdempotent(t: Table, addr: seq<u8>, role: Role, role2: Role, capacity: nat)
    requires capacity >= 1
    ensures var t1 := Discover(t, addr, role, capacity).0;
            Discover(t1, addr, role2, capacity).0 == t1
  {
    var t1 := Discover(t, addr, role, capacity).0;
    if t1 != t && |t1.entries| < capacity {
      assert t1.entries[|t1.entries| - 1].addr == addr;
    }
  }

  // ---------------------------------------------------------------------------
  // Role election on NETWORK_FOUND

  datatype Decision = BeginAsParticipant | BeginAsMaster | NoRanging

  predicate IsRanging(r: Role) { r == Master || r == Participant }

  /** Reference definition of the election: join as a participant if anyone
      ranges already; otherwise, if some device is idle, join as participant
      when an awake device has a larger short id than ours and become master
      when none has; with neither, do not start ranging. */
  function Elect(entries: seq<Entry>, ownId: u8): Decision
    requires forall i :: 0 <= i < |entries| ==> |entries[i].addr| >= 1
  {
    if exists i :: 0 <= i < |entries| && IsRanging(entries[i].role) then BeginAsParticipant
    else if exists i :: 0 <= i < |entries| && entries[i].role == Idle then
      if exists i :: 0 <= i < |entries| && entries[i].role != Asleep && entries[i].addr[0] > ownId
      then BeginAsParticipant
      else BeginAsMaster
    else NoRanging
  }

  /** The two scans of `handle_notification` as the firmware runs them: the
      first stops at the first ranging device, the second keeps the highest
      awake id above our own. */
  method ElectScan(entries: seq<Entry>, ownId: u8) returns (d: Decision)
    requires forall i :: 0 <= i < |entries| ==> |entries[i].addr| >= 1
    ensures d == Elect(entries, ownId)
  {
    var rangingLocated, idleLocated := false, false;
    var i := 0;
    while !rangingLocated && i < |entries|
      invariant 0 <= i <= |entries|
      invariant rangingLocated <==> exists k :: 0 <= k < i && IsRanging(entries[k].role)
      invariant !rangingLocated ==> (idleLocated <==> exists k :: 0 <= k < i && entries[k].role == Idle)
    {
      if IsRanging(entries[i].role) {
        rangingLocated := true;
      } else if entries[i].role == Idle {
        idleLocated := true;
      }
      i := i + 1;
    }
    if rangingLocated {
      return BeginAsParticipant;
    }
    if !idleLocated {
      return NoRanging;
    }
    var bestIdx := -1;
    var highest := ownId;
    i := 0;
    while i < |entries|
      invariant 0 <= i <= |entries|
      invariant ownId <= highest
      invariant bestIdx >= 0 <==> exists k :: 0 <= k < i && entries[k].role != Asleep && entries[k].addr[0] > ownId
      invariant bestIdx < 0 ==> highest == ownId
    {
      if entries[i].role != Asleep && entries[i].addr[0] > highest {
        bestIdx := i;
        highest := entries[i].addr[0];
      }
      i := i + 1;
    }
    d := if bestIdx >= 0 then BeginAsParticipant else BeginAsMaster;
  }

  /** The NETWORK_FOUND branch: the decision is taken from the table and the
      round is closed (`devices_found` cleared, rows kept). */
  method NetworkFound(t: Table, ownId: u8) returns (t': Table, d: Decision)
    requires forall i :: 0 <= i < |t.entries| ==> |t.entries[i].addr| >= 1
    ensures t' == t.(found := false)
    ensures d == Elect(t.entries, ownId)
    ensures (exists i :: 0 <= i < |t.entries| && IsRanging(t.entries[i].role)) ==> d == BeginAsParticipant
    ensures d == BeginAsMaster ==> forall i :: 0 <= i < |t.entries| && t.entries[i].role != Asleep ==>
                                     t.entries[i].addr[0] <= ownId
  {
    d := ElectScan(t.entries, ownId);
    t' := t.(found := false);
  }

  /** After an election the next discovery starts a fresh table holding only
      the new device, whatever the previous round left behind. */
  lemma ElectionThenFreshRound(t: Table, addr: seq<u8>, role: Role, capacity: nat)
    ensures Discover(t.(found := false), addr, role, capacity).0.entries == [Entry(addr, role)]
  {
  }

  // ---------------------------------------------------------------------------
  // Advertising / scanning reconciliation

  datatype Ble = Ble(advertising: bool, scanning: bool)
  datatype BleAction = StartAdvertising | StartScanning | StopScanning

  /** `verify_app_configuration`, given whether ranging is active. */
  function VerifyConfiguration(b: Ble, ranging: bool): (r: (Ble, seq<BleAction>))
    ensures r.0.advertising
    ensures StartAdvertising in r.1 <==> !b.advertising
    ensures StartScanning in r.1 <==> !ranging && !b.scanning
    ensures StopScanning in r.1 <==> ranging && b.scanning
    ensures r.0.scanning == !ranging
  {
    var adv := if b.advertising then [] else [StartAdvertising];
    if !ranging && !b.scanning then (Ble(true, true), adv + [StartScanning])
    else if ranging && b.scanning then (Ble(true, false), adv + [StopScanning])
    else (Ble(true, b.scanning), adv)
  }

  /** Reconciling twice issues no further action. */
  lemma VerifyConfigurationIdempotent(b: Ble, ranging: bool)
    ensures var once := VerifyConfiguration(b, ranging).0;
            VerifyConfiguration(once, ranging) == (once, [])
  {
  }

  // ---------------------------------------------------------------------------
  // Notifications

  /** The bits of `app_notification_t` this model distinguishes. */
  datatype Notification = NetworkLost | NetworkFound | VerifyConfigurationRequest | BatteryEvent | FindMyTottagActivated

  /** `app_notify`: the bits are or-ed into the task's pending set (whether
      from an ISR or not); without a task handle nothing happens. */
  function Notify(hasTask: bool, pending: set<Notification>, n: Notification): (r: set<Notification>)
    ensures hasTask ==> n in r && pending <= r && r - {n} <= pending
    ensures !hasTask ==> r == pending
  {
    if hasTask then pending + {n} else pending
  }

  /** Setting the same bit twice is the same as setting it once. */
  lemma NotifyIdempotent(hasTask: bool, pending: set<Notification>, n: Notification)
    ensures Notify(hasTask, Notify(hasTask, pending, n), n) == Notify(hasTask, pending, n)
  {
  }

  datatype ChargeEvent = Plugged | Unplugged | OtherChargeEvent(code: nat)

  /** `battery_event_handler`: every event is stored; only plugging and
      unplugging notify the task. */
  function BatteryEventHandler(hasTask: bool, stored: seq<ChargeEvent>, pending: set<Notification>,
                               ev: ChargeEvent): (r: (seq<ChargeEvent>, set<Notification>))
    ensures r.0 == stored + [ev]
    ensures ev.OtherChargeEvent? ==> r.1 == pending
    ensures !ev.OtherChargeEvent? ==> r.1 == Notify(hasTask, pending, BatteryEvent)
    ensures BatteryEvent in r.1 - pending ==> hasTask && !ev.OtherChargeEvent?
  {
    (stored + [ev], if ev == Plugged || ev == Unplugged then Notify(hasTask, pending, BatteryEvent) else pending)
  }
}
