/** The BLE ranging-result decoder of the realtime logging script
    (software/analysis/tottagRealtimeRangingRSSI.py, `data_received_callback`):
    identifier 14 carries a little-endian list of ranges, identifier 15 a
    block of RSSI floats for the device last seen.  Python exceptions become
    `Failed`, the clock is an input, and the RSSI floats and the file output
    are reduced to which record is written. */
module RangingDecoder {
  import opened Common

  /** The dictionary entry `cur_tags[addr]`. */
  datatype Record = Record(to: u8, from: u8, rangeMm: nat, timestamp: nat, osTime: int, numRanges: nat)

  datatype Failure = IndexError | StructError | KeyError

  /** What one notification does: the new `cur_tags`, or the record an RSSI
      line is written for, or nothing but an error message. */
  datatype Outcome =
    | Stored(tags: map<string, Record>)
    | RssiLine(rec: Record)
    | Ignored
    | InvalidIdentifier(id: u8)
    | Failed(why: Failure)

  const RANGE_ENTRY_LEN: nat := 5
  const RSSI_BLOCK_LEN: nat := 120

  /** `struct.unpack('<I', ...)` on a slice: exactly four bytes or an error. */
  function U32At(data: seq<u8>, lo: nat): (r: Option<nat>)
    ensures r.Some? <==> lo + 4 <= |data|
    ensures r.Some? ==> r.value == LeValue(data[lo..lo + 4]) && r.value < TWO_32
  {
    if lo + 4 <= |data| then
      PowersOf256();
      Some(LeValue(data[lo..lo + 4]))
    else None
  }

  /** The range entries: destination byte then little-endian u32 millimetres. */
  function Entry(data: seq<u8>, i: nat): (e: (u8, nat))
    requires 8 + RANGE_ENTRY_LEN * i <= |data|
  {
    (data[3 + RANGE_ENTRY_LEN * i], LeValue(data[4 + RANGE_ENTRY_LEN * i..8 + RANGE_ENTRY_LEN * i]))
  }

  /** `cur_tags` after the loop over n entries: each overwrites the last. */
  function StoreEntries(tags: map<string, Record>, addr: string, data: seq<u8>, from: u8,
                        timestamp: nat, osTime: int, n: nat, count: nat): (t: map<string, Record>)
    requires count <= n && 3 + RANGE_ENTRY_LEN * n <= |data|
    ensures count == 0 ==> t == tags
    ensures count > 0 ==> t == tags[addr := Record(Entry(data, count - 1).0, from, Entry(data, count - 1).1,
                                                   timestamp, osTime, n)]
  {
    if count == 0 then tags
    else
      var e := Entry(data, count - 1);
      StoreEntries(tags, addr, data, from, timestamp, osTime, n, count - 1)[addr := Record(e.0, from, e.1, timestamp, osTime, n)]
  }

  /** The table after a well-formed identifier-14 packet: unchanged when it
      lists no range, otherwise `addr` maps to the last entry, the sender,
      the packet's timestamp and the count. */
  function LastRange(tags: map<string, Record>, addr: string, data: seq<u8>, osTime: int): (t: map<string, Record>)
    requires |data| >= 3 && 7 + RANGE_ENTRY_LEN * data[1] <= |data|
  {
    var n := data[1];
    if n == 0 then tags
    else
      var ts := LeValue(data[3 + RANGE_ENTRY_LEN * n..7 + RANGE_ENTRY_LEN * n]);
      var e := Entry(data, n - 1);
      tags[addr := Record(e.0, data[2], e.1, ts, osTime, n)]
  }

  /** `data_received_callback` for device `addr` at host time `osTime`. */
  function Receive(tags: map<string, Record>, addr: string, data: seq<u8>, osTime: int): (o: Outcome)
    ensures |data| == 0 ==> o == Failed(IndexError)
    ensures o.Stored? ==> |data| >= 1 && data[0] == 14
    ensures o.RssiLine? ==> |data| >= 1 && data[0] == 15 && addr in tags && o.rec == tags[addr] &&
                            |data| - 1 >= RSSI_BLOCK_LEN && tags[addr].numRanges == 1
    ensures |data| >= 1 && data[0] != 14 && data[0] != 15 ==> o == InvalidIdentifier(data[0])
    ensures |data| >= 1 && data[0] == 15 && (|tags| == 0 || |data| - 1 < RSSI_BLOCK_LEN) ==> o == Ignored
    ensures |data| >= 1 && data[0] == 15 && |tags| > 0 && |data| - 1 >= RSSI_BLOCK_LEN ==>
              (addr !in tags ==> o == Failed(KeyError)) &&
              (addr in tags && tags[addr].numRanges != 1 ==> o == Failed(StructError)) &&
              (addr in tags && tags[addr].numRanges == 1 ==> o == RssiLine(tags[addr]))
    ensures |data| >= 1 && data[0] == 14 && (|data| < 3 || |data| < 7 + RANGE_ENTRY_LEN * data[1]) ==>
              o == Failed(StructError)
    ensures |data| >= 3 && data[0] == 14 && 7 + RANGE_ENTRY_LEN * data[1] <= |data| ==>
              o.Stored? && o.tags == LastRange(tags, addr, data, osTime)
  {
    if |data| == 0 then Failed(IndexError)
    else if data[0] == 14 then
      if |data| < 3 then Failed(StructError)
      else
        var n, from := data[1], data[2];
        var ts := U32At(data, 3 + RANGE_ENTRY_LEN * n);
        if ts.None? then Failed(StructError)
        else Stored(StoreEntries(tags, addr, data, from, ts.value, osTime, n, n))
    else if data[0] == 15 then
      if |tags| == 0 || |data| - 1 < RSSI_BLOCK_LEN then Ignored
      else if addr !in tags then Failed(KeyError)
      else if 4 * 30 * tags[addr].numRanges != RSSI_BLOCK_LEN then Failed(StructError)
      else RssiLine(tags[addr])
    else InvalidIdentifier(data[0])
  }

  // ---------------------------------------------------------------------------
  // The packet layout, as the firmware sends it

  datatype Range = Range(to: u8, rangeMm: u32)

  function EncodeEntries(rs: seq<Range>): (b: seq<u8>)
    ensures |b| == RANGE_ENTRY_LEN * |rs|
  {
    if |rs| == 0 then [] else [rs[0].to] + LeBytes(rs[0].rangeMm, 4) + EncodeEntries(rs[1..])
  }

  /** Identifier 14, the count, the source, the entries and the timestamp. */
  function EncodeRanges(from: u8, rs: seq<Range>, timestamp: u32): (b: seq<u8>)
    requires |rs| < 256
    ensures |b| == 7 + RANGE_ENTRY_LEN * |rs|
  {
    [14, |rs|, from] + EncodeEntries(rs) + LeBytes(timestamp, 4)
  }

  lemma {:induction false} EncodeEntriesAt(rs: seq<Range>, i: nat)
    requires i < |rs|
    ensures var b := EncodeEntries(rs);
            b[RANGE_ENTRY_LEN * i] == rs[i].to &&
            b[RANGE_ENTRY_LEN * i + 1..RANGE_ENTRY_LEN * i + 5] == LeBytes(rs[i].rangeMm, 4)
  {
    var b := EncodeEntries(rs);
    if i > 0 {
      EncodeEntriesAt(rs[1..], i - 1);
      var tail := EncodeEntries(rs[1..]);
      assert b == [rs[0].to] + LeBytes(rs[0].rangeMm, 4) + tail;
      assert b[5 + RANGE_ENTRY_LEN * (i - 1)] == tail[RANGE_ENTRY_LEN * (i - 1)];
      assert b[RANGE_ENTRY_LEN * i + 1..RANGE_ENTRY_LEN * i + 5] ==
             tail[RANGE_ENTRY_LEN * (i - 1) + 1..RANGE_ENTRY_LEN * (i - 1) + 5];
    }
  }

  /** Decoding what the firmware sends stores the last range with the
      sender, the timestamp and the count. */
  lemma DecodeEncodedRanges(tags: map<string, Record>, addr: string, from: u8, rs: seq<Range>,
                            timestamp: u32, osTime: int)
    requires 1 <= |rs| < 256
    ensures var last := rs[|rs| - 1];
            Receive(tags, addr, EncodeRanges(from, rs, timestamp), osTime) ==
              Stored(tags[addr := Record(last.to, from, last.rangeMm, timestamp, osTime, |rs|)])
  {
    var b := EncodeRanges(from, rs, timestamp);
    assert b[0] == 14 && b[1] == |rs| && b[2] == from;
    EncodedLastEntry(from, rs, timestamp);
    EncodedTimestamp(from, rs, timestamp);
  }

  /** The last entry of an encoded packet decodes to the last range. */
  lemma EncodedLastEntry(from: u8, rs: seq<Range>, timestamp: u32)
    requires 1 <= |rs| < 256
    ensures Entry(EncodeRanges(from, rs, timestamp), |rs| - 1) == (rs[|rs| - 1].to, rs[|rs| - 1].rangeMm)
  {
    var b := EncodeRanges(from, rs, timestamp);
    var entries := EncodeEntries(rs);
    var k := RANGE_ENTRY_LEN * (|rs| - 1);
    EncodeEntriesAt(rs, |rs| - 1);
    assert b[3 + k] == entries[k];
    assert b[4 + k..8 + k] == entries[k + 1..k + 5];
    PowersOf256();
    LeValueOfLeBytes(rs[|rs| - 1].rangeMm, 4);
  }

  /** The four bytes after the entries decode to the timestamp. */
  lemma EncodedTimestamp(from: u8, rs: seq<Range>, timestamp: u32)
    requires |rs| < 256
    ensures var b := EncodeRanges(from, rs, timestamp);
            LeValue(b[3 + RANGE_ENTRY_LEN * |rs|..7 + RANGE_ENTRY_LEN * |rs|]) == timestamp
  {
    var b := EncodeRanges(from, rs, timestamp);
    var n := |rs|;
    assert b[3 + RANGE_ENTRY_LEN * n..7 + RANGE_ENTRY_LEN * n] == LeBytes(timestamp, 4);
    PowersOf256();
    LeValueOfLeBytes(timestamp, 4);
  }
}
