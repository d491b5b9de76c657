/** Register access of the DW3000 driver port (software/firmware/src/peripherals/src/ranging.c):
    little-endian packing of register values, the SPI header composed by
    `dwt_xfer3000`, the read/write dispatch, and the instruction word handed
    to the SPI controller. */
module Dw3000Registers {
  import opened Common

  // ---------------------------------------------------------------------------
  // Register value packing

  /** `dwt_read32bitoffsetreg`: folds the four bytes read from the device,
      highest index first, into a 32-bit value. */
  method Read32(buffer: seq<u8>) returns (regval: u32)
    requires |buffer| == 4
    ensures regval == LeValue(buffer)
  {
    var acc: nat := 0;
    var j := 4;
    while j > 0
      invariant 0 <= j <= 4
      invariant acc == LeValue(buffer[j..])
    {
      j := j - 1;
      LeValueStep(buffer, j);
      acc := buffer[j] + 256 * acc;
    }
    assert buffer[0..] == buffer;
    PowersOf256();
    regval := acc;
  }

  lemma LeValueStep(s: seq<u8>, j: nat)
    requires j < |s|
    ensures LeValue(s[j..]) == s[j] + 256 * LeValue(s[j + 1..])
  {
    assert s[j..][1..] == s[j + 1..];
  }

  /** `dwt_write32bitoffsetreg`: splits a 32-bit value into four bytes, least
      significant first, shifting the value right by 8 each time. */
  method Write32(value: u32) returns (buffer: seq<u8>)
    ensures |buffer| == 4
    ensures buffer == LeBytes(value, 4)
    ensures LeValue(buffer) == value
  {
    var regval: nat := value;
    buffer := [];
    var j := 0;
    while j < 4
      invariant 0 <= j <= 4
      invariant buffer + LeBytes(regval, 4 - j) == LeBytes(value, 4)
    {
      EmitLowByte(buffer, regval, 4 - j);
      buffer := buffer + [regval % 256];
      regval := regval / 256;
      j := j + 1;
    }
    assert buffer == LeBytes(value, 4) by {
      assert LeBytes(regval, 0) == [];
      assert buffer + [] == buffer;
    }
    PowersOf256();
    LeValueOfLeBytes(value, 4);
  }

  /** One loop step of the serialisation: the low byte moves into the buffer. */
  lemma EmitLowByte(buffer: seq<u8>, v: nat, n: nat)
    requires n > 0
    ensures buffer + LeBytes(v, n) == (buffer + [v % 256]) + LeBytes(v / 256, n - 1)
  {
    LeBytesStep(v, n);
  }

  /** Writing a register value and reading it back gives the value written. */
  method Write32ThenRead32(value: u32) returns (readBack: u32)
    ensures readBack == value
  {
    var buffer := Write32(value);
    readBack := Read32(buffer);
  }

  /** `dwt_write16bitoffsetreg`: the low byte first, then the high byte. */
  function Write16(value: u16): (buffer: seq<u8>)
    ensures |buffer| == 2 && LeValue(buffer) == value
    ensures buffer == LeBytes(value, 2)
  {
    [value % 256, value / 256]
  }

  /** `dwt_read8bitoffsetreg` / `dwt_write8bitoffsetreg`: one-byte transfers. */
  function Write8(value: u8): (buffer: seq<u8>)
    ensures |buffer| == 1 && LeValue(buffer) == value
  {
    [value]
  }

  function Read8(buffer: seq<u8>): (value: u8)
    requires |buffer| == 1
    ensures value == LeValue(buffer)
  {
    buffer[0]
  }

  // ---------------------------------------------------------------------------
  // dwt_xfer3000

  /** The `DW3000_SPI_*` constants this code relies on.  The read mode is 0;
      the write and AND/OR modes are the other switch labels, so they are
      distinct from each other and from 0. */
  datatype SpiBits = SpiBits(wr: bv16, andOr8: bv16, andOr16: bv16, andOr32: bv16,
                             fac: bv8, farw: bv8, eamrw: bv8)

  const SPI_RD: bv16 := 0

  predicate DistinctModes(b: SpiBits) {
    b.wr != SPI_RD && b.andOr8 != SPI_RD && b.andOr16 != SPI_RD && b.andOr32 != SPI_RD &&
    b.wr != b.andOr8 && b.wr != b.andOr16 && b.wr != b.andOr32 &&
    b.andOr8 != b.andOr16 && b.andOr8 != b.andOr32 && b.andOr16 != b.andOr32
  }

  predicate IsWriteMode(b: SpiBits, mode: bv16) {
    mode == b.wr || mode == b.andOr8 || mode == b.andOr16 || mode == b.andOr32
  }

  /** What the exchange does: hand the header and the body length to the
      write path or the read path, or spin forever on an unknown mode. */
  datatype Transfer = WriteTransfer(header: seq<bv8>, length: bv16)
                    | ReadTransfer(header: seq<bv8>, length: bv16)
                    | Hang

  /** Register file and offset within it, from the 32-bit sum of the
      register file ID and the sub-index. */
  function RegFile(regFileId: bv32, indx: bv16): (f: bv16)
    ensures f < 32
  {
    (((regFileId + indx as bv32) >> 16) & 0x1F) as bv16
  }

  function RegOffset(regFileId: bv32, indx: bv16): (o: bv16)
    ensures o < 128
  {
    ((regFileId + indx as bv32) & 0x7F) as bv16
  }

  function Address(regFile: bv16, regOffset: bv16): bv16
  {
    (regFile << 9) | (regOffset << 2)
  }

  function Low8(x: bv16): bv8 {
    (x & 0xFF) as bv8
  }

  /** The header `dwt_xfer3000` composes, already cut to the byte count it
      hands on: the fast-access command for a zero-length write, the
      one-byte fast read/write form for offset 0 in plain RD/WR mode, and the
      two-byte extended-address form otherwise. */
  function Header(b: SpiBits, regFileId: bv32, indx: bv16, length: bv16, mode: bv16): (h: seq<bv8>)
  {
    var regFile := RegFile(regFileId, indx);
    var regOffset := RegOffset(regFileId, indx);
    var addr := Address(regFile, regOffset);
    var h0 := Low8((mode | addr) >> 8);
    var h1 := Low8(addr | (mode & 0x03));
    if length == 0 then
      [(((b.wr >> 8) as bv32 | (regFileId << 1) | b.fac as bv32) & 0xFF) as bv8]
    else if regOffset == 0 && (mode == b.wr || mode == SPI_RD) then
      [h0 | b.farw]
    else
      [h0 | b.eamrw, h1]
  }

  function Xfer3000(b: SpiBits, regFileId: bv32, indx: bv16, length: bv16, mode: bv16): (t: Transfer)
    requires DistinctModes(b)
    ensures IsWriteMode(b, mode) <==> t.WriteTransfer?
    ensures mode == SPI_RD <==> t.ReadTransfer?
    ensures !IsWriteMode(b, mode) && mode != SPI_RD <==> t.Hang?
    ensures !t.Hang? ==> t.length == length
    ensures !t.Hang? ==>
              (|t.header| == 1 <==>
                 length == 0 || (RegOffset(regFileId, indx) == 0 && (mode == SPI_RD || mode == b.wr)))
    ensures !t.Hang? ==> 1 <= |t.header| <= 2
  {
    var header := Header(b, regFileId, indx, length, mode);
    if IsWriteMode(b, mode) then WriteTransfer(header, length)
    else if mode == SPI_RD then ReadTransfer(header, length)
    else Hang
  }

  /** `_dwt_readfromdevice` always goes down the read path and
      `_dwt_writetodevice` down the write path. */
  lemma DeviceAccessDispatch(b: SpiBits, regFileId: bv32, indx: bv16, length: bv16)
    requires DistinctModes(b)
    ensures Xfer3000(b, regFileId, indx, length, SPI_RD).ReadTransfer?
    ensures Xfer3000(b, regFileId, indx, length, b.wr).WriteTransfer?
  {
  }

  /** Bits the mode's high byte and the form markers leave clear, so that
      they do not overlap the address field of the header. */
  predicate AddressBitsClear(b: SpiBits, mode: bv16) {
    (mode >> 8) & 0x3F == 0 && b.eamrw & 0x3F == 0 && b.farw & 0x3F == 0
  }

  /** The addressed register can be read back from an address-carrying
      header: the register file sits in bits 5..1 of the first byte, and the
      offset is bit 0 of the first byte followed by bits 7..2 of the second. */
  lemma HeaderAddressesRegister(b: SpiBits, regFileId: bv32, indx: bv16, length: bv16, mode: bv16)
    requires length != 0 && AddressBitsClear(b, mode)
    ensures var h := Header(b, regFileId, indx, length, mode);
            ((h[0] >> 1) & 0x1F) as bv16 == RegFile(regFileId, indx) &&
            (|h| == 2 ==> ((((h[0] & 1) as bv16) << 6) | ((h[1] >> 2) as bv16)) == RegOffset(regFileId, indx))
  {
  }

  // ---------------------------------------------------------------------------
  // Instruction word and unbounded retry: readfromspi / writetospi

  /** The 64-bit instruction word: the header bytes are stored from byte
      `headerLength - 1` down to byte 0 of a zeroed little-endian word. */
  method PackInstruction(header: seq<u8>) returns (instruction: u64)
    requires |header| <= 8
    ensures instruction == BeValue(header)
    ensures BeBytes(instruction, |header|) == header
  {
    var bytes: seq<u8> := [0, 0, 0, 0, 0, 0, 0, 0];
    var i := 0;
    while i < |header|
      invariant 0 <= i <= |header|
      invariant |bytes| == 8
      invariant forall k :: 0 <= k < 8 ==>
                  bytes[k] == (if |header| - i <= k < |header| then header[|header| - 1 - k] else 0)
    {
      bytes := bytes[|header| - 1 - i := header[i]];
      i := i + 1;
    }
    assert bytes == Reverse(header) + Zeros(8 - |header|);
    LeValueZeroPadded(Reverse(header), 8 - |header|);
    LeValueOfReverse(header);
    PowersOf256();
    assert LeValue(bytes) < TWO_64;
    instruction := LeValue(bytes);
    BeBytesOfBeValue(header);
  }

  function Zeros(n: nat): (z: seq<u8>)
    ensures |z| == n && forall k :: 0 <= k < n ==> z[k] == 0
  {
    if n == 0 then [] else [0] + Zeros(n - 1)
  }

  lemma {:induction false} LeValueZeroPadded(s: seq<u8>, n: nat)
    ensures LeValue(s + Zeros(n)) == LeValue(s)
    decreases |s|
  {
    if |s| == 0 {
      assert s + Zeros(n) == Zeros(n);
      LeValueOfZeros(n);
    } else {
      assert (s + Zeros(n))[1..] == s[1..] + Zeros(n);
      LeValueZeroPadded(s[1..], n);
    }
  }

  lemma {:induction false} LeValueOfZeros(n: nat)
    ensures LeValue(Zeros(n)) == 0
  {
    if n > 0 {
      assert Zeros(n)[1..] == Zeros(n - 1);
      LeValueOfZeros(n - 1);
    }
  }

  /** Reading a byte string backwards little-endian is reading it big-endian. */
  lemma {:induction false} LeValueOfReverse(s: seq<u8>)
    ensures LeValue(Reverse(s)) == BeValue(s)
  {
    if |s| > 0 {
      LeValueOfReverse(s[..|s| - 1]);
      assert Reverse(s)[1..] == Reverse(s[..|s| - 1]);
    }
  }

  /** The blocking transfer is repeated until the SPI controller reports
      success; `results[k]` is the status of the k-th attempt.  The call
      returns (with 0) after the first successful attempt and never returns
      if none succeeds (`None`). */
  method RetryTransfer(results: seq<bool>) returns (attempts: Option<nat>)
    ensures attempts.Some? ==> 1 <= attempts.value <= |results| && results[attempts.value - 1]
    ensures attempts.Some? ==> forall i :: 0 <= i < attempts.value - 1 ==> !results[i]
    ensures attempts.None? <==> forall i :: 0 <= i < |results| ==> !results[i]
  {
    var k := 0;
    while k < |results|
      invariant 0 <= k <= |results|
      invariant forall i :: 0 <= i < k ==> !results[i]
    {
      if results[k] {
        return Some(k + 1);
      }
      k := k + 1;
    }
    return None;
  }
}
