/** The SEGGER real-time-terminal ring buffers
    (software/squarepoint/peripherals/SEGGER_RTT.c): one-slot-lost circular
    FIFOs between target and debug host, the skip/trim overflow policies of
    the writer, the two-part read across the wrap, the keyboard helpers,
    run-time buffer configuration and the virtual-terminal markers.  The host
    side never runs concurrently in this model. */
module RttRing {
  import opened Common

  /** `Flags & SEGGER_RTT_MODE_MASK`. */
  datatype Mode = NoBlockSkip | NoBlockTrim | BlockIfFifoFull

  /** `RING_BUFFER`: the buffer memory (its length is `SizeOfBuffer`), the
      write and read offsets and the mode. */
  datatype Ring = Ring(name: string, data: seq<u8>, wrOff: nat, rdOff: nat, mode: Mode)

  predicate Valid(r: Ring) {
    |r.data| >= 1 && r.wrOff < |r.data| && r.rdOff < |r.data|
  }

  /** Bytes the writer may still store: one slot always stays empty so that
      a full buffer can be told from an empty one. */
  function Free(r: Ring): (n: nat)
    requires Valid(r)
    ensures n < |r.data|
  {
    if r.rdOff - r.wrOff - 1 < 0 then r.rdOff - r.wrOff - 1 + |r.data| else r.rdOff - r.wrOff - 1
  }

  /** The free space is the distance from the write to the read offset, less
      one, modulo the buffer size. */
  lemma FreeIsModular(r: Ring)
    requires Valid(r)
    ensures Free(r) == (r.rdOff - r.wrOff - 1) % |r.data|
  {
  }

  /** An offset moved forward by less than one lap, wrapped back into the buffer. */
  function Wrap(x: nat, size: nat): (y: nat)
    requires x < 2 * size
    ensures y < size && y == x % size
  {
    if x < size then x else ModOnce(x, size); x - size
  }

  /** Past the end but within one lap, the remainder is one subtraction. */
  lemma ModOnce(x: nat, size: nat)
    requires size <= x < 2 * size
    ensures x % size == x - size
  {
    var q, m := x / size, x % size;
    assert x == q * size + m;
  }

  /** Bytes stored and not yet read. */
  function Used(r: Ring): (n: nat)
    requires Valid(r)
    ensures n + Free(r) == |r.data| - 1
    ensures n == 0 <==> r.rdOff == r.wrOff
  {
    if r.wrOff >= r.rdOff then r.wrOff - r.rdOff else r.wrOff - r.rdOff + |r.data|
  }

  /** The buffer index of the k-th unread byte. */
  function Pos(r: Ring, k: nat): (p: nat)
    requires Valid(r) && k < |r.data|
    ensures p < |r.data|
  {
    Wrap(r.rdOff + k, |r.data|)
  }

  /** The FIFO contents, oldest byte first. */
  function Contents(r: Ring): (c: seq<u8>)
    requires Valid(r)
    ensures |c| == Used(r)
  {
    seq(Used(r), k requires 0 <= k < Used(r) => r.data[Pos(r, k)])
  }

  // ---------------------------------------------------------------------------
  // Writing

  /** Storing one byte at the write offset: the reference step for writes. */
  function PutByte(r: Ring, b: u8): (r': Ring)
    requires Valid(r) && Free(r) > 0
    ensures Valid(r') && Free(r') == Free(r) - 1
    ensures r'.rdOff == r.rdOff && r'.mode == r.mode && r'.name == r.name && |r'.data| == |r.data|
    ensures r'.wrOff == Wrap(r.wrOff + 1, |r.data|)
  {
    r.(data := r.data[r.wrOff := b], wrOff := if r.wrOff + 1 == |r.data| then 0 else r.wrOff + 1)
  }

  lemma PutByteAppends(r: Ring, b: u8)
    requires Valid(r) && Free(r) > 0
    ensures Contents(PutByte(r, b)) == Contents(r) + [b]
  {
    var r' := PutByte(r, b);
    var c, c' := Contents(r), Contents(r');
    assert Used(r') == Used(r) + 1;
    forall k | 0 <= k < |c'| ensures c'[k] == (c + [b])[k] {
      if k < Used(r) {
        assert Pos(r', k) == Pos(r, k) != r.wrOff;
      } else {
        assert Pos(r', k) == r.wrOff;
      }
    }
  }

  /** Storing a byte string one byte at a time. */
  function WriteBytes(r: Ring, s: seq<u8>): (r': Ring)
    requires Valid(r) && |s| <= Free(r)
    ensures Valid(r') && Free(r') == Free(r) - |s|
    ensures r'.rdOff == r.rdOff && r'.mode == r.mode && r'.name == r.name && |r'.data| == |r.data|
    ensures r'.wrOff == Wrap(r.wrOff + |s|, |r.data|)
    decreases |s|
  {
    if |s| == 0 then r else WriteBytes(PutByte(r, s[0]), s[1..])
  }

  /** Byte-wise writing appends exactly the bytes to the FIFO. */
  lemma {:induction false} WriteBytesAppends(r: Ring, s: seq<u8>)
    requires Valid(r) && |s| <= Free(r)
    ensures Contents(WriteBytes(r, s)) == Contents(r) + s
    decreases |s|
  {
    if |s| > 0 {
      PutByteAppends(r, s[0]);
      WriteBytesAppends(PutByte(r, s[0]), s[1..]);
      assert Contents(r) + [s[0]] + s[1..] == Contents(r) + s;
    }
  }

  lemma {:induction false} WriteBytesConcat(r: Ring, a: seq<u8>, b: seq<u8>)
    requires Valid(r) && |a| + |b| <= Free(r)
    ensures WriteBytes(r, a + b) == WriteBytes(WriteBytes(r, a), b)
    decreases |a|
  {
    if |a| == 0 {
      assert a + b == b;
    } else {
      assert (a + b)[0] == a[0] && (a + b)[1..] == a[1..] + b;
      WriteBytesConcat(PutByte(r, a[0]), a[1..], b);
    }
  }

  /** One `MEMCPY` of a chunk at the write offset, followed by the offset
      update with wrap-around at the end of the buffer. */
  function CopyChunk(r: Ring, s: seq<u8>): (r': Ring)
    requires r.wrOff + |s| <= |r.data|
  {
    r.(data := r.data[..r.wrOff] + s + r.data[r.wrOff + |s|..],
       wrOff := if r.wrOff + |s| == |r.data| then 0 else r.wrOff + |s|)
  }

  /** A chunk that does not cross the end of the buffer stores the same as
      writing its bytes one by one. */
  lemma {:induction false} ChunkIsBytewise(r: Ring, s: seq<u8>)
    requires Valid(r) && |s| <= Free(r) && r.wrOff + |s| <= |r.data|
    ensures WriteBytes(r, s) == CopyChunk(r, s)
    decreases |s|
  {
    if |s| == 0 {
      assert r.data[..r.wrOff] + s + r.data[r.wrOff..] == r.data;
    } else {
      var p := PutByte(r, s[0]);
      if r.wrOff + 1 == |r.data| {
        assert |s| == 1;
        assert s[1..] == [];
        assert r.data[..r.wrOff] + s + r.data[r.wrOff + 1..] == r.data[r.wrOff := s[0]];
      } else {
        ChunkIsBytewise(p, s[1..]);
        assert p.data[..p.wrOff] + s[1..] + p.data[p.wrOff + |s| - 1..] ==
               r.data[..r.wrOff] + s + r.data[r.wrOff + |s|..];
      }
    }
  }

  /** One iteration of the copy loop extends the byte-wise write by the chunk. */
  lemma ChunkStep(r: Ring, bytes: seq<u8>, written: nat, next: nat, cur: Ring)
    requires Valid(r) && written <= next <= |bytes| && next <= Free(r)
    requires cur == WriteBytes(r, bytes[..written]) && cur.wrOff + (next - written) <= |cur.data|
    ensures CopyChunk(cur, bytes[written..next]) == WriteBytes(r, bytes[..next])
  {
    var piece := bytes[written..next];
    ChunkIsBytewise(cur, piece);
    WriteBytesConcat(r, bytes[..written], piece);
    assert bytes[..written] + piece == bytes[..next];
  }

  /** How many bytes `SEGGER_RTT_Write` decides to store before copying. */
  function WriteCount(r: Ring, n: nat): (k: nat)
    requires Valid(r)
    ensures k <= n
    ensures r.mode == NoBlockSkip ==> k == (if n > Free(r) then 0 else n)
    ensures r.mode == NoBlockTrim ==> k == (if n > Free(r) then Free(r) else n)
    ensures r.mode == BlockIfFifoFull ==> k == n
  {
    if r.mode != BlockIfFifoFull && n > Free(r) then
      if r.mode == NoBlockSkip then 0 else Free(r)
    else n
  }

  /** The size of the next `MEMCPY`: the smallest of the free space, the
      room up to the end of the buffer and the bytes still to store. */
  function ChunkLen(cur: Ring, remaining: nat): (c: nat)
    requires Valid(cur) && 0 < remaining <= Free(cur)
    ensures 0 < c <= remaining && cur.wrOff + c <= |cur.data|
    ensures c == remaining || c == Free(cur) || cur.wrOff + c == |cur.data|
  {
    var c := Min(Free(cur), |cur.data| - cur.wrOff);
    Min(c, remaining)
  }

  /** The copy loop of `SEGGER_RTT_Write`: chunks bounded by the free space,
      the end of the buffer and what is left, until n bytes are stored. */
  method CopyLoop(r: Ring, bytes: seq<u8>, n: nat) returns (r': Ring)
    requires Valid(r) && n <= |bytes| && n <= Free(r)
    ensures r' == WriteBytes(r, bytes[..n])
  {
    var written := 0;
    r' := r;
    while written < n
      invariant written <= n
      invariant r' == WriteBytes(r, bytes[..written])
      decreases n - written
    {
      var chunk := ChunkLen(r', n - written);
      var next := written + chunk;
      ChunkStep(r, bytes, written, next, r');
      r', written := CopyChunk(r', bytes[written..next]), next;
    }
  }

  /** `SEGGER_RTT_Write` on one up-buffer.  `completes` is false when, in
      blocking mode, the data does not fit: the copy loop then waits for the
      host to read, with `r'` the state it waits in. */
  method Write(r: Ring, bytes: seq<u8>) returns (r': Ring, written: nat, completes: bool)
    requires Valid(r) && |bytes| < 0x8000_0000
    ensures Valid(r') && r'.rdOff == r.rdOff && r'.mode == r.mode && r'.name == r.name
    ensures |r'.data| == |r.data|
    ensures completes <==> !(r.mode == BlockIfFifoFull && |bytes| > Free(r))
    ensures completes ==> written == WriteCount(r, |bytes|)
    ensures !completes ==> written == Free(r)
    ensures Contents(r') == Contents(r) + bytes[..written]
    ensures Free(r') == Free(r) - written
    ensures |bytes| <= Free(r) ==> written == |bytes| && Contents(r') == Contents(r) + bytes
    ensures r'.wrOff == Wrap(r.wrOff + written, |r.data|)
    ensures written == 0 ==> r' == r
  {
    written := WriteCount(r, |bytes|);
    completes := true;
    if written > Free(r) {
      written := Free(r);
      completes := false;
    }
    if written == 0 {
      r' := r;
    } else {
      r' := CopyLoop(r, bytes, written);
    }
    WriteBytesAppends(r, bytes[..written]);
  }

  // ---------------------------------------------------------------------------
  // Reading

  function Min(a: int, b: int): int { if a < b then a else b }

  /** The two copies of `SEGGER_RTT_Read`: first the part up to the end of
      the buffer (only when the data wraps), then the part from the current
      read position up to the write offset.  Returns the bytes and the read
      offset reached. */
  function ReadParts(r: Ring, bufferSize: nat): (res: (seq<u8>, nat))
    requires Valid(r)
  {
    var size := |r.data|;
    var rem1 := if r.rdOff > r.wrOff then Min(size - r.rdOff, bufferSize) else 0;
    var out1 := r.data[r.rdOff..r.rdOff + rem1];
    var rd1 := if r.rdOff + rem1 == size then 0 else r.rdOff + rem1;
    var rem2 := Min(r.wrOff - rd1, bufferSize - rem1);
    if rem2 > 0 then (out1 + r.data[rd1..rd1 + rem2], rd1 + rem2) else (out1, rd1)
  }

  /** The two copies deliver the oldest `min(used, bufferSize)` bytes in
      FIFO order and stop just after them. */
  predicate ReadPartsDeliver(r: Ring, bufferSize: nat)
    requires Valid(r)
  {
    var n := Min(Used(r), bufferSize);
    var res := ReadParts(r, bufferSize);
    res.0 == Contents(r)[..n] && res.1 < |r.data| &&
    (n > 0 ==> res.1 == Wrap(r.rdOff + n, |r.data|))
  }

  lemma ReadPartsCorrect(r: Ring, bufferSize: nat)
    requires Valid(r)
    ensures ReadPartsDeliver(r, bufferSize)
  {
    if r.rdOff <= r.wrOff || bufferSize < |r.data| - r.rdOff {
      ReadWithinLap(r, bufferSize);
    } else {
      ReadAcrossEnd(r, bufferSize);
    }
  }

  /** No wrap is crossed: one contiguous copy from the read offset. */
  lemma ReadWithinLap(r: Ring, bufferSize: nat)
    requires Valid(r) && (r.rdOff <= r.wrOff || bufferSize < |r.data| - r.rdOff)
    ensures ReadPartsDeliver(r, bufferSize)
  {
    var n := Min(Used(r), bufferSize);
    var res := ReadParts(r, bufferSize);
    var c := Contents(r);
    forall k | 0 <= k < n ensures res.0[k] == c[k] {
      assert Pos(r, k) == r.rdOff + k;
    }
  }

  /** The data wraps and the caller's buffer takes everything up to the end:
      the tail of the buffer, then its head. */
  lemma ReadAcrossEnd(r: Ring, bufferSize: nat)
    requires Valid(r) && r.rdOff > r.wrOff && bufferSize >= |r.data| - r.rdOff
    ensures ReadPartsDeliver(r, bufferSize)
  {
    var n := Min(Used(r), bufferSize);
    var res := ReadParts(r, bufferSize);
    var c := Contents(r);
    var rem1 := |r.data| - r.rdOff;
    forall k | 0 <= k < n ensures res.0[k] == c[k] {
      if k < rem1 {
        assert Pos(r, k) == r.rdOff + k;
      } else {
        assert Pos(r, k) == k - rem1;
      }
    }
  }

  /** Moving the read offset forward by n consumes exactly the first n bytes. */
  lemma AdvanceConsumes(r: Ring, n: nat)
    requires Valid(r) && n <= Used(r)
    ensures Valid(r.(rdOff := Wrap(r.rdOff + n, |r.data|)))
    ensures Contents(r.(rdOff := Wrap(r.rdOff + n, |r.data|))) == Contents(r)[n..]
  {
    var r' := r.(rdOff := Wrap(r.rdOff + n, |r.data|));
    var c, c' := Contents(r), Contents(r');
    assert Used(r') == Used(r) - n;
    forall k | 0 <= k < |c'| ensures c'[k] == c[n + k] {
      assert Pos(r', k) == Pos(r, n + k);
    }
  }

  /** `SEGGER_RTT_Read` on one down-buffer: the read offset moves only if
      something was read. */
  function Read(r: Ring, bufferSize: nat): (res: (Ring, seq<u8>))
    requires Valid(r)
    ensures var n := Min(Used(r), bufferSize);
            res.1 == Contents(r)[..n] &&
            Valid(res.0) && Contents(res.0) == Contents(r)[n..] &&
            res.0 == r.(rdOff := Wrap(r.rdOff + n, |r.data|))
  {
    var parts := ReadParts(r, bufferSize);
    ReadPartsCorrect(r, bufferSize);
    AdvanceConsumes(r, Min(Used(r), bufferSize));
    (if |parts.0| > 0 then r.(rdOff := parts.1) else r, parts.0)
  }

  // ---------------------------------------------------------------------------
  // The control block

  /** `_SEGGER_RTT` (up- and down-buffers) and `_ActiveTerminal`. */
  datatype ControlBlock = ControlBlock(up: seq<Ring>, down: seq<Ring>, activeTerminal: u8)

  /** Channel 0 exists in both directions, every buffer is a ring, and the
      active terminal is one of the 16 virtual terminals. */
  predicate ValidBlock(cb: ControlBlock) {
    |cb.up| >= 1 && |cb.down| >= 1 && cb.activeTerminal < 16 &&
    (forall i :: 0 <= i < |cb.up| ==> Valid(cb.up[i])) &&
    (forall i :: 0 <= i < |cb.down| ==> Valid(cb.down[i]))
  }

  /** `SEGGER_RTT_HasKey`: 1 iff down-buffer 0 holds unread input. */
  function HasKey(cb: ControlBlock): (k: int)
    requires ValidBlock(cb)
    ensures k == 0 || k == 1
    ensures k == 1 <==> |Contents(cb.down[0])| > 0
  {
    if cb.down[0].rdOff != cb.down[0].wrOff then 1 else 0
  }

  /** `SEGGER_RTT_GetKey`: the oldest input byte and the buffer without it,
      or -1 and no change when there is none. */
  function GetKey(cb: ControlBlock): (res: (ControlBlock, int))
    requires ValidBlock(cb)
    ensures ValidBlock(res.0) && res.0.up == cb.up && |res.0.down| == |cb.down|
    ensures -1 <= res.1 < 256
    ensures res.1 == -1 <==> HasKey(cb) == 0
    ensures res.1 == -1 ==> res.0 == cb
    ensures res.1 >= 0 ==>
              res.1 == Contents(cb.down[0])[0] && Contents(res.0.down[0]) == Contents(cb.down[0])[1..]
  {
    var got := Read(cb.down[0], 1);
    if |got.1| == 1 then (cb.(down := cb.down[0 := got.0]), got.1[0] as int)
    else (cb, -1)
  }

  /** The run-time configuration shared by `SEGGER_RTT_ConfigUpBuffer` and
      `SEGGER_RTT_ConfigDownBuffer`: buffer 0 only takes the new mode, any
      other in-range buffer is replaced by an empty ring over the new memory,
      and an out-of-range index is rejected. */
  function Configure(bufs: seq<Ring>, index: nat, name: string, buffer: seq<u8>, mode: Mode): (res: (seq<Ring>, int))
    ensures res.1 == -1 <==> index >= |bufs|
    ensures res.1 == -1 ==> res.0 == bufs
    ensures res.1 != -1 ==> res.1 == 0 && |res.0| == |bufs| && res.0[index].mode == mode &&
                            forall i :: 0 <= i < |bufs| && i != index ==> res.0[i] == bufs[i]
    ensures res.1 != -1 && index == 0 ==> res.0[0] == bufs[0].(mode := mode)
    ensures res.1 != -1 && index > 0 ==> res.0[index] == Ring(name, buffer, 0, 0, mode)
  {
    if index < |bufs| then
      if index > 0 then (bufs[index := Ring(name, buffer, 0, 0, mode)], 0)
      else (bufs[0 := bufs[0].(mode := mode)], 0)
    else (bufs, -1)
  }

  function ConfigUpBuffer(cb: ControlBlock, index: nat, name: string, buffer: seq<u8>, mode: Mode): (res: (ControlBlock, int))
    ensures res.1 == -1 <==> index >= |cb.up|
    ensures res.1 == -1 ==> res.0 == cb
    ensures res.0.down == cb.down && res.0.activeTerminal == cb.activeTerminal && |res.0.up| == |cb.up|
    ensures ValidBlock(cb) && |buffer| >= 1 ==> ValidBlock(res.0)
    ensures 0 < index < |cb.up| ==> res.1 == 0 && res.0.up[index] == Ring(name, buffer, 0, 0, mode)
    ensures index == 0 < |cb.up| ==> res.1 == 0 && res.0.up[0] == cb.up[0].(mode := mode)
  {
    var c := Configure(cb.up, index, name, buffer, mode);
    (cb.(up := c.0), c.1)
  }

  function ConfigDownBuffer(cb: ControlBlock, index: nat, name: string, buffer: seq<u8>, mode: Mode): (res: (ControlBlock, int))
    ensures res.1 == -1 <==> index >= |cb.down|
    ensures res.1 == -1 ==> res.0 == cb
    ensures res.0.up == cb.up && res.0.activeTerminal == cb.activeTerminal && |res.0.down| == |cb.down|
    ensures ValidBlock(cb) && |buffer| >= 1 ==> ValidBlock(res.0)
    ensures 0 < index < |cb.down| ==> res.1 == 0 && res.0.down[index] == Ring(name, buffer, 0, 0, mode)
    ensures index == 0 < |cb.down| ==> res.1 == 0 && res.0.down[0] == cb.down[0].(mode := mode)
  {
    var c := Configure(cb.down, index, name, buffer, mode);
    (cb.(down := c.0), c.1)
  }

  // ---------------------------------------------------------------------------
  // Strings

  /** `_strlen`: 0 for a null pointer, otherwise the index of the first NUL. */
  method StrLen(s: Option<seq<u8>>) returns (len: nat)
    requires s.Some? ==> 0 in s.value
    ensures s.None? ==> len == 0
    ensures s.Some? ==> len < |s.value| && s.value[len] == 0 &&
                        forall k :: 0 <= k < len ==> s.value[k] != 0
  {
    len := 0;
    if s.None? {
      return;
    }
    var str := s.value;
    while str[len] != 0
      invariant len < |str|
      invariant forall k :: 0 <= k < len ==> str[k] != 0
      decreases |str| - len
    {
      len := len + 1;
    }
  }

  /** The bytes of a NUL-terminated string, terminator excluded. */
  function Text(s: Option<seq<u8>>): seq<u8>
  {
    if s.None? then [] else TextBefore(s.value)
  }

  function TextBefore(s: seq<u8>): seq<u8>
  {
    if |s| == 0 || s[0] == 0 then [] else [s[0]] + TextBefore(s[1..])
  }

  lemma {:induction false} TextBeforeIsPrefix(s: seq<u8>, len: nat)
    requires len < |s| && s[len] == 0 && forall k :: 0 <= k < len ==> s[k] != 0
    ensures TextBefore(s) == s[..len]
    decreases len
  {
    if len > 0 {
      TextBeforeIsPrefix(s[1..], len - 1);
      assert s[..len] == [s[0]] + s[1..][..len - 1];
    }
  }

  /** `SEGGER_RTT_WriteString`: writes the string without its terminator. */
  method WriteString(r: Ring, s: Option<seq<u8>>) returns (r': Ring, written: nat, completes: bool)
    requires Valid(r) && (s.Some? ==> 0 in s.value && |s.value| < 0x8000_0000)
    ensures Valid(r') && r'.rdOff == r.rdOff && r'.mode == r.mode && |r'.data| == |r.data|
    ensures completes <==> !(r.mode == BlockIfFifoFull && |Text(s)| > Free(r))
    ensures completes ==> written == WriteCount(r, |Text(s)|)
    ensures written <= |Text(s)| && Contents(r') == Contents(r) + Text(s)[..written]
    ensures Free(r') == Free(r) - written
    ensures |Text(s)| <= Free(r) ==> written == |Text(s)| && Contents(r') == Contents(r) + Text(s)
  {
    var len := StrLen(s);
    var str := if s.Some? then s.value[..len] else [];
    if s.Some? {
      TextBeforeIsPrefix(s.value, len);
    }
    r', written, completes := Write(r, str);
  }

  // ---------------------------------------------------------------------------
  // Virtual terminals

  /** The character naming terminal d: '0'..'9', then 'A'..'F'. */
  function TerminalChar(d: nat): (c: u8)
    requires d < 16
    ensures TerminalOf(c) == Some(d)
  {
    if d < 10 then 48 + d else 65 + (d - 10)
  }

  /** The terminal a marker character selects, if any. */
  function TerminalOf(c: u8): (d: Option<nat>)
    ensures d.Some? ==> d.value < 16
  {
    if 48 <= c <= 57 then Some(c - 48)
    else if 65 <= c <= 70 then Some(c - 55)
    else None
  }

  /** The two-byte escape that switches the host to terminal d. */
  function Marker(d: nat): (m: seq<u8>)
    requires d < 16
    ensures |m| == 2 && m[0] == 0xFF && TerminalOf(m[1]) == Some(d)
  {
    [0xFF, TerminalChar(d)]
  }

  /** `SEGGER_RTT_SetTerminal`: ids from 16 up are ignored; otherwise the id
      becomes active and its marker is written to up-buffer 0. */
  method SetTerminal(cb: ControlBlock, id: u8) returns (cb': ControlBlock)
    requires ValidBlock(cb)
    ensures ValidBlock(cb') && cb'.down == cb.down && |cb'.up| == |cb.up|
    ensures id >= 16 ==> cb' == cb
    ensures id < 16 ==> cb'.activeTerminal == id &&
                        (Free(cb.up[0]) >= 2 ==> Contents(cb'.up[0]) == Contents(cb.up[0]) + Marker(id))
  {
    if id >= 16 {
      return cb;
    }
    var r, _, _ := Write(cb.up[0], Marker(id));
    cb' := cb.(up := cb.up[0 := r], activeTerminal := id);
  }

  /** The marker `SEGGER_RTT_TerminalOut` writes to switch back, as the
      firmware computes it: the branch is chosen by the id written to, not by
      the active terminal whose character is being formed. */
  function RestoreMarkerAsWritten(id: u8, active: u8): (m: seq<u8>)
    requires id < 16
    ensures |m| == 2 && m[0] == 0xFF
    ensures (id < 10) == (active < 10) && active < 16 ==> m == Marker(active)
  {
    [0xFF, if id < 10 then (48 + active) % 256 else (65 + active - 10) % 256]
  }

  /** Terminal 12 active, output to terminal 3: the restore marker carries
      '<' and switches the host to no terminal at all. */
  lemma RestoreMarkerAsWrittenLosesTerminal()
    ensures RestoreMarkerAsWritten(3, 12) == [0xFF, 60]
    ensures TerminalOf(RestoreMarkerAsWritten(3, 12)[1]) == None
    ensures TerminalOf(RestoreMarkerAsWritten(12, 3)[1]) == None
  {
  }

  /** The restore marker as intended: the marker of the active terminal. */
  function RestoreMarker(active: u8): (m: seq<u8>)
    requires active < 16
    ensures |m| == 2 && m[0] == 0xFF && TerminalOf(m[1]) == Some(active as nat)
  {
    Marker(active)
  }

  /** `SEGGER_RTT_TerminalOut` with the intended restore marker: ids from 16
      up give -1 and write nothing; otherwise the string is framed by the
      marker of the target terminal and the marker of the active one, which
      stays active. */
  method TerminalOut(cb: ControlBlock, id: u8, s: Option<seq<u8>>) returns (cb': ControlBlock, ret: int)
    requires ValidBlock(cb) && (s.Some? ==> 0 in s.value && |s.value| < 0x8000_0000)
    ensures ValidBlock(cb') && cb'.down == cb.down && |cb'.up| == |cb.up|
    ensures cb'.activeTerminal == cb.activeTerminal
    ensures id >= 16 ==> cb' == cb && ret == -1
    ensures id < 16 && Free(cb.up[0]) >= 4 + |Text(s)| ==>
              ret == |Text(s)| &&
              Contents(cb'.up[0]) == Contents(cb.up[0]) + Marker(id) + Text(s) + Marker(cb.activeTerminal)
  {
    if id >= 16 {
      return cb, -1;
    }
    var r;
    r, ret := WriteFramed(cb.up[0], id, cb.activeTerminal, s);
    cb' := cb.(up := cb.up[0 := r]);
  }

  /** The three writes of `SEGGER_RTT_TerminalOut` on up-buffer 0: the
      target's marker, the string, and the restore marker. */
  method WriteFramed(r: Ring, id: u8, active: u8, s: Option<seq<u8>>) returns (r': Ring, n: nat)
    requires Valid(r) && id < 16 && active < 16
    requires s.Some? ==> 0 in s.value && |s.value| < 0x8000_0000
    ensures Valid(r') && |r'.data| == |r.data|
    ensures Free(r) >= 4 + |Text(s)| ==>
              n == |Text(s)| && Contents(r') == Contents(r) + Marker(id) + Text(s) + Marker(active)
  {
    var r1, _, _ := Write(r, Marker(id));
    var r2, written, _ := WriteString(r1, s);
    var r3, _, _ := Write(r2, RestoreMarker(active));
    r', n := r3, written;
    if Free(r) >= 4 + |Text(s)| {
      assert Contents(r3) == Contents(r) + Marker(id) + Text(s) + Marker(active);
    }
  }
}
