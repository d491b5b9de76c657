/** Shared vocabulary of the ranging-stack model: optional values, fixed-width
    unsigned integers as subset types, and little-endian byte (de)serialisation. */
module Common {

  datatype Option<+T> = None | Some(value: T)

  const TWO_8: nat := 0x100
  const TWO_16: nat := 0x1_0000
  const TWO_32: nat := 0x1_0000_0000
  const TWO_40: nat := 0x100_0000_0000
  const TWO_64: nat := 0x1_0000_0000_0000_0000

  type u8 = x: int | 0 <= x < 0x100
  type u16 = x: int | 0 <= x < 0x1_0000
  type u32 = x: int | 0 <= x < 0x1_0000_0000
  type u64 = x: int | 0 <= x < 0x1_0000_0000_0000_0000

  /** Truncation to an unsigned machine width, as C does on assignment. */
  function Wrap32(x: int): (r: u32)
    ensures x >= 0 && x < TWO_32 ==> r == x
  {
    x % TWO_32
  }

  function Wrap64(x: int): (r: u64)
    ensures x >= 0 && x < TWO_64 ==> r == x
  {
    x % TWO_64
  }

  /** 256^n, the number of values an n-byte field can hold. */
  function Pow256(n: nat): (r: nat)
    ensures r >= 1
  {
    if n == 0 then 1 else 256 * Pow256(n - 1)
  }

  /** The field widths used by the drivers, in values. */
  lemma PowersOf256()
    ensures Pow256(2) == TWO_16 && Pow256(4) == TWO_32 && Pow256(5) == TWO_40 && Pow256(8) == TWO_64
  {
    assert Pow256(2) == TWO_16;
    assert Pow256(4) == TWO_32;
    assert Pow256(5) == TWO_40;
    assert Pow256(8) == TWO_64;
  }

  /** The unsigned value of a little-endian byte string (least significant byte first). */
  function LeValue(b: seq<u8>): (r: nat)
    ensures r < Pow256(|b|)
  {
    if |b| == 0 then 0 else b[0] + 256 * LeValue(b[1..])
  }

  /** The n least significant bytes of v, least significant first. */
  function LeBytes(v: nat, n: nat): (r: seq<u8>)
    ensures |r| == n
  {
    if n == 0 then [] else [v % 256] + LeBytes(v / 256, n - 1)
  }

  lemma LeBytesStep(v: nat, n: nat)
    requires n > 0
    ensures LeBytes(v, n) == [v % 256] + LeBytes(v / 256, n - 1)
  {
  }

  lemma {:induction false} LeValueOfLeBytes(v: nat, n: nat)
    requires v < Pow256(n)
    ensures LeValue(LeBytes(v, n)) == v
  {
    if n > 0 {
      var b := LeBytes(v, n);
      assert b[1..] == LeBytes(v / 256, n - 1);
      LeValueOfLeBytes(v / 256, n - 1);
    }
  }

  lemma {:induction false} LeBytesOfLeValue(b: seq<u8>)
    ensures LeBytes(LeValue(b), |b|) == b
  {
    if |b| > 0 {
      LeBytesOfLeValue(b[1..]);
      assert LeValue(b) / 256 == LeValue(b[1..]);
    }
  }

  /** The value of a big-endian byte string (most significant byte first). */
  function BeValue(b: seq<u8>): (r: nat)
    ensures r < Pow256(|b|)
  {
    if |b| == 0 then 0 else 256 * BeValue(b[..|b| - 1]) + b[|b| - 1]
  }

  /** The n least significant bytes of v, most significant first. */
  function BeBytes(v: nat, n: nat): (r: seq<u8>)
    ensures |r| == n
  {
    if n == 0 then [] else BeBytes(v / 256, n - 1) + [v % 256]
  }

  lemma {:induction false} BeBytesOfBeValue(b: seq<u8>)
    ensures BeBytes(BeValue(b), |b|) == b
  {
    if |b| > 0 {
      var init := b[..|b| - 1];
      BeBytesOfBeValue(init);
      assert BeValue(b) / 256 == BeValue(init);
      assert init + [b[|b| - 1]] == b;
    }
  }

  /** The bytes in the opposite order. */
  function Reverse(s: seq<u8>): (r: seq<u8>)
    ensures |r| == |s|
    ensures forall k :: 0 <= k < |s| ==> r[k] == s[|s| - 1 - k]
  {
    if |s| == 0 then [] else [s[|s| - 1]] + Reverse(s[..|s| - 1])
  }
}
