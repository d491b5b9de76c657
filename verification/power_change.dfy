/** The transmit-power patch script (software/power_change.py): it reads a
    fine-gain change, adds it to the 5-bit fine-gain field of the three stock
    power bytes, prints each byte as an upper-case hexadecimal word repeated
    four times, and rewrites line 42 of the DW1000 driver with the result.
    Console lines arrive already classified as integers or not; the file is a
    sequence of lines. */
module PowerChange {
  import opened Common
  import RttFormat
  import Dw1000Radio

  const STOCK_POWER: seq<u8> := [0x67, 0x8B, 0x85]
  const STOCK_FINE_GAIN: seq<nat> := [0x07, 0x0B, 0x05]

  /** The line `tx_power[3]` sits on, counted from zero. */
  const TX_POWER_LINE: nat := 41

  /** One console line, as `int(input())` sees it. */
  datatype Line = NotAnInteger | Integer(v: int)

  predicate InRange(delta: int) {
    -5 <= delta <= 20
  }

  /** The prompt loop as written: the range message is printed, but the loop
      ends on the first integer whatever its value.  `None` when the input
      runs out first. */
  function PromptAsWritten(inputs: seq<Line>): (r: Option<int>)
    ensures r.Some? <==> exists i :: 0 <= i < |inputs| && inputs[i].Integer?
    ensures r.Some? ==> exists i :: 0 <= i < |inputs| && inputs[i] == Integer(r.value) &&
                                    forall j :: 0 <= j < i ==> inputs[j] == NotAnInteger
  {
    if |inputs| == 0 then None
    else if inputs[0].Integer? then Some(inputs[0].v)
    else
      var r := PromptAsWritten(inputs[1..]);
      assert forall i :: 0 < i < |inputs| ==> inputs[i] == inputs[1..][i - 1];
      r
  }

  /** The prompt loop as intended: an integer outside [-5, 20] is reported
      and asked for again, like a non-integer. */
  function Prompt(inputs: seq<Line>): (r: Option<int>)
    ensures r.Some? <==> exists i :: 0 <= i < |inputs| && inputs[i].Integer? && InRange(inputs[i].v)
    ensures r.Some? ==> InRange(r.value) &&
                        exists i :: 0 <= i < |inputs| && inputs[i] == Integer(r.value) &&
                                    forall j :: 0 <= j < i ==> !(inputs[j].Integer? && InRange(inputs[j].v))
  {
    if |inputs| == 0 then None
    else if inputs[0].Integer? && InRange(inputs[0].v) then Some(inputs[0].v)
    else
      var r := Prompt(inputs[1..]);
      assert forall i :: 0 < i < |inputs| ==> inputs[i] == inputs[1..][i - 1];
      r
  }

  /** When the first integer typed is in range the two loops agree. */
  lemma {:induction false} PromptAgreesInRange(inputs: seq<Line>)
    requires PromptAsWritten(inputs).Some? && InRange(PromptAsWritten(inputs).value)
    ensures Prompt(inputs) == PromptAsWritten(inputs)
  {
    if !inputs[0].Integer? {
      PromptAgreesInRange(inputs[1..]);
    }
  }

  // ---------------------------------------------------------------------------
  // Python's `|` on arbitrary-precision integers

  /** Bitwise or of two naturals. */
  function Or(a: nat, b: nat): (r: nat)
    ensures a == 0 ==> r == b
    decreases a + b
  {
    if a == 0 then b
    else if b == 0 then a
    else 2 * Or(a / 2, b / 2) + (if a % 2 == 1 || b % 2 == 1 then 1 else 0)
  }

  /** The bits of x that are not set in a (`x & ~a`). */
  function AndNot(x: nat, a: nat): (r: nat)
    ensures r <= x
    decreases x
  {
    if x == 0 then 0
    else 2 * AndNot(x / 2, a / 2) + (if x % 2 == 1 && a % 2 == 0 then 1 else 0)
  }

  /** `a | b` with b of either sign: for negative b, two's complement gives
      `~(~b & ~a)`, and `~b` is the natural -1 - b. */
  function PyOr(a: nat, b: int): (r: int)
    ensures b >= 0 ==> r >= 0
    ensures b < 0 ==> r < 0
  {
    if b >= 0 then Or(a, b) else -1 - AndNot(-1 - b, a)
  }

  function Pow2(k: nat): (r: nat)
    ensures r >= 1
  {
    if k == 0 then 1 else 2 * Pow2(k - 1)
  }

  /** Or of operands whose set bits cannot overlap is their sum: here the
      first is a multiple of 2^k and the second is below 2^k. */
  lemma {:induction false} OrDisjoint(q: nat, b: nat, k: nat)
    requires b < Pow2(k)
    ensures Or(q * Pow2(k), b) == q * Pow2(k) + b
  {
    var a := q * Pow2(k);
    if k > 0 && a != 0 && b != 0 {
      var p := Pow2(k - 1);
      assert Pow2(k) == 2 * p;
      assert a == 2 * (q * p);
      assert a / 2 == q * p && a % 2 == 0;
      assert b / 2 < p;
      OrDisjoint(q, b / 2, k - 1);
      assert Or(a, b) == 2 * Or(q * p, b / 2) + b % 2;
    } else if k == 0 {
      assert a != 0 ==> b == 0;
    }
  }

  // ---------------------------------------------------------------------------
  // The new power bytes

  /** `stock_power[i] & 0b11100000`: the coarse-gain and mixer bits. */
  function CoarseBits(x: u8): (r: nat)
    ensures r % 32 == 0 && r <= x && x - r < 32
  {
    x / 32 * 32
  }

  /** `stock_power[i]` after the update, for the change `delta`. */
  function NewPower(i: nat, delta: int): (p: int)
    requires i < 3
  {
    PyOr(CoarseBits(STOCK_POWER[i]), STOCK_FINE_GAIN[i] + delta)
  }

  /** An in-range change keeps the upper three bits of every stock byte and
      sets the lower five to the shifted fine gain; the result is at least
      0x60, so it always prints as two hexadecimal digits. */
  lemma InRangeKeepsCoarseGain(i: nat, delta: int)
    requires i < 3 && InRange(delta)
    ensures 0x60 <= NewPower(i, delta) < 0x100
    ensures NewPower(i, delta) / 32 == STOCK_POWER[i] / 32
    ensures NewPower(i, delta) % 32 == STOCK_FINE_GAIN[i] + delta
  {
    var q, b := STOCK_POWER[i] / 32, STOCK_FINE_GAIN[i] + delta;
    StockLayout(i);
    NewPowerIsSum(i, delta);
    SplitAt32(q, b);
  }

  /** With a non-negative fine gain the Or adds the two disjoint parts. */
  lemma NewPowerIsSum(i: nat, delta: int)
    requires i < 3 && 0 <= STOCK_FINE_GAIN[i] + delta < 32
    ensures NewPower(i, delta) == STOCK_POWER[i] / 32 * 32 + STOCK_FINE_GAIN[i] + delta
  {
    assert Pow2(5) == 32;
    OrDisjoint(STOCK_POWER[i] / 32, STOCK_FINE_GAIN[i] + delta, 5);
  }

  /** The stock fine gains are the low five bits of the stock power bytes,
      whose coarse parts are 3 or 4, and every fine gain leaves room for the
      largest accepted change. */
  lemma StockLayout(i: nat)
    requires i < 3
    ensures STOCK_POWER[i] % 32 == STOCK_FINE_GAIN[i]
    ensures 3 <= STOCK_POWER[i] / 32 <= 4
    ensures 5 <= STOCK_FINE_GAIN[i] && STOCK_FINE_GAIN[i] + 20 < 32
  {
    if i == 0 {
      assert STOCK_POWER[0] == 0x67 && STOCK_FINE_GAIN[0] == 7;
    } else if i == 1 {
      assert STOCK_POWER[1] == 0x8B && STOCK_FINE_GAIN[1] == 11;
    } else {
      assert STOCK_POWER[2] == 0x85 && STOCK_FINE_GAIN[2] == 5;
    }
  }

  lemma SplitAt32(q: nat, b: nat)
    requires b < 32
    ensures (q * 32 + b) / 32 == q && (q * 32 + b) % 32 == b
  {
  }

  /** Without a change the script reproduces the stock bytes. */
  lemma ZeroChangeIsStock(i: nat)
    requires i < 3
    ensures NewPower(i, 0) == STOCK_POWER[i]
  {
    InRangeKeepsCoarseGain(i, 0);
    var p, stock := NewPower(i, 0), STOCK_POWER[i];
    StockLayout(i);
    assert p == 32 * (p / 32) + p % 32;
    assert stock == 32 * (stock / 32) + stock % 32;
  }

  // ---------------------------------------------------------------------------
  // Formatting

  /** The digits of `f"{n:X}"` for a natural n. */
  function HexDigits(n: nat): (s: string)
    ensures |s| >= 1
    ensures n >= 16 ==> |s| >= 2
    ensures n < 256 ==> |s| <= 2
    ensures RttFormat.NibbleValue(s[0]).Some?
  {
    if n < 16 then [RttFormat.NibbleChar(n)]
    else HexDigits(n / 16) + [RttFormat.NibbleChar(n % 16)]
  }

  /** `f"{x:X}"`: a minus sign for negative values. */
  function UpperHex(x: int): (s: string)
    ensures |s| >= 1
    ensures x < 0 <==> s[0] == '-'
  {
    if x < 0 then "-" + HexDigits(-x) else HexDigits(x)
  }

  /** The value of a string of upper-case hexadecimal digits, read from the
      left with `acc` as the value of the digits before it. */
  function HexValueFrom(acc: nat, s: string): (v: Option<nat>)
    decreases |s|
  {
    if |s| == 0 then Some(acc)
    else
      var d := RttFormat.NibbleValue(s[0]);
      if d.None? then None else HexValueFrom(16 * acc + d.value, s[1..])
  }

  function HexValue(s: string): (v: Option<nat>)
  {
    HexValueFrom(0, s)
  }

  /** Reading a concatenation reads the second part on from the value of the first. */
  lemma {:induction false} HexValueFromAppend(acc: nat, a: string, b: string)
    ensures HexValueFrom(acc, a + b) ==
            (if HexValueFrom(acc, a).Some? then HexValueFrom(HexValueFrom(acc, a).value, b) else None)
    decreases |a|
  {
    if |a| == 0 {
      assert a + b == b;
    } else {
      assert (a + b)[0] == a[0] && (a + b)[1..] == a[1..] + b;
      var d := RttFormat.NibbleValue(a[0]);
      if d.Some? {
        HexValueFromAppend(16 * acc + d.value, a[1..], b);
      }
    }
  }

  lemma {:induction false} HexValueOfDigits(n: nat)
    ensures HexValue(HexDigits(n)) == Some(n)
  {
    var s := HexDigits(n);
    if n < 16 {
      assert s[1..] == [];
      assert HexValueFrom(n, s[1..]) == Some(n);
    } else {
      var c := RttFormat.NibbleChar(n % 16);
      HexValueOfDigits(n / 16);
      HexValueFromAppend(0, HexDigits(n / 16), [c]);
      assert [c][1..] == [];
      assert HexValueFrom(n, [c][1..]) == Some(n);
    }
  }

  /** Two more digits multiply the value read so far by 256 and add their own value. */
  lemma HexValueFromPair(v: nat, s: string)
    requires |s| == 2 && HexValue(s).Some?
    ensures HexValueFrom(v, s) == Some(256 * v + HexValue(s).value)
  {
    var rest := s[1..];
    assert rest[0] == s[1] && |rest[1..]| == 0;
    var dh, dl := RttFormat.NibbleValue(s[0]), RttFormat.NibbleValue(s[1]);
    // Unfolding the reading of `s` from 0 shows both characters are digits.
    assert HexValueFrom(0, s) == (if dh.None? then None else HexValueFrom(dh.value, rest));
    assert dh.Some?;
    assert HexValueFrom(dh.value, rest) ==
           (if dl.None? then None else HexValueFrom(16 * dh.value + dl.value, rest[1..]));
    assert dl.Some?;
    assert HexValue(s) == Some(16 * dh.value + dl.value);
    // The same two unfoldings from `v`.
    assert HexValueFrom(v, s) == HexValueFrom(16 * v + dh.value, rest);
    assert HexValueFrom(16 * v + dh.value, rest) ==
           HexValueFrom(16 * (16 * v + dh.value) + dl.value, rest[1..]);
  }

  function Repeat4(s: string): (r: string)
    ensures |r| == 4 * |s|
  {
    s + s + s + s
  }

  /** `"0x" + string * 4 + "UL"`. */
  function Word(x: int): (w: string)
    ensures |w| >= 8 && w[..2] == "0x" && w[|w| - 2..] == "UL"
  {
    "0x" + Repeat4(UpperHex(x)) + "UL"
  }

  /** The value of a word of the shape `0x<hex>UL`. */
  function WordValue(w: string): (v: Option<nat>)
  {
    if |w| < 4 || w[..2] != "0x" || w[|w| - 2..] != "UL" then None else HexValue(w[2..|w| - 2])
  }

  /** A two-digit byte written four times is the 32-bit word with that byte
      in every position, which is how `tx_power[]` is laid out. */
  lemma WordOfByte(b: nat)
    requires 16 <= b < 256
    ensures WordValue(Word(b)) == Some(b * 0x0101_0101)
  {
    var s := UpperHex(b);
    HexValueOfDigits(b);
    assert |s| == 2;
    var w := Word(b);
    assert w[2..|w| - 2] == s + s + s + s;
    HexValueFromAppend(0, s + s + s, s);
    HexValueFromAppend(0, s + s, s);
    HexValueFromAppend(0, s, s);
    HexValueFromPair(b, s);
    HexValueFromPair(b * 0x101, s);
    HexValueFromPair(b * 0x1_0101, s);
  }

  /** `output` after the formatting loop: the three words separated by ", ". */
  function Output(delta: int): (s: string)
  {
    Word(NewPower(0, delta)) + ", " + Word(NewPower(1, delta)) + ", " + Word(NewPower(2, delta))
  }

  /** The replacement for line 42 of the driver. */
  function ConfigLine(output: string): (l: string)
  {
    "const uint32_t tx_power[3] = { " + output + " };\n"
  }

  /** `lines[41] = ...`: `None` stands for the IndexError of a file with
      fewer than 42 lines. */
  function ReplaceLine(lines: seq<string>, line: string): (r: Option<seq<string>>)
    ensures r.Some? <==> |lines| > TX_POWER_LINE
    ensures r.Some? ==> |r.value| == |lines| && r.value[TX_POWER_LINE] == line &&
                        forall j :: 0 <= j < |lines| && j != TX_POWER_LINE ==> r.value[j] == lines[j]
  {
    if |lines| > TX_POWER_LINE then Some(lines[TX_POWER_LINE := line]) else None
  }

  /** The script end to end, with the prompt as written: the new file, or
      `None` when the input runs out or the file is too short. */
  function RunAsWritten(inputs: seq<Line>, lines: seq<string>): (r: Option<seq<string>>)
    ensures r.Some? <==> PromptAsWritten(inputs).Some? && |lines| > TX_POWER_LINE
    ensures r.Some? ==> |r.value| == |lines| &&
                        r.value[TX_POWER_LINE] == ConfigLine(Output(PromptAsWritten(inputs).value)) &&
                        forall j :: 0 <= j < |lines| && j != TX_POWER_LINE ==> r.value[j] == lines[j]
  {
    var d := PromptAsWritten(inputs);
    if d.None? then None else ReplaceLine(lines, ConfigLine(Output(d.value)))
  }

  /** The script with the corrected prompt. */
  function Run(inputs: seq<Line>, lines: seq<string>): (r: Option<seq<string>>)
    ensures r.Some? <==> Prompt(inputs).Some? && |lines| > TX_POWER_LINE
    ensures r.Some? ==> InRange(Prompt(inputs).value) && |r.value| == |lines| &&
                        r.value[TX_POWER_LINE] == ConfigLine(Output(Prompt(inputs).value)) &&
                        forall j :: 0 <= j < |lines| && j != TX_POWER_LINE ==> r.value[j] == lines[j]
  {
    var d := Prompt(inputs);
    if d.None? then None else ReplaceLine(lines, ConfigLine(Output(d.value)))
  }

  /** Every word the corrected script writes is a genuine `tx_power` value:
      the stock coarse bits, the shifted fine gain, in all four bytes. */
  lemma RunWritesPowerWords(inputs: seq<Line>, i: nat)
    requires Prompt(inputs).Some? && i < 3
    ensures var d := Prompt(inputs).value;
            var p := NewPower(i, d);
            p / 32 == STOCK_POWER[i] / 32 && p % 32 == STOCK_FINE_GAIN[i] + d &&
            WordValue(Word(p)) == Some(p * 0x0101_0101)
  {
    var d := Prompt(inputs).value;
    InRangeKeepsCoarseGain(i, d);
    WordOfByte(NewPower(i, d));
  }

  /** With no change the words written are the driver's own `tx_power[]`. */
  lemma ZeroChangeMatchesDriver(i: nat)
    requires i < 3
    ensures WordValue(Word(NewPower(i, 0))) == Some(Dw1000Radio.TX_POWER[i])
  {
    ZeroChangeIsStock(i);
    WordOfByte(STOCK_POWER[i]);
  }

  /** The prompt as written lets 30 through; the last byte's fine gain then
      overflows into bit 5 and the coarse-gain field changes from 0b100 to
      0b101, giving 0xA3A3A3A3 instead of a 0x8x power. */
  lemma OutOfRangeCorruptsCoarseGain()
    ensures PromptAsWritten([Integer(30)]) == Some(30)
    ensures Prompt([Integer(30)]) == None
    ensures NewPower(2, 30) == 0xA3
    ensures NewPower(2, 30) / 32 != STOCK_POWER[2] / 32
  {
    assert Pow2(6) == 64;
    OrDisjoint(2, 35, 6);
  }
}
