/** The number renderers of the debug console
    (software/squarepoint/peripherals/SEGGER_RTT.c, `debug_msg_*`): unsigned
    and signed decimal, one hexadecimal digit, and EUIs in hexadecimal.  Each
    produces the text handed to `SEGGER_RTT_WriteString`; the text is
    specified by its parse back to the number. */
module RttFormat {
  import opened Common

  predicate IsDigit(c: char) { '0' <= c <= '9' }

  function DigitChar(d: nat): (c: char)
    requires d < 10
    ensures IsDigit(c) && c as int - '0' as int == d
  {
    ('0' as int + d) as char
  }

  function DigitValue(c: char): (d: nat)
    requires IsDigit(c)
    ensures d < 10 && DigitChar(d) == c
  {
    c as int - '0' as int
  }

  predicate AllDigits(s: string) {
    forall k :: 0 <= k < |s| ==> IsDigit(s[k])
  }

  /** The value of a string of decimal digits, most significant first. */
  function ParseDecimal(s: string): nat
    requires AllDigits(s)
  {
    if |s| == 0 then 0 else 10 * ParseDecimal(s[..|s| - 1]) + DigitValue(s[|s| - 1])
  }

  /** Canonical decimal text: digits only, no leading zero except "0" itself. */
  predicate Canonical(s: string) {
    |s| >= 1 && AllDigits(s) && (s[0] == '0' ==> |s| == 1)
  }

  /** Decimal text of n: the reference the renderers are held to. */
  function Decimal(n: nat): (s: string)
    ensures Canonical(s) && ParseDecimal(s) == n
  {
    if n < 10 then [DigitChar(n)]
    else
      var s := Decimal(n / 10) + [DigitChar(n % 10)];
      assert s[..|s| - 1] == Decimal(n / 10);
      s
  }

  /** Rendering inverts parsing on canonical text. */
  lemma {:induction false} DecimalOfParse(s: string)
    requires Canonical(s)
    ensures Decimal(ParseDecimal(s)) == s
    decreases |s|
  {
    var n := ParseDecimal(s);
    if |s| == 1 {
    } else {
      var init := s[..|s| - 1];
      assert init[0] == s[0] != '0';
      LeadingNonZero(init);
      DecimalOfParse(init);
      assert n / 10 == ParseDecimal(init) && n % 10 == DigitValue(s[|s| - 1]);
      assert init + [s[|s| - 1]] == s;
    }
  }

  /** A digit string of two or more digits that does not start with '0' has
      a value of at least 10. */
  lemma {:induction false} LeadingNonZero(s: string)
    requires AllDigits(s) && |s| >= 1 && s[0] != '0'
    ensures ParseDecimal(s) >= 1
    ensures |s| >= 2 ==> ParseDecimal(s) >= 10
    decreases |s|
  {
    if |s| >= 2 {
      var init := s[..|s| - 1];
      assert init[0] == s[0];
      LeadingNonZero(init);
    }
  }

  /** The number of decimal digits of n (none for 0). */
  function NumDigits(n: nat): (d: nat)
  {
    if n == 0 then 0 else 1 + NumDigits(n / 10)
  }

  lemma {:induction false} DecimalLength(n: nat)
    requires n > 0
    ensures |Decimal(n)| == NumDigits(n)
  {
    if n >= 10 {
      DecimalLength(n / 10);
    }
  }

  /** n with its last k decimal digits dropped. */
  function Shift(n: nat, k: nat): nat
  {
    if k == 0 then n else Shift(n / 10, k - 1)
  }

  lemma {:induction false} ShiftBound(n: nat, k: nat)
    requires Shift(n, k) == 0
    ensures NumDigits(n) <= k
  {
    if n > 0 {
      ShiftBound(n / 10, k - 1);
    }
  }

  lemma {:induction false} ShiftMonotone(a: nat, b: nat, k: nat)
    requires a <= b
    ensures Shift(a, k) <= Shift(b, k)
  {
    if k > 0 {
      ShiftMonotone(a / 10, b / 10, k - 1);
    }
  }

  lemma {:induction false} ShiftAdd(n: nat, a: nat, b: nat)
    ensures Shift(n, a + b) == Shift(Shift(n, a), b)
  {
    if a > 0 {
      ShiftAdd(n / 10, a - 1, b);
    }
  }

  // ---------------------------------------------------------------------------
  // The firmware's loops

  /** The leading digits of n still to be written once `temp` remains. */
  function Pending(temp: nat): string
  {
    if temp == 0 then [] else Decimal(temp)
  }

  /** `debug_msg_uint` / `debug_msg_uint64` past the zero case: count the
      digits, then fill the character buffer from its end. */
  method UnsignedText(i: nat) returns (s: string)
    ensures s == Decimal(i)
  {
    if i == 0 {
      return "0";
    }
    var temp := i;
    var digits := 0;
    while temp > 0
      invariant NumDigits(temp) + digits == NumDigits(i)
    {
      digits := digits + 1;
      temp := temp / 10;
    }
    s := FillDigits(i, digits);
  }

  /** The second loop: digit `index` from the end is `temp % 10`, with
      `temp` divided by ten after each. */
  method FillDigits(i: nat, digits: nat) returns (msg: string)
    requires digits == NumDigits(i)
    ensures msg == Pending(i)
  {
    msg := seq(digits, _ => '0');
    var temp := i;
    var index := 1;
    while index <= digits
      invariant 1 <= index <= digits + 1 && |msg| == digits
      invariant NumDigits(temp) == digits - (index - 1)
      invariant Pending(temp) + msg[digits - (index - 1)..] == Pending(i)
    {
      PendingStep(temp);
      FillStep(Pending(temp), Pending(temp / 10), DigitChar(temp % 10), msg, digits - index, Pending(i));
      msg := msg[digits - index := DigitChar(temp % 10)];
      temp := temp / 10;
      index := index + 1;
    }
    assert msg[0..] == msg;
  }

  /** Writing the last pending character into its slot keeps the text
      complete: what is pending shrinks by that character. */
  lemma FillStep(pending: string, rest: string, d: char, msg: string, k: nat, whole: string)
    requires pending == rest + [d] && k < |msg| && pending + msg[k + 1..] == whole
    ensures rest + msg[k := d][k..] == whole
  {
    assert msg[k := d][k..] == [d] + msg[k + 1..];
    assert rest + ([d] + msg[k + 1..]) == (rest + [d]) + msg[k + 1..];
  }

  lemma PendingStep(temp: nat)
    requires temp > 0
    ensures Pending(temp) == Pending(temp / 10) + [DigitChar(temp % 10)]
  {
  }

  lemma U32Digits()
    ensures Shift(4294967295, 10) == 0
  {
  }

  lemma U64Digits()
    ensures Shift(18446744073709551615, 20) == 0
  {
    ShiftAdd(18446744073709551615, 10, 10);
    U64High();
    U64Low();
  }

  lemma U64High()
    ensures Shift(18446744073709551615, 10) == 1844674407
  {
  }

  lemma U64Low()
    ensures Shift(1844674407, 10) == 0
  {
  }

  /** `debug_msg_uint`: the text of the value, at most 10 digits. */
  method DebugMsgUint(i: u32) returns (s: string)
    ensures Canonical(s) && ParseDecimal(s) == i && |s| <= 10
  {
    s := UnsignedText(i);
    if i > 0 {
      DecimalLength(i);
      ShiftMonotone(i, 4294967295, 10);
      U32Digits();
      ShiftBound(i, 10);
    }
  }

  /** `debug_msg_uint64`: the text of the value, at most 20 digits. */
  method DebugMsgUint64(i: u64) returns (s: string)
    ensures Canonical(s) && ParseDecimal(s) == i && |s| <= 20
  {
    s := UnsignedText(i);
    if i > 0 {
      DecimalLength(i);
      ShiftMonotone(i, 18446744073709551615, 20);
      U64Digits();
      ShiftBound(i, 20);
    }
  }

  // ---------------------------------------------------------------------------
  // Signed decimal

  const INT32_MIN: int := -0x8000_0000
  type i32 = x: int | INT32_MIN <= x < 0x8000_0000

  /** `~i + 1` on a 32-bit int: negation, except for the most negative
      value.  There `~i` is INT32_MAX and the `+ 1` overflows `int`, which C
      leaves undefined; the model takes the two's-complement wrap that the
      target compiler produces in practice, back to the most negative value. */
  function Negate32(i: i32): (r: i32)
    ensures i != INT32_MIN ==> r == -i
  {
    if i == INT32_MIN then INT32_MIN else -i
  }

  /** Text a leading '-' and canonical digits, read back as a signed value. */
  predicate SignedText(s: string) {
    if |s| >= 1 && s[0] == '-' then Canonical(s[1..]) && s[1..] != "0" else Canonical(s)
  }

  function ParseSigned(s: string): int
    requires SignedText(s)
  {
    if |s| >= 1 && s[0] == '-' then -(ParseDecimal(s[1..]) as int) else ParseDecimal(s)
  }

  /** `debug_msg_int` as the firmware writes it: "-" first for a negative
      value, then the digits of its negation while that is positive.  For
      the most negative value the negation overflows (undefined in C; taken
      here as the wrap of `Negate32`), stays negative, and no digit follows. */
  function DebugMsgIntAsWritten(i: i32): (s: string)
    ensures i != INT32_MIN ==> s == DebugMsgInt(i)
  {
    if i < 0 then
      var m := Negate32(i);
      "-" + (if m > 0 then Decimal(m) else "")
    else Decimal(i)
  }

  /** The firmware prints a lone "-" for -2147483648. */
  lemma DebugMsgIntMinLosesDigits()
    ensures DebugMsgIntAsWritten(INT32_MIN) == "-"
    ensures !SignedText(DebugMsgIntAsWritten(INT32_MIN))
  {
    assert "-"[1..] == "";
  }

  /** `debug_msg_int` as intended: the sign, then the digits of the
      magnitude, so that the text reads back as the value. */
  function DebugMsgInt(i: i32): (s: string)
    ensures SignedText(s) && ParseSigned(s) == i
    ensures |s| <= 11
  {
    var m: nat := if i < 0 then -(i as int) else i;
    var t := if i < 0 then "-" + Decimal(m) else Decimal(m);
    assert i < 0 ==> t[1..] == Decimal(m);
    U32Bound(m);
    t
  }

  lemma U32Bound(n: nat)
    requires n < 0x1_0000_0000
    ensures |Decimal(n)| <= 10
  {
    if n > 0 {
      DecimalLength(n);
      ShiftMonotone(n, 4294967295, 10);
      U32Digits();
      ShiftBound(n, 10);
    }
  }

  // ---------------------------------------------------------------------------
  // Hexadecimal

  /** A nibble as the firmware renders it: '0'..'9', then n + '7' = 'A'..'F'. */
  function NibbleChar(n: nat): (c: char)
    requires n < 16
    ensures NibbleValue(c) == Some(n)
  {
    if n > 9 then (n + 55) as char else (n + 48) as char
  }

  function NibbleValue(c: char): (n: Option<nat>)
    ensures n.Some? ==> n.value < 16
  {
    if '0' <= c <= '9' then Some(c as int - 48)
    else if 'A' <= c <= 'F' then Some(c as int - 55)
    else None
  }

  /** `debug_msg_hex`: one digit character, wrapped to a byte; a zero byte
      ends the string at once and nothing is written. */
  function DebugMsgHex(i: int): (s: string)
    ensures 0 <= i < 16 ==> s == [NibbleChar(i)]
    ensures |s| <= 1 && (|s| == 1 ==> s[0] as int < 256)
  {
    var b := (if i > 9 then 65 + (i - 10) else 48 + i) % 256;
    if b == 0 then [] else [b as char]
  }

  /** The digit `debug_msg_hex` prints names its argument. */
  lemma DebugMsgHexInverse(i: nat)
    requires i < 16
    ensures NibbleValue(DebugMsgHex(i)[0]) == Some(i)
  {
  }

  function ByteOf(hi: nat, lo: nat): (x: u8)
    requires hi < 16 && lo < 16
  {
    16 * hi + lo
  }

  /** The two characters of byte x, high nibble first. */
  function HexPair(x: u8): (t: string)
    ensures |t| == 2
  {
    [NibbleChar(x / 16), NibbleChar(x % 16)]
  }

  function ParsePair(t: string): (r: Option<u8>)
    requires |t| == 2
  {
    var hi, lo := NibbleValue(t[0]), NibbleValue(t[1]);
    if hi.Some? && lo.Some? then Some(ByteOf(hi.value, lo.value)) else None
  }

  lemma PairRoundTrip(x: u8)
    ensures ParsePair(HexPair(x)) == Some(x)
  {
  }

  /** Byte pairs back to back, in the order given. */
  function Hex(bs: seq<u8>): (t: string)
    ensures |t| == 2 * |bs|
  {
    if |bs| == 0 then [] else HexPair(bs[0]) + Hex(bs[1..])
  }

  lemma {:induction false} HexSnoc(bs: seq<u8>, x: u8)
    ensures Hex(bs + [x]) == Hex(bs) + HexPair(x)
  {
    if |bs| > 0 {
      assert (bs + [x])[1..] == bs[1..] + [x];
      HexSnoc(bs[1..], x);
    }
  }

  function ParseHex(t: string): (r: Option<seq<u8>>)
    decreases |t|
  {
    if |t| == 0 then Some([])
    else if |t| == 1 then None
    else
      var first, rest := ParsePair(t[..2]), ParseHex(t[2..]);
      if first.Some? && rest.Some? then Some([first.value] + rest.value) else None
  }

  lemma {:induction false} HexRoundTrip(bs: seq<u8>)
    ensures ParseHex(Hex(bs)) == Some(bs)
  {
    if |bs| > 0 {
      var t := Hex(bs);
      assert t[..2] == HexPair(bs[0]) && t[2..] == Hex(bs[1..]);
      PairRoundTrip(bs[0]);
      HexRoundTrip(bs[1..]);
      assert [bs[0]] + bs[1..] == bs;
    }
  }

  /** "0x" and the bytes from the highest index down: the value of the
      little-endian EUI in fixed-width hexadecimal. */
  function EuiText(b: seq<u8>): (t: string)
    ensures |t| == 2 + 2 * |b|
  {
    "0x" + Hex(Reverse(b))
  }

  /** `debug_msg_eui`: the loop runs `i` down from the top byte while `j`
      counts the character pairs up. */
  method DebugMsgEui(b: seq<u8>) returns (msg: string)
    requires |b| < 128
    ensures msg == EuiText(b)
  {
    var size := |b|;
    var rev := Reverse(b);
    var buf := seq(2 * size, _ => '0');
    var i := size - 1;
    var j := 0;
    while i >= 0
      invariant -1 <= i < size && j == size - 1 - i && |buf| == 2 * size
      invariant buf[..2 * j] == Hex(rev[..j])
    {
      assert rev[..j + 1] == rev[..j] + [b[i]];
      HexSnoc(rev[..j], b[i]);
      PairWritten(buf, 2 * j, b[i]);
      buf := buf[2 * j := NibbleChar(b[i] / 16)][2 * j + 1 := NibbleChar(b[i] % 16)];
      i := i - 1;
      j := j + 1;
    }
    assert rev[..j] == rev && buf[..2 * j] == buf;
    msg := "0x" + buf;
  }

  /** Storing the two digits of x at `pos` extends the prefix before `pos` by its pair. */
  lemma PairWritten(buf: string, pos: nat, x: u8)
    requires pos + 2 <= |buf|
    ensures buf[pos := NibbleChar(x / 16)][pos + 1 := NibbleChar(x % 16)][..pos + 2] == buf[..pos] + HexPair(x)
  {
  }

  /** One pass of `debug_msg_eui_full`: the pair of the next byte and a ':'
      extend the joined text of the bytes before it. */
  lemma EuiFullStep(buf: string, rev: seq<u8>, j: nat, x: u8)
    requires 3 * j + 3 <= |buf| && j < |rev| && rev[j] == x
    requires j >= 1 ==> buf[..3 * j] == Joined(rev[..j]) + ":"
    ensures buf[3 * j := NibbleChar(x / 16)][3 * j + 1 := NibbleChar(x % 16)][3 * j + 2 := ':'][..3 * j + 3] ==
            Joined(rev[..j + 1]) + ":"
  {
    PairAndColonWritten(buf, 3 * j, x);
    assert rev[..j + 1] == rev[..j] + [x];
    if j >= 1 {
      JoinedSnoc(rev[..j], x);
    } else {
      assert rev[..1] == [x];
    }
  }

  lemma PairAndColonWritten(buf: string, pos: nat, x: u8)
    requires pos + 3 <= |buf|
    ensures buf[pos := NibbleChar(x / 16)][pos + 1 := NibbleChar(x % 16)][pos + 2 := ':'][..pos + 3] ==
            buf[..pos] + HexPair(x) + ":"
  {
  }

  /** Reads back the bytes of an EUI text, lowest index first. */
  function ParseEui(t: string): (r: Option<seq<u8>>)
  {
    if |t| < 2 || t[..2] != "0x" then None
    else
      var bs := ParseHex(t[2..]);
      if bs.Some? then Some(Reverse(bs.value)) else None
  }

  lemma ReverseReverse(s: seq<u8>)
    ensures Reverse(Reverse(s)) == s
  {
  }

  lemma EuiRoundTrip(b: seq<u8>)
    ensures ParseEui(EuiText(b)) == Some(b)
  {
    var t := EuiText(b);
    assert t[..2] == "0x" && t[2..] == Hex(Reverse(b));
    HexRoundTrip(Reverse(b));
    ReverseReverse(b);
  }

  /** Byte pairs separated by ':'. */
  function Joined(bs: seq<u8>): (t: string)
    requires |bs| >= 1
    ensures |t| == 3 * |bs| - 1
  {
    if |bs| == 1 then HexPair(bs[0]) else HexPair(bs[0]) + ":" + Joined(bs[1..])
  }

  function ParseJoined(t: string): (r: Option<seq<u8>>)
    decreases |t|
  {
    if |t| == 2 then
      var x := ParsePair(t);
      if x.Some? then Some([x.value]) else None
    else if |t| >= 5 && t[2] == ':' then
      var first, rest := ParsePair(t[..2]), ParseJoined(t[3..]);
      if first.Some? && rest.Some? then Some([first.value] + rest.value) else None
    else None
  }

  lemma {:induction false} JoinedRoundTrip(bs: seq<u8>)
    requires |bs| >= 1
    ensures ParseJoined(Joined(bs)) == Some(bs)
  {
    PairRoundTrip(bs[0]);
    if |bs| > 1 {
      var t := Joined(bs);
      assert t[..2] == HexPair(bs[0]) && t[2] == ':' && t[3..] == Joined(bs[1..]);
      JoinedRoundTrip(bs[1..]);
      assert [bs[0]] + bs[1..] == bs;
    } else {
      assert bs == [bs[0]];
    }
  }

  lemma {:induction false} JoinedSnoc(bs: seq<u8>, x: u8)
    requires |bs| >= 1
    ensures Joined(bs + [x]) == Joined(bs) + ":" + HexPair(x)
  {
    if |bs| == 1 {
      assert (bs + [x])[1..] == [x];
    } else {
      assert (bs + [x])[1..] == bs[1..] + [x];
      JoinedSnoc(bs[1..], x);
    }
  }

  /** Eight bytes from the last down as "XX:XX:...:XX": 23 characters, the
      final separator having been overwritten by the terminator. */
  function EuiFullText(eui: seq<u8>): (t: string)
    requires |eui| == 8
    ensures |t| == 23
  {
    Joined(Reverse(eui))
  }

  /** `debug_msg_eui_full`: each pass writes a pair and a ':'; the last ':'
      becomes the terminator. */
  method DebugMsgEuiFull(eui: seq<u8>) returns (msg: string)
    requires |eui| == 8
    ensures msg == EuiFullText(eui)
  {
    var rev := Reverse(eui);
    var buf := seq(24, _ => '0');
    var i := 7;
    var j := 0;
    while i >= 0
      invariant -1 <= i <= 7 && j == 7 - i && |buf| == 24
      invariant j >= 1 ==> buf[..3 * j] == Joined(rev[..j]) + ":"
    {
      var x := eui[i];
      EuiFullStep(buf, rev, j, x);
      buf := buf[3 * j := NibbleChar(x / 16)][3 * j + 1 := NibbleChar(x % 16)][3 * j + 2 := ':'];
      i := i - 1;
      j := j + 1;
    }
    assert rev[..8] == rev;
    msg := buf[..23];
  }

  /** Reads back the eight bytes, lowest index first. */
  function ParseEuiFull(t: string): (r: Option<seq<u8>>)
  {
    var bs := ParseJoined(t);
    if bs.Some? && |bs.value| == 8 then Some(Reverse(bs.value)) else None
  }

  lemma EuiFullRoundTrip(eui: seq<u8>)
    requires |eui| == 8
    ensures ParseEuiFull(EuiFullText(eui)) == Some(eui)
  {
    JoinedRoundTrip(Reverse(eui));
    ReverseReverse(eui);
  }
}
