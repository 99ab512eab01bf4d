/** Numbers and bytes as text: hexadecimal and decimal, and reading them back. */
module Text {
  import opened LittleEndian
  import opened Wrappers

  function DigitChar(d: nat): char
    requires d < 16
  {
    if d < 10 then ('0' as int + d) as char else ('a' as int + (d - 10)) as char
  }

  function DigitValue(c: char): (r: Option<nat>)
    ensures r.Some? ==> r.value < 16
  {
    if '0' <= c <= '9' then Some(c as int - '0' as int)
    else if 'a' <= c <= 'f' then Some(c as int - 'a' as int + 10)
    else if 'A' <= c <= 'F' then Some(c as int - 'A' as int + 10)
    else None
  }

  lemma DigitRoundTrip(d: nat)
    requires d < 16
    ensures DigitValue(DigitChar(d)) == Some(d)
    ensures d < 10 ==> '0' <= DigitChar(d) <= '9'
  {
  }

  predicate IsHex(s: string) {
    forall i :: 0 <= i < |s| ==> DigitValue(s[i]).Some?
  }

  /** Hex digits without capitals: what toString(16) and toString('hex') write. */
  predicate IsLowerHex(s: string) {
    forall i :: 0 <= i < |s| ==> DigitValue(s[i]).Some? && !('A' <= s[i] <= 'F')
  }

  // ---------------------------------------------------------------- bytes

  /** Buffer.toString('hex') */
  function BytesToHex(bytes: seq<Byte>): (s: string)
    ensures |s| == 2 * |bytes|
  {
    if bytes == [] then [] else [DigitChar(bytes[0] / 16), DigitChar(bytes[0] % 16)] + BytesToHex(bytes[1..])
  }

  /** Buffer.from(s, 'hex'): stops at the first pair that is not two hex digits. */
  function HexToBytes(s: string): seq<Byte> {
    if |s| < 2 || DigitValue(s[0]).None? || DigitValue(s[1]).None? then []
    else [16 * DigitValue(s[0]).value + DigitValue(s[1]).value] + HexToBytes(s[2..])
  }

  /** Hex text gives back the bytes it was written from. */
  lemma {:induction false} HexRoundTrip(bytes: seq<Byte>)
    ensures HexToBytes(BytesToHex(bytes)) == bytes
  {
    if bytes != [] {
      var b := bytes[0];
      DigitRoundTrip(b / 16);
      DigitRoundTrip(b % 16);
      HexRoundTrip(bytes[1..]);
      assert BytesToHex(bytes)[2..] == BytesToHex(bytes[1..]);
      assert 16 * (b / 16) + b % 16 == b;
    }
  }

  // ---------------------------------------------------------------- decimal

  function NatToString(n: nat): (s: string)
    ensures |s| > 0
  {
    if n < 10 then [DigitChar(n)] else NatToString(n / 10) + [DigitChar(n % 10)]
  }

  function ParseNat(s: string): Option<nat> {
    if s == [] then None
    else
      var last := s[|s| - 1];
      if !('0' <= last <= '9') then None
      else if |s| == 1 then Some(last as int - '0' as int)
      else
        match ParseNat(s[..|s| - 1])
        case None => None
        case Some(high) => Some(10 * high + (last as int - '0' as int))
  }

  lemma {:induction false} NatRoundTrip(n: nat)
    ensures ParseNat(NatToString(n)) == Some(n)
    ensures NatToString(n)[0] != '-'
  {
    if n < 10 {
      DigitRoundTrip(n);
    } else {
      NatRoundTrip(n / 10);
      DigitRoundTrip(n % 10);
      var s := NatToString(n);
      assert s[..|s| - 1] == NatToString(n / 10);
    }
  }

  /** BigInt.prototype.toString */
  function IntToString(n: int): string {
    if n < 0 then "-" + NatToString(-n) else NatToString(n)
  }

  /** BigInt(s), for an optional minus sign and decimal digits. */
  function ParseInt(s: string): Option<int> {
    if s != [] && s[0] == '-' then
      match ParseNat(s[1..])
      case None => None
      case Some(n) => Some(-(n as int))
    else
      match ParseNat(s)
      case None => None
      case Some(n) => Some(n as int)
  }

  lemma SignApart(s: string)
    ensures ("-" + s)[0] == '-' && ("-" + s)[1..] == s
  {
  }

  /** Decimal text gives back the integer it was written from. */
  lemma IntRoundTrip(n: int)
    ensures ParseInt(IntToString(n)) == Some(n)
  {
    if n < 0 {
      NatRoundTrip(-n);
      SignApart(NatToString(-n));
    } else {
      NatRoundTrip(n);
    }
  }

  // ---------------------------------------------------------------- hexadecimal numbers

  /** n.toString(16) */
  function HexDigits(n: nat): (s: string)
    ensures |s| > 0 && IsLowerHex(s)
  {
    if n < 16 then [DigitChar(n)] else HexDigits(n / 16) + [DigitChar(n % 16)]
  }

  /** s.padStart(width, '0') */
  function PadStart(s: string, width: nat): string
    decreases width - |s|
  {
    if |s| >= width then s else PadStart("0" + s, width)
  }

  /** Number.parseInt(s, 16), for hex digits */
  function ParseHex(s: string): nat
    requires IsHex(s)
  {
    if s == [] then 0 else 16 * ParseHex(s[..|s| - 1]) + DigitValue(s[|s| - 1]).value
  }

  /** Exactly width digits, the lowest ones of n. */
  function FixedHex(n: nat, width: nat): (s: string)
    ensures |s| == width && IsLowerHex(s)
  {
    if width == 0 then [] else FixedHex(n / 16, width - 1) + [DigitChar(n % 16)]
  }

  function Pow16(k: nat): nat {
    if k == 0 then 1 else 16 * Pow16(k - 1)
  }

  /** Leading zeros go in front. */
  lemma {:induction false} FixedGrows(n: nat, width: nat)
    requires n < Pow16(width)
    ensures FixedHex(n, width + 1) == "0" + FixedHex(n, width)
  {
    if width > 0 { FixedGrows(n / 16, width - 1); }
  }

  /** Padding to a width that has room for n gives all digits of that width. */
  lemma {:induction false} PadIsFixed(n: nat, k: nat, width: nat)
    requires n < Pow16(k) && k <= width
    ensures PadStart(FixedHex(n, k), width) == FixedHex(n, width)
    decreases width - k
  {
    if k < width {
      FixedGrows(n, k);
      PadIsFixed(n, k + 1, width);
    }
  }

  /** The number of digits that n has. */
  lemma {:induction false} DigitsAreFixed(n: nat, width: nat)
    requires n < Pow16(width) && width > 0
    ensures exists k: nat :: 0 < k <= width && n < Pow16(k) && HexDigits(n) == FixedHex(n, k)
  {
    if n < 16 {
      assert FixedHex(n / 16, 0) == [];
      assert HexDigits(n) == FixedHex(n, 1) && Pow16(1) == 16;
    } else {
      DigitsAreFixed(n / 16, width - 1);
      var k: nat :| 0 < k <= width - 1 && n / 16 < Pow16(k) && HexDigits(n / 16) == FixedHex(n / 16, k);
      assert HexDigits(n) == FixedHex(n, k + 1) && n < Pow16(k + 1);
    }
  }

  /** toString(16).padStart(width, '0') */
  lemma PaddedHex(n: nat, width: nat)
    requires n < Pow16(width) && width > 0
    ensures PadStart(HexDigits(n), width) == FixedHex(n, width)
  {
    DigitsAreFixed(n, width);
    var k: nat :| 0 < k <= width && n < Pow16(k) && HexDigits(n) == FixedHex(n, k);
    PadIsFixed(n, k, width);
  }

  lemma {:induction false} ParseFixed(n: nat, width: nat)
    requires n < Pow16(width)
    ensures ParseHex(FixedHex(n, width)) == n
  {
    if width > 0 {
      ParseFixed(n / 16, width - 1);
      DigitRoundTrip(n % 16);
      var s := FixedHex(n, width);
      assert s[..|s| - 1] == FixedHex(n / 16, width - 1);
    }
  }

  lemma CharRoundTrip(c: char)
    requires DigitValue(c).Some? && !('A' <= c <= 'F')
    ensures DigitChar(DigitValue(c).value) == c
  {
  }

  lemma {:induction false} FixedParse(s: string)
    requires IsLowerHex(s)
    ensures ParseHex(s) < Pow16(|s|) && FixedHex(ParseHex(s), |s|) == s
  {
    if s != [] {
      var front, last := s[..|s| - 1], s[|s| - 1];
      FixedParse(front);
      CharRoundTrip(last);
      var high, low := ParseHex(front), DigitValue(last).value;
      assert (16 * high + low) / 16 == high && (16 * high + low) % 16 == low;
      assert s == front + [last];
    }
  }
}
