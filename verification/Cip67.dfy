/** CIP-67 asset name labels: a bracketed, checksummed number in front of an asset name. */
module Cip67 {
  import opened Bitvectors
  import opened Crc8
  import opened LittleEndian
  import opened Text
  import opened Wrappers

  datatype Error = OutOfRange | NotHex | TooLong

  /** Hex digits without capitals, at most 32 bytes of them. */
  type AssetName = s: string | IsLowerHex(s) && |s| <= 64 witness ""

  datatype Decoded = Decoded(labelNum: nat, content: AssetName)

  function LowerChar(c: char): char {
    if 'A' <= c <= 'F' then (c as int - 'A' as int + 'a' as int) as char else c
  }

  /** toLowerCase, for hex digits */
  function Lower(s: string): (r: string)
    ensures |r| == |s|
    ensures IsHex(s) ==> IsLowerHex(r)
    ensures IsLowerHex(s) ==> r == s
    ensures forall i :: 0 <= i < |s| ==> DigitValue(r[i]) == DigitValue(s[i])
  {
    seq(|s|, i requires 0 <= i < |s| => LowerChar(s[i]))
  }

  /** AssetName(value) */
  function MakeAssetName(value: string): Result<AssetName, Error> {
    if !IsHex(value) then Err(NotHex)
    else if |value| > 64 then Err(TooLong)
    else Ok(Lower(value))
  }

  function ToBits(bytes: seq<Byte>): seq<bv8> {
    seq(|bytes|, i requires 0 <= i < |bytes| => bytes[i] as bv8)
  }

  function CrcOf(bytes: seq<Byte>): Byte {
    Crc(ToBits(bytes), 0) as nat
  }

  function Checksum(labelNumHex: string): string {
    PadStart(HexDigits(CrcOf(HexToBytes(labelNumHex))), 2)
  }

  function Encode(assetName: string, labelNum: int): Result<AssetName, Error> {
    if labelNum < 0 || labelNum > 65535 then Err(OutOfRange)
    else
      var labelNumHex := PadStart(HexDigits(labelNum), 4);
      MakeAssetName("0" + labelNumHex + Checksum(labelNumHex) + "0" + assetName)
  }

  function LabelHexToNum(front: AssetName): Option<nat> {
    if |front| != 8 then None
    else if front[0] != '0' || front[7] != '0' then None
    else if front[5..7] != Checksum(front[1..5]) then None
    else Some(ParseHex(front[1..5]))
  }

  /** name.slice(0, k) */
  function Take(name: AssetName, k: nat): AssetName {
    if |name| < k then name else name[..k]
  }

  function Drop(name: AssetName, k: nat): AssetName {
    if |name| < k then "" else name[k..]
  }

  function Decode(assetName: AssetName): Result<Option<Decoded>, Error> {
    match LabelHexToNum(Take(assetName, 8))
    case None => Ok(None)
    case Some(labelNum) =>
      match MakeAssetName(Drop(assetName, 8))
      case Err(e) => Err(e)
      case Ok(content) => Ok(Some(Decoded(labelNum, content)))
  }

  // ---------------------------------------------------------------- round trips

  /** The eight digits in front of an encoded name. */
  function Label(n: nat): string {
    "0" + FixedHex(n, 4) + Checksum(FixedHex(n, 4)) + "0"
  }

  lemma ChecksumShape(hex: string)
    ensures |Checksum(hex)| == 2 && IsLowerHex(Checksum(hex))
  {
    assert Pow16(1) == 16 && Pow16(2) == 256;
    PaddedHex(CrcOf(HexToBytes(hex)), 2);
  }

  lemma BracketedShape(hex: string, sum: string)
    requires |hex| == 4 && |sum| == 2 && IsLowerHex(hex) && IsLowerHex(sum)
    ensures var all := "0" + hex + sum + "0";
            && |all| == 8 && IsLowerHex(all) && all[0] == '0' == all[7]
            && all[1..5] == hex && all[5..7] == sum
  {
  }

  lemma LabelShape(n: nat)
    ensures |Label(n)| == 8 && IsLowerHex(Label(n))
    ensures Label(n)[0] == '0' == Label(n)[7]
    ensures Label(n)[1..5] == FixedHex(n, 4) && Label(n)[5..7] == Checksum(FixedHex(n, 4))
  {
    ChecksumShape(FixedHex(n, 4));
    BracketedShape(FixedHex(n, 4), Checksum(FixedHex(n, 4)));
  }

  lemma Pow16Of4()
    ensures Pow16(4) == 65536
  {
  }

  lemma HexParts(front: string, content: string)
    requires IsLowerHex(front)
    ensures IsHex(front + content) <==> IsHex(content)
    ensures Lower(front + content) == front + Lower(content)
  {
    var all := front + content;
    if IsHex(all) {
      forall i | 0 <= i < |content|
        ensures DigitValue(content[i]).Some?
      {
        assert all[|front| + i] == content[i];
      }
    }
    forall i | 0 <= i < |all|
      ensures Lower(all)[i] == (front + Lower(content))[i]
    {
      if i < |front| { assert Lower(front)[i] == front[i]; }
    }
  }

  /** Exactly when a label fits in 16 bits and the content is hex and leaves room, the name is label then content. */
  lemma EncodeIs(content: string, labelNum: int)
    ensures Encode(content, labelNum).Ok? <==> 0 <= labelNum <= 65535 && IsHex(content) && |content| <= 56
    ensures Encode(content, labelNum).Ok? ==> Encode(content, labelNum).value == Label(labelNum) + Lower(content)
  {
    if 0 <= labelNum <= 65535 {
      Pow16Of4();
      PaddedHex(labelNum, 4);
      LabelShape(labelNum);
      var all := Label(labelNum) + content;
      assert all == "0" + FixedHex(labelNum, 4) + Checksum(FixedHex(labelNum, 4)) + "0" + content;
      HexParts(Label(labelNum), content);
    }
  }

  /** The byte that two hex digits write. */
  function ByteOf(a: string): Byte
    requires |a| == 2 && IsHex(a)
  {
    16 * DigitValue(a[0]).value + DigitValue(a[1]).value
  }

  lemma TwoDigits(n: nat)
    requires n < 256
    ensures ByteOf(FixedHex(n, 2)) == n
  {
    assert FixedHex(n / 16, 1) == FixedHex(n / 16 / 16, 0) + [DigitChar(n / 16 % 16)];
    assert FixedHex(n, 2) == [DigitChar(n / 16 % 16), DigitChar(n % 16)];
    DigitRoundTrip(n / 16 % 16);
    DigitRoundTrip(n % 16);
  }

  lemma {:induction false} LowDigits(n: nat, width: nat)
    ensures FixedHex(n, width + 2) == FixedHex(n / 256, width) + FixedHex(n % 256, 2)
  {
    var low := n % 256;
    assert n / 16 / 16 == n / 256 && low / 16 % 16 == n / 16 % 16 && low % 16 == n % 16;
    assert FixedHex(low / 16, 1) == FixedHex(low / 16 / 16, 0) + [DigitChar(low / 16 % 16)];
    assert FixedHex(low, 2) == [DigitChar(low / 16 % 16), DigitChar(low % 16)];
    assert FixedHex(n / 16, width + 1) == FixedHex(n / 256, width) + [DigitChar(n / 16 % 16)];
    assert FixedHex(n, width + 2) == FixedHex(n / 16, width + 1) + [DigitChar(n % 16)];
  }

  lemma TwoBytes(hex: string)
    requires |hex| == 4 && IsLowerHex(hex)
    ensures HexToBytes(hex) == [ByteOf(hex[..2]), ByteOf(hex[2..])]
  {
    var rest := hex[2..];
    assert rest[2..] == [] && HexToBytes(rest[2..]) == [];
    assert HexToBytes(rest) == [ByteOf(rest)] + [];
  }

  lemma LabelBytes(n: nat)
    requires n <= 65535
    ensures HexToBytes(FixedHex(n, 4)) == [n / 256, n % 256]
  {
    LowDigits(n, 2);
    var hex := FixedHex(n, 4);
    assert hex[..2] == FixedHex(n / 256, 2) && hex[2..] == FixedHex(n % 256, 2);
    TwoBytes(hex);
    TwoDigits(n / 256);
    TwoDigits(n % 256);
  }

  /** The digits of a label: its number, and the CRC-8 of the two bytes of the number, high byte first. */
  lemma LabelIs(n: nat)
    requires n <= 65535
    ensures Label(n) == "0" + FixedHex(n, 4) + FixedHex(Crc([(n / 256) as bv8, (n % 256) as bv8], 0) as nat, 2) + "0"
  {
    LabelBytes(n);
    assert ToBits([n / 256, n % 256]) == [(n / 256) as bv8, (n % 256) as bv8];
    assert Pow16(1) == 16 && Pow16(2) == 256;
    PaddedHex(CrcOf([n / 256, n % 256]), 2);
  }

  lemma TwoParts(name: AssetName, front: string, back: string)
    requires |front| == 8 && name == front + back
    ensures Take(name, 8) == front && Drop(name, 8) == back
  {
  }

  lemma LabelRead(labelNum: nat)
    requires labelNum <= 65535
    ensures IsLowerHex(Label(labelNum)) && |Label(labelNum)| == 8
    ensures LabelHexToNum(Label(labelNum)) == Some(labelNum)
  {
    LabelShape(labelNum);
    Pow16Of4();
    ParseFixed(labelNum, 4);
  }

  lemma DecodeIs(name: AssetName)
    ensures Decode(name) == match LabelHexToNum(Take(name, 8))
                            case None => Ok(None)
                            case Some(n) => Ok(Some(Decoded(n, Drop(name, 8))))
  {
  }

  /** What was encoded is decoded again: the label, and the content without capitals. */
  lemma DecodeEncoded(content: string, labelNum: nat)
    requires labelNum <= 65535 && IsHex(content) && |content| <= 56
    ensures Encode(content, labelNum).Ok?
    ensures Decode(Encode(content, labelNum).value) == Ok(Some(Decoded(labelNum, Lower(content))))
  {
    EncodeIs(content, labelNum);
    LabelRead(labelNum);
    var name := Encode(content, labelNum).value;
    TwoParts(name, Label(labelNum), Lower(content));
    DecodeIs(name);
  }

  lemma EightDigits(front: string)
    requires |front| == 8
    ensures front == [front[0]] + front[1..5] + front[5..7] + [front[7]]
  {
  }

  /** Eight digits that are read as a number are the label of that number. */
  lemma LabelWritten(front: AssetName)
    requires LabelHexToNum(front).Some?
    ensures LabelHexToNum(front).value <= 65535 && front == Label(LabelHexToNum(front).value)
  {
    var hex := front[1..5];
    FixedParse(hex);
    Pow16Of4();
    EightDigits(front);
  }

  lemma Rebuilt(name: AssetName, labelNum: nat)
    requires |name| >= 8 && labelNum <= 65535 && Take(name, 8) == Label(labelNum)
    ensures Encode(Drop(name, 8), labelNum) == Ok(name)
  {
    EncodeIs(Drop(name, 8), labelNum);
    assert name == Take(name, 8) + Drop(name, 8);
  }

  /** Decoding an asset name throws nothing, and what is decoded encodes to the name it came from. */
  lemma EncodeDecoded(name: AssetName)
    ensures Decode(name).Ok?
    ensures Decode(name).value.Some? ==>
              var d := Decode(name).value.value;
              d.labelNum <= 65535 && Encode(d.content, d.labelNum) == Ok(name)
  {
    DecodeIs(name);
    if LabelHexToNum(Take(name, 8)).Some? {
      LabelWritten(Take(name, 8));
      var n := LabelHexToNum(Take(name, 8)).value;
      Rebuilt(name, n);
    }
  }

  /** Decoding recognises exactly the names that encoding makes. */
  lemma DecodesIffEncoded(name: AssetName)
    ensures Decode(name).Ok?
    ensures Decode(name).value.Some? <==>
      exists content: AssetName, labelNum: nat :: Encode(content, labelNum) == Ok(name)
  {
    EncodeDecoded(name);
    if content: AssetName, labelNum: nat :| Encode(content, labelNum) == Ok(name) {
      EncodeIs(content, labelNum);
      DecodeEncoded(content, labelNum);
    }
  }

  // ---------------------------------------------------------------- what the checksum catches

  lemma ByteOfInjective(a: string, b: string)
    requires |a| == |b| == 2 && IsLowerHex(a) && IsLowerHex(b) && ByteOf(a) == ByteOf(b)
    ensures a == b
  {
  }

  function BitsOf(a: string): bv8
    requires |a| == 2 && IsHex(a)
  {
    ByteOf(a) as bv8
  }

  lemma SameBits(a: string, b: string)
    requires |a| == |b| == 2 && IsLowerHex(a) && IsLowerHex(b)
    ensures BitsOf(a) == BitsOf(b) <==> a == b
  {
    BitsInjective(ByteOf(a), ByteOf(b));
    if ByteOf(a) == ByteOf(b) { ByteOfInjective(a, b); }
  }

  lemma TwoBits(hex: string)
    requires |hex| == 4 && IsLowerHex(hex)
    ensures ToBits(HexToBytes(hex)) == [BitsOf(hex[..2]), BitsOf(hex[2..])]
  {
    TwoBytes(hex);
  }

  lemma SameTwoDigits(n1: nat, n2: nat)
    requires n1 < 256 && n2 < 256 && PadStart(HexDigits(n1), 2) == PadStart(HexDigits(n2), 2)
    ensures n1 == n2
  {
    assert Pow16(1) == 16 && Pow16(2) == 256;
    PaddedHex(n1, 2);
    PaddedHex(n2, 2);
    ParseFixed(n1, 2);
    ParseFixed(n2, 2);
  }

  lemma ChecksumInjective(hex1: string, hex2: string)
    requires Checksum(hex1) == Checksum(hex2)
    ensures CrcOf(HexToBytes(hex1)) == CrcOf(HexToBytes(hex2))
  {
    SameTwoDigits(CrcOf(HexToBytes(hex1)), CrcOf(HexToBytes(hex2)));
  }

  lemma OneHalfDiffers(hex1: string, hex2: string)
    requires |hex1| == |hex2| == 4 && hex1 != hex2 && (hex1[..2] == hex2[..2] || hex1[2..] == hex2[2..])
    ensures (hex1[..2] == hex2[..2]) != (hex1[2..] == hex2[2..])
  {
    assert hex1 == hex1[..2] + hex1[2..] && hex2 == hex2[..2] + hex2[2..];
  }

  lemma OneByteDiffers(hex1: string, hex2: string)
    requires |hex1| == |hex2| == 4 && IsLowerHex(hex1) && IsLowerHex(hex2) && hex1 != hex2
    requires hex1[..2] == hex2[..2] || hex1[2..] == hex2[2..]
    ensures var m1, m2 := ToBits(HexToBytes(hex1)), ToBits(HexToBytes(hex2));
            |m1| == |m2| == 2 && ((m1[0] == m2[0]) != (m1[1] == m2[1]))
  {
    TwoBits(hex1);
    TwoBits(hex2);
    OneHalfDiffers(hex1, hex2);
    SameBits(hex1[..2], hex2[..2]);
    SameBits(hex1[2..], hex2[2..]);
  }

  lemma OtherCrc(m1: seq<bv8>, m2: seq<bv8>)
    requires |m1| == |m2| == 2 && ((m1[0] == m2[0]) != (m1[1] == m2[1]))
    ensures Crc(m1, 0) as nat != Crc(m2, 0) as nat
  {
    OneByteChange(m1, m2, if m1[0] == m2[0] then 1 else 0, 0);
    OtherNumber(Crc(m1, 0), Crc(m2, 0));
  }

  /** Changing one of the two bytes of a label number changes its checksum. */
  lemma ChecksumCatches(hex1: string, hex2: string)
    requires |hex1| == |hex2| == 4 && IsLowerHex(hex1) && IsLowerHex(hex2) && hex1 != hex2
    requires hex1[..2] == hex2[..2] || hex1[2..] == hex2[2..]
    ensures Checksum(hex1) != Checksum(hex2)
  {
    if Checksum(hex1) == Checksum(hex2) {
      ChecksumInjective(hex1, hex2);
      OneByteDiffers(hex1, hex2);
      OtherCrc(ToBits(HexToBytes(hex1)), ToBits(HexToBytes(hex2)));
    }
  }
}
