/** CRC-8 with polynomial 0x07: the table-driven loop computes the remainder of long division. */
module Crc8 {
  import opened Division

  // ---------------------------------------------------------------- the table and the loop

  const ROW0: seq<bv8> :=
    [0x00, 0x07, 0x0e, 0x09, 0x1c, 0x1b, 0x12, 0x15, 0x38, 0x3f, 0x36, 0x31, 0x24, 0x23, 0x2a, 0x2d]
  const ROW1: seq<bv8> :=
    [0x70, 0x77, 0x7e, 0x79, 0x6c, 0x6b, 0x62, 0x65, 0x48, 0x4f, 0x46, 0x41, 0x54, 0x53, 0x5a, 0x5d]
  const ROW2: seq<bv8> :=
    [0xe0, 0xe7, 0xee, 0xe9, 0xfc, 0xfb, 0xf2, 0xf5, 0xd8, 0xdf, 0xd6, 0xd1, 0xc4, 0xc3, 0xca, 0xcd]
  const ROW3: seq<bv8> :=
    [0x90, 0x97, 0x9e, 0x99, 0x8c, 0x8b, 0x82, 0x85, 0xa8, 0xaf, 0xa6, 0xa1, 0xb4, 0xb3, 0xba, 0xbd]
  const ROW4: seq<bv8> :=
    [0xc7, 0xc0, 0xc9, 0xce, 0xdb, 0xdc, 0xd5, 0xd2, 0xff, 0xf8, 0xf1, 0xf6, 0xe3, 0xe4, 0xed, 0xea]
  const ROW5: seq<bv8> :=
    [0xb7, 0xb0, 0xb9, 0xbe, 0xab, 0xac, 0xa5, 0xa2, 0x8f, 0x88, 0x81, 0x86, 0x93, 0x94, 0x9d, 0x9a]
  const ROW6: seq<bv8> :=
    [0x27, 0x20, 0x29, 0x2e, 0x3b, 0x3c, 0x35, 0x32, 0x1f, 0x18, 0x11, 0x16, 0x03, 0x04, 0x0d, 0x0a]
  const ROW7: seq<bv8> :=
    [0x57, 0x50, 0x59, 0x5e, 0x4b, 0x4c, 0x45, 0x42, 0x6f, 0x68, 0x61, 0x66, 0x73, 0x74, 0x7d, 0x7a]
  const ROW8: seq<bv8> :=
    [0x89, 0x8e, 0x87, 0x80, 0x95, 0x92, 0x9b, 0x9c, 0xb1, 0xb6, 0xbf, 0xb8, 0xad, 0xaa, 0xa3, 0xa4]
  const ROW9: seq<bv8> :=
    [0xf9, 0xfe, 0xf7, 0xf0, 0xe5, 0xe2, 0xeb, 0xec, 0xc1, 0xc6, 0xcf, 0xc8, 0xdd, 0xda, 0xd3, 0xd4]
  const ROWA: seq<bv8> :=
    [0x69, 0x6e, 0x67, 0x60, 0x75, 0x72, 0x7b, 0x7c, 0x51, 0x56, 0x5f, 0x58, 0x4d, 0x4a, 0x43, 0x44]
  const ROWB: seq<bv8> :=
    [0x19, 0x1e, 0x17, 0x10, 0x05, 0x02, 0x0b, 0x0c, 0x21, 0x26, 0x2f, 0x28, 0x3d, 0x3a, 0x33, 0x34]
  const ROWC: seq<bv8> :=
    [0x4e, 0x49, 0x40, 0x47, 0x52, 0x55, 0x5c, 0x5b, 0x76, 0x71, 0x78, 0x7f, 0x6a, 0x6d, 0x64, 0x63]
  const ROWD: seq<bv8> :=
    [0x3e, 0x39, 0x30, 0x37, 0x22, 0x25, 0x2c, 0x2b, 0x06, 0x01, 0x08, 0x0f, 0x1a, 0x1d, 0x14, 0x13]
  const ROWE: seq<bv8> :=
    [0xae, 0xa9, 0xa0, 0xa7, 0xb2, 0xb5, 0xbc, 0xbb, 0x96, 0x91, 0x98, 0x9f, 0x8a, 0x8d, 0x84, 0x83]
  const ROWF: seq<bv8> :=
    [0xde, 0xd9, 0xd0, 0xd7, 0xc2, 0xc5, 0xcc, 0xcb, 0xe6, 0xe1, 0xe8, 0xef, 0xfa, 0xfd, 0xf4, 0xf3]

  /** TABLE, sixteen entries a row. */
  const TABLE: seq<seq<bv8>> :=
    [ROW0, ROW1, ROW2, ROW3, ROW4, ROW5, ROW6, ROW7, ROW8, ROW9, ROWA, ROWB, ROWC, ROWD, ROWE, ROWF]

  /** The number that four digits stand for. */
  function Nibble(x: bv8): (n: nat)
    ensures n < 16
  {
    (if x & 1 != 0 then 1 else 0) + (if x & 2 != 0 then 2 else 0)
    + (if x & 4 != 0 then 4 else 0) + (if x & 8 != 0 then 8 else 0)
  }

  lemma TableIsSquare()
    ensures |TABLE| == 16 && forall h :: 0 <= h < 16 ==> |TABLE[h]| == 16
  {
  }

  /** TABLE[i] */
  function Entry(i: bv8): bv8 {
    TableIsSquare();
    TABLE[Nibble(i >> 4)][Nibble(i)]
  }

  /** What the loop has computed with table f after each byte. */
  function Fold(f: bv8 -> bv8, bytes: seq<bv8>, previous: bv8): bv8 {
    if bytes == [] then previous else f(Fold(f, bytes[..|bytes| - 1], previous) ^ bytes[|bytes| - 1])
  }

  function Crc(bytes: seq<bv8>, previous: bv8): bv8 {
    Fold(Entry, bytes, previous)
  }

  // ---------------------------------------------------------------- the table is eight steps of division

  function Four(r: bv8): bv8 {
    Feed(Feed(Feed(Feed(r, false), false), false), false)
  }

  /** Eight steps, one after the other. */
  function Eight(r: bv8): bv8 {
    Four(Four(r))
  }

  lemma Row0(i: bv8)
    requires i & 0xf0 == 0x00
    ensures ROW0[Nibble(i)] == Eight(i)
  {
  }

  lemma Row1(i: bv8)
    requires i & 0xf0 == 0x10
    ensures ROW1[Nibble(i)] == Eight(i)
  {
  }

  lemma Row2(i: bv8)
    requires i & 0xf0 == 0x20
    ensures ROW2[Nibble(i)] == Eight(i)
  {
  }

  lemma Row3(i: bv8)
    requires i & 0xf0 == 0x30
    ensures ROW3[Nibble(i)] == Eight(i)
  {
  }

  lemma Row4(i: bv8)
    requires i & 0xf0 == 0x40
    ensures ROW4[Nibble(i)] == Eight(i)
  {
  }

  lemma Row5(i: bv8)
    requires i & 0xf0 == 0x50
    ensures ROW5[Nibble(i)] == Eight(i)
  {
  }

  lemma Row6(i: bv8)
    requires i & 0xf0 == 0x60
    ensures ROW6[Nibble(i)] == Eight(i)
  {
  }

  lemma Row7(i: bv8)
    requires i & 0xf0 == 0x70
    ensures ROW7[Nibble(i)] == Eight(i)
  {
  }

  lemma Row8(i: bv8)
    requires i & 0xf0 == 0x80
    ensures ROW8[Nibble(i)] == Eight(i)
  {
  }

  lemma Row9(i: bv8)
    requires i & 0xf0 == 0x90
    ensures ROW9[Nibble(i)] == Eight(i)
  {
  }

  lemma RowA(i: bv8)
    requires i & 0xf0 == 0xa0
    ensures ROWA[Nibble(i)] == Eight(i)
  {
  }

  lemma RowB(i: bv8)
    requires i & 0xf0 == 0xb0
    ensures ROWB[Nibble(i)] == Eight(i)
  {
  }

  lemma RowC(i: bv8)
    requires i & 0xf0 == 0xc0
    ensures ROWC[Nibble(i)] == Eight(i)
  {
  }

  lemma RowD(i: bv8)
    requires i & 0xf0 == 0xd0
    ensures ROWD[Nibble(i)] == Eight(i)
  {
  }

  lemma RowE(i: bv8)
    requires i & 0xf0 == 0xe0
    ensures ROWE[Nibble(i)] == Eight(i)
  {
  }

  lemma RowF(i: bv8)
    requires i & 0xf0 == 0xf0
    ensures ROWF[Nibble(i)] == Eight(i)
  {
  }

  lemma HighNibble(i: bv8)
    ensures i & 0xf0 == match Nibble(i >> 4)
                        case 0 => 0x00
                        case 1 => 0x10
                        case 2 => 0x20
                        case 3 => 0x30
                        case 4 => 0x40
                        case 5 => 0x50
                        case 6 => 0x60
                        case 7 => 0x70
                        case 8 => 0x80
                        case 9 => 0x90
                        case 10 => 0xa0
                        case 11 => 0xb0
                        case 12 => 0xc0
                        case 13 => 0xd0
                        case 14 => 0xe0
                        case _ => 0xf0
  {
  }

  /** An entry is what eight steps of long division make of its index. */
  lemma EntryIsEight(i: bv8)
    ensures Entry(i) == Eight(i)
  {
    HighNibble(i);
    match Nibble(i >> 4)
    case 0 => Row0(i);
    case 1 => Row1(i);
    case 2 => Row2(i);
    case 3 => Row3(i);
    case 4 => Row4(i);
    case 5 => Row5(i);
    case 6 => Row6(i);
    case 7 => Row7(i);
    case 8 => Row8(i);
    case 9 => Row9(i);
    case 10 => RowA(i);
    case 11 => RowB(i);
    case 12 => RowC(i);
    case 13 => RowD(i);
    case 14 => RowE(i);
    case _ => RowF(i);
  }

  lemma FeedZero(r: bv8, p: Poly)
    requires p != [] && !p[|p| - 1]
    ensures FeedAll(r, p) == Feed(FeedAll(r, p[..|p| - 1]), false)
  {
  }

  lemma FourZeros(r: bv8, p: Poly)
    requires |p| >= 4 && forall k :: 0 <= k < |p| ==> !p[k]
    ensures FeedAll(r, p) == Four(FeedAll(r, p[..|p| - 4]))
  {
    var n := |p|;
    assert p[..n - 1][..n - 2] == p[..n - 2] && p[..n - 2][..n - 3] == p[..n - 3] && p[..n - 3][..n - 4] == p[..n - 4];
    FeedZero(r, p);
    FeedZero(r, p[..n - 1]);
    FeedZero(r, p[..n - 2]);
    FeedZero(r, p[..n - 3]);
  }

  lemma EightZeros(r: bv8)
    ensures FeedAll(r, ZEROS) == Eight(r)
  {
    FourZeros(r, ZEROS);
    FourZeros(r, ZEROS[..4]);
    assert ZEROS[..4][..0] == [];
  }

  /** An entry is what is left of its index followed by eight zeros. */
  lemma EntryDivides(i: bv8)
    ensures Entry(i) == FeedAll(i, ZEROS)
  {
    EntryIsEight(i);
    EightZeros(i);
  }

  // ---------------------------------------------------------------- the loop divides

  /** The message as a polynomial, eight coefficients a byte. */
  function Message(bytes: seq<bv8>): Poly {
    if bytes == [] then [] else Message(bytes[..|bytes| - 1]) + Bits(bytes[|bytes| - 1])
  }

  lemma ByteStep(m: Poly, crc: bv8, b: bv8)
    requires crc == Remainder(m + ZEROS)
    ensures Entry(crc ^ b) == Remainder(m + Bits(b) + ZEROS)
  {
    ByteLater(m, b);
    EntryDivides(crc ^ b);
    FeedAppend(0, m + Bits(b), ZEROS);
  }

  lemma ZeroStays()
    ensures FeedAll(0, ZEROS) == 0
  {
    EightZeros(0);
  }

  lemma {:induction false} CrcIsRemainder(bytes: seq<bv8>)
    ensures Crc(bytes, 0) == Remainder(Message(bytes) + ZEROS)
  {
    if bytes == [] {
      ZeroStays();
      assert [] + ZEROS == ZEROS;
    } else {
      var front, last := bytes[..|bytes| - 1], bytes[|bytes| - 1];
      CrcIsRemainder(front);
      ByteStep(Message(front), Crc(front, 0), last);
    }
  }

  /**
    crc8(current, previous). From 0 the result r is the remainder of the message times x^8: the one r of
    degree below 8 with message * x^8 = q * (x^8 + x^2 + x + 1) + r for some q.
   */
  method Crc8(current: seq<bv8>, previous: bv8 := 0) returns (crc: bv8)
    ensures crc == Crc(current, previous)
    ensures previous == 0 ==> forall r :: IsRemainder(Message(current) + ZEROS, r) <==> r == crc
  {
    crc := previous;
    for k := 0 to |current|
      invariant crc == Crc(current[..k], previous)
    {
      assert current[..k + 1][..k] == current[..k];
      crc := Entry(crc ^ current[k]);
    }
    assert current[..|current|] == current;
    if previous == 0 {
      CrcIsRemainder(current);
      forall r
        ensures IsRemainder(Message(current) + ZEROS, r) <==> r == crc
      {
        RemainderIs(Message(current) + ZEROS, r);
      }
    }
  }

  // ---------------------------------------------------------------- every step is a bijection

  lemma EntryBijective(i: bv8, result: bv8)
    ensures Entry(i) == result <==> i == Unzero(result, |ZEROS|)
  {
    EntryDivides(i);
    UnzeroInverts(i, result, ZEROS);
  }

  ghost predicate Inverse(f: bv8 -> bv8, g: bv8 -> bv8) {
    (forall i :: g(f(i)) == i) && (forall t :: f(g(t)) == t)
  }

  /** The index of an entry. */
  function Before(result: bv8): bv8 {
    Unzero(result, |ZEROS|)
  }

  /** The table lists every byte once: Before undoes it. */
  lemma TableInverse()
    ensures Inverse(Entry, Before)
  {
    forall i
      ensures Before(Entry(i)) == i
    {
      EntryBijective(i, Entry(i));
    }
    forall t
      ensures Entry(Before(t)) == t
    {
      EntryBijective(Before(t), t);
    }
  }

  lemma XorTwice(x: bv8, b: bv8)
    ensures x ^ b ^ b == x
  {
  }

  lemma StepOnto(crc: bv8, b: bv8, result: bv8)
    requires crc == Before(result) ^ b
    ensures Entry(crc ^ b) == result
  {
    var i := Before(result);
    assert crc ^ b == i by { XorTwice(i, b); }
    assert Entry(i) == result by { EntryBijective(i, result); }
  }

  lemma StepInto(crc: bv8, b: bv8)
    ensures crc == Before(Entry(crc ^ b)) ^ b
  {
    var i := crc ^ b;
    EntryBijective(i, Entry(i));
    XorTwice(crc, b);
  }

  /** For each byte and each result there is exactly one CRC to come from. */
  lemma StepBijective(crc: bv8, b: bv8, result: bv8)
    ensures Entry(crc ^ b) == result <==> crc == Before(result) ^ b
  {
    if Entry(crc ^ b) == result {
      StepInto(crc, b);
    } else if crc == Before(result) ^ b {
      StepOnto(crc, b, result);
    }
  }

  ghost predicate Injective(f: bv8 -> bv8) {
    forall x, y :: f(x) == f(y) ==> x == y
  }

  lemma OtherByte(c: bv8, b1: bv8, b2: bv8)
    requires b1 != b2
    ensures c ^ b1 != c ^ b2
  {
  }

  lemma OtherCrc(c1: bv8, c2: bv8, b: bv8)
    requires c1 != c2
    ensures c1 ^ b != c2 ^ b
  {
  }

  lemma StepDiffers(f: bv8 -> bv8, c1: bv8, b1: bv8, c2: bv8, b2: bv8)
    requires Injective(f) && (c1 == c2) != (b1 == b2)
    ensures f(c1 ^ b1) != f(c2 ^ b2)
  {
    if c1 == c2 { OtherByte(c1, b1, b2); } else { OtherCrc(c1, c2, b1); }
  }

  lemma {:induction false} FoldDiffers(f: bv8 -> bv8, m1: seq<bv8>, m2: seq<bv8>, k: nat, previous: bv8)
    requires Injective(f)
    requires |m1| == |m2| && k < |m1| && m1[k] != m2[k]
    requires forall i :: 0 <= i < |m1| && i != k ==> m1[i] == m2[i]
    ensures Fold(f, m1, previous) != Fold(f, m2, previous)
  {
    var n := |m1| - 1;
    if k == n {
      assert m1[..n] == m2[..n];
    } else {
      FoldDiffers(f, m1[..n], m2[..n], k, previous);
    }
    StepDiffers(f, Fold(f, m1[..n], previous), m1[n], Fold(f, m2[..n], previous), m2[n]);
  }

  /** Changing one byte, anywhere in a message of any length, changes the CRC. */
  lemma OneByteChange(m1: seq<bv8>, m2: seq<bv8>, k: nat, previous: bv8)
    requires |m1| == |m2| && k < |m1| && m1[k] != m2[k]
    requires forall i :: 0 <= i < |m1| && i != k ==> m1[i] == m2[i]
    ensures Crc(m1, previous) != Crc(m2, previous)
  {
    forall x, y | Entry(x) == Entry(y)
      ensures x == y
    {
      EntryBijective(x, Entry(y));
      EntryBijective(y, Entry(y));
    }
    FoldDiffers(Entry, m1, m2, k, previous);
  }

  lemma {:induction false} FoldAppend(f: bv8 -> bv8, a: seq<bv8>, b: seq<bv8>, previous: bv8)
    ensures Fold(f, a + b, previous) == Fold(f, b, Fold(f, a, previous))
  {
    if b == [] {
      assert a + b == a;
    } else {
      FoldAppend(f, a, b[..|b| - 1], previous);
      assert (a + b)[..|a + b| - 1] == a + b[..|b| - 1];
    }
  }

  /** A message may be processed in parts, each from the CRC of the parts before it. */
  lemma CrcAppend(a: seq<bv8>, b: seq<bv8>, previous: bv8)
    ensures Crc(a + b, previous) == Crc(b, Crc(a, previous))
  {
    FoldAppend(Entry, a, b, previous);
  }
}
