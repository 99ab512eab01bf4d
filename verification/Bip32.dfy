/**
  BIP32-Ed25519 key derivation, section V of Khovratovich and Law, "BIP32-Ed25519: Hierarchical
  Deterministic Keys over a Non-linear Keyspace", over an abstract HMAC and an abstract group.
 */
module Bip32 {
  import opened LittleEndian
  import opened Wrappers

  type Bytes32 = s: seq<Byte> | |s| == 32 witness seq(32, _ => 0)
  type Bytes64 = s: seq<Byte> | |s| == 64 witness seq(64, _ => 0)

  /** The primitives of libsodium that derivation uses. */
  datatype Crypto = Crypto(
    hmac: (seq<Byte>, Bytes32) -> Bytes64,
    baseMul: Bytes32 -> Bytes32,
    pointAdd: (Bytes32, Bytes32) -> Bytes32)

  /** The group law assumed: multiplying the base point turns sums of scalars below 2^255 into sums of points. */
  ghost predicate IsGroup(c: Crypto) {
    forall x: Bytes32, y: Bytes32 {:trigger c.pointAdd(c.baseMul(x), c.baseMul(y))} ::
      Val(x) + Val(y) < TWO_255 ==> c.pointAdd(c.baseMul(x), c.baseMul(y)) == c.baseMul(ToBytes(Val(x) + Val(y), 32))
  }

  const HARDENED: nat := 0x8000_0000
  const INDEX_LIMIT: nat := 0x1_0000_0000

  type Index = i: nat | i < INDEX_LIMIT

  /** The 96 bytes of an extended private key: scalar, signing IV, chain code. */
  datatype PrivateKey = PrivateKey(scalar: Bytes32, iv: Bytes32, chainCode: Bytes32)

  /** The 64 bytes of an extended public key: point, chain code. */
  datatype PublicKey = PublicKey(point: Bytes32, chainCode: Bytes32)

  datatype DeriveFailure = IndexOutOfRange | HardenedPublicDerivation

  // ---------------------------------------------------------------- what is hashed

  function HardenedData(tag: Byte, scalar: Bytes32, iv: Bytes32, index: Index): seq<Byte> {
    [tag] + scalar + iv + ToBytes(index, 4)
  }

  function SoftData(tag: Byte, point: Bytes32, index: Index): seq<Byte> {
    [tag] + point + ToBytes(index, 4)
  }

  method WriteUInt32LE(data: array<Byte>, value: Index, offset: nat)
    requires offset + 4 <= data.Length
    modifies data
    ensures data[..] == old(data[..offset]) + ToBytes(value, 4) + old(data[offset + 4..])
  {
    data[offset] := value % 256;
    data[offset + 1] := value / 256 % 256;
    data[offset + 2] := value / 0x1_0000 % 256;
    data[offset + 3] := value / 0x100_0000 % 256;
    assert ToBytes(value, 4) == [value % 256, value / 256 % 256, value / 0x1_0000 % 256, value / 0x100_0000 % 256] by {
      assert value / 256 / 256 == value / 0x1_0000 && value / 0x1_0000 / 256 == value / 0x100_0000;
      assert ToBytes(value / 0x100_0000, 1) == [value / 0x100_0000 % 256] + ToBytes(value / 0x100_0000 / 256, 0);
      assert ToBytes(value / 0x1_0000, 2) == [value / 0x1_0000 % 256] + ToBytes(value / 0x1_0000 / 256, 1);
      assert ToBytes(value / 256, 3) == [value / 256 % 256] + ToBytes(value / 256 / 256, 2);
    }
  }

  method Copy(source: seq<Byte>, data: array<Byte>, offset: nat)
    requires offset + |source| <= data.Length
    modifies data
    ensures data[..] == old(data[..offset]) + source + old(data[offset + |source|..])
  {
    ghost var before := data[..];
    for k := 0 to |source|
      invariant data[..] == before[..offset] + source[..k] + before[offset + k..]
    {
      data[offset + k] := source[k];
      assert source[..k + 1] == source[..k] + [source[k]];
    }
    assert source[..|source|] == source;
  }

  lemma HardenedLayout(d0: seq<Byte>, d1: seq<Byte>, d2: seq<Byte>, scalar: Bytes32, iv: Bytes32, index: seq<Byte>)
    requires |d0| == 69 && |index| == 4 && d0[65..] == index
    requires d1 == d0[..1] + scalar + d0[33..]
    requires d2 == d1[..33] + iv + d1[65..]
    ensures d2[1..] == scalar + iv + index
  {
  }

  /** The buffer without its tag. */
  method FillHardened(data: array<Byte>, index: Index, scalar: Bytes32, iv: Bytes32)
    requires data.Length == 69
    modifies data
    ensures data[1..] == scalar + iv + ToBytes(index, 4)
  {
    WriteUInt32LE(data, index, 65);
    ghost var d0 := data[..];
    Copy(scalar, data, 1);
    ghost var d1 := data[..];
    Copy(iv, data, 33);
    HardenedLayout(d0, d1, data[..], scalar, iv, ToBytes(index, 4));
    assert data[1..] == data[..][1..];
  }

  lemma SoftLayout(d0: seq<Byte>, d1: seq<Byte>, point: Bytes32, index: seq<Byte>)
    requires |d0| == 37 && |index| == 4 && d0[33..] == index
    requires d1 == d0[..1] + point + d0[33..]
    ensures d1[1..] == point + index
  {
  }

  method FillSoft(data: array<Byte>, index: Index, point: Bytes32)
    requires data.Length == 37
    modifies data
    ensures data[1..] == point + ToBytes(index, 4)
  {
    WriteUInt32LE(data, index, 33);
    ghost var d0 := data[..];
    Copy(point, data, 1);
    SoftLayout(d0, data[..], point, ToBytes(index, 4));
    assert data[1..] == data[..][1..];
  }

  /** Writes the tag and hashes; the rest of the buffer stays for the next tag. */
  method HashTagged(c: Crypto, data: array<Byte>, tag: Byte, chainCode: Bytes32) returns (mac: Bytes64)
    requires data.Length > 0
    modifies data
    ensures data[1..] == old(data[1..]) && mac == c.hmac([tag] + data[1..], chainCode)
  {
    data[0] := tag;
    assert data[..] == [tag] + data[1..];
    mac := c.hmac(data[..], chainCode);
  }

  /** deriveHardened: one buffer, hashed under tag 0 and then, re-tagged, under tag 1. */
  method DeriveHardened(c: Crypto, index: Index, scalar: Bytes32, iv: Bytes32, chainCode: Bytes32)
    returns (zMac: Bytes64, ccMac: Bytes64)
    ensures zMac == c.hmac(HardenedData(0, scalar, iv, index), chainCode)
    ensures ccMac == c.hmac(HardenedData(1, scalar, iv, index), chainCode)
  {
    var data := new Byte[69];
    FillHardened(data, index, scalar, iv);
    zMac := HashTagged(c, data, 0, chainCode);
    ccMac := HashTagged(c, data, 1, chainCode);
    assert [0] + (scalar + iv + ToBytes(index, 4)) == HardenedData(0, scalar, iv, index);
    assert [1] + (scalar + iv + ToBytes(index, 4)) == HardenedData(1, scalar, iv, index);
  }

  /** The buffer of deriveSoft and derivePublic: tags 2 and 3 around the public point. */
  method HashSoft(c: Crypto, index: Index, point: Bytes32, chainCode: Bytes32)
    returns (zMac: Bytes64, ccMac: Bytes64)
    ensures zMac == c.hmac(SoftData(2, point, index), chainCode)
    ensures ccMac == c.hmac(SoftData(3, point, index), chainCode)
  {
    var data := new Byte[37];
    FillSoft(data, index, point);
    zMac := HashTagged(c, data, 2, chainCode);
    ccMac := HashTagged(c, data, 3, chainCode);
    assert [2] + (point + ToBytes(index, 4)) == SoftData(2, point, index);
    assert [3] + (point + ToBytes(index, 4)) == SoftData(3, point, index);
  }

  // ---------------------------------------------------------------- specification

  function ZMac(c: Crypto, key: PrivateKey, index: Index): Bytes64 {
    if index >= HARDENED then c.hmac(HardenedData(0, key.scalar, key.iv, index), key.chainCode)
    else c.hmac(SoftData(2, c.baseMul(key.scalar), index), key.chainCode)
  }

  function CcMac(c: Crypto, key: PrivateKey, index: Index): Bytes64 {
    if index >= HARDENED then c.hmac(HardenedData(1, key.scalar, key.iv, index), key.chainCode)
    else c.hmac(SoftData(3, c.baseMul(key.scalar), index), key.chainCode)
  }

  /** Eight times the low 28 bytes of a hash: what one derivation adds to the scalar. */
  function Trunc28Mul8(z: Bytes64): nat {
    8 * Val(z[..28])
  }

  /** The child key that two hashes make of a key. */
  function ChildKey(key: PrivateKey, z: Bytes64, cc: Bytes64): PrivateKey {
    PrivateKey(
      ToBytes((Val(key.scalar) + Trunc28Mul8(z)) % TWO_256, 32),
      ToBytes((Val(key.iv) + Val(z[32..])) % TWO_256, 32),
      cc[32..])
  }

  function DerivePrivate(c: Crypto, key: PrivateKey, index: Index): PrivateKey {
    ChildKey(key, ZMac(c, key, index), CcMac(c, key, index))
  }

  /** toPublic: the public point and the chain code of a private key. */
  function ToPublic(c: Crypto, key: PrivateKey): PublicKey {
    PublicKey(c.baseMul(key.scalar), key.chainCode)
  }

  function DerivePublic(c: Crypto, key: PublicKey, index: Index): PublicKey {
    var z := c.hmac(SoftData(2, key.point, index), key.chainCode);
    PublicKey(
      c.pointAdd(c.baseMul(ToBytes(Trunc28Mul8(z), 32)), key.point),
      c.hmac(SoftData(3, key.point, index), key.chainCode)[32..])
  }

  // ---------------------------------------------------------------- the operations

  lemma TruncBound(z: Bytes64)
    ensures Trunc28Mul8(z) < TWO_227
  {
    ValBound(z[..28]);
    Pow256Values();
  }

  method HashKey(c: Crypto, key: PrivateKey, index: Index) returns (zMac: Bytes64, ccMac: Bytes64)
    ensures zMac == ZMac(c, key, index) && ccMac == CcMac(c, key, index)
  {
    if index >= HARDENED {
      zMac, ccMac := DeriveHardened(c, index, key.scalar, key.iv, key.chainCode);
    } else {
      zMac, ccMac := HashSoft(c, index, c.baseMul(key.scalar), key.chainCode);
    }
  }

  /** The hashed bytes, written out. */
  lemma HashedBytes(c: Crypto, key: PrivateKey, index: Index)
    ensures index >= HARDENED ==>
      var data := key.scalar + key.iv + ToBytes(index, 4);
      && ZMac(c, key, index) == c.hmac([0] + data, key.chainCode)
      && CcMac(c, key, index) == c.hmac([1] + data, key.chainCode)
    ensures index < HARDENED ==>
      var data := c.baseMul(key.scalar) + ToBytes(index, 4);
      && ZMac(c, key, index) == c.hmac([2] + data, key.chainCode)
      && CcMac(c, key, index) == c.hmac([3] + data, key.chainCode)
  {
    var hard, soft := key.scalar + key.iv + ToBytes(index, 4), c.baseMul(key.scalar) + ToBytes(index, 4);
    assert HardenedData(0, key.scalar, key.iv, index) == [0] + hard;
    assert HardenedData(1, key.scalar, key.iv, index) == [1] + hard;
    assert SoftData(2, c.baseMul(key.scalar), index) == [2] + soft;
    assert SoftData(3, c.baseMul(key.scalar), index) == [3] + soft;
  }

  method AddHashes(key: PrivateKey, zMac: Bytes64, ccMac: Bytes64) returns (child: PrivateKey)
    ensures child == ChildKey(key, zMac, ccMac)
  {
    assert zMac[..32][..28] == zMac[..28];
    var left, _ := Add28Mul8(key.scalar, zMac[..32]);
    var right, _ := Add256Bits(key.iv, zMac[32..]);
    child := PrivateKey(left, right, ccMac[32..]);
  }

  /** What two hashes make of a key, as numbers: scalar and IV grow modulo 2^256, the chain code is replaced. */
  predicate IsChild(key: PrivateKey, z: Bytes64, cc: Bytes64, child: PrivateKey) {
    && Val(child.scalar) == (Val(key.scalar) + 8 * Val(z[..28])) % TWO_256
    && Val(child.iv) == (Val(key.iv) + Val(z[32..])) % TWO_256
    && child.chainCode == cc[32..]
  }

  lemma ReducedValue(total: nat)
    ensures Val(ToBytes(total % TWO_256, 32)) == total % TWO_256
  {
    ValToBytes32(total % TWO_256);
  }

  lemma ChildKeyIsChild(key: PrivateKey, z: Bytes64, cc: Bytes64)
    ensures IsChild(key, z, cc, ChildKey(key, z, cc))
  {
    ReducedValue(Val(key.scalar) + Trunc28Mul8(z));
    ReducedValue(Val(key.iv) + Val(z[32..]));
  }

  lemma ValBelow(s: Bytes32)
    ensures Val(s) < TWO_256
  {
    ValBound(s);
    Pow256Values();
  }

  lemma AddedModulo(x: nat, y: nat, z: nat)
    requires y < TWO_256 && z < TWO_256 && (x + y) % TWO_256 == (x + z) % TWO_256
    ensures y == z
  {
  }

  /** Of one parent, two children have the same IV exactly when the right halves of their hashes agree. */
  lemma SameIvIff(key: PrivateKey, z: Bytes64, cc: Bytes64, z': Bytes64, cc': Bytes64)
    ensures ChildKey(key, z, cc).iv == ChildKey(key, z', cc').iv <==> z[32..] == z'[32..]
  {
    ChildKeyIsChild(key, z, cc);
    ChildKeyIsChild(key, z', cc');
    if ChildKey(key, z, cc).iv == ChildKey(key, z', cc').iv {
      ValBelow(z[32..]);
      ValBelow(z'[32..]);
      AddedModulo(Val(key.iv), Val(z[32..]), Val(z'[32..]));
      ValInjective(z[32..], z'[32..]);
    }
  }

  /** Of one parent, two children have the same scalar exactly when the low 28 bytes of their hashes agree. */
  lemma SameScalarIff(key: PrivateKey, z: Bytes64, cc: Bytes64, z': Bytes64, cc': Bytes64)
    ensures ChildKey(key, z, cc).scalar == ChildKey(key, z', cc').scalar <==> z[..28] == z'[..28]
  {
    ChildKeyIsChild(key, z, cc);
    ChildKeyIsChild(key, z', cc');
    if ChildKey(key, z, cc).scalar == ChildKey(key, z', cc').scalar {
      TruncBound(z);
      TruncBound(z');
      AddedModulo(Val(key.scalar), Trunc28Mul8(z), Trunc28Mul8(z'));
      ValInjective(z[..28], z'[..28]);
    }
  }

  /** derivePrivate; an index that does not fit in 32 bits makes writeUInt32LE throw. */
  method DerivePrivateKey(c: Crypto, key: PrivateKey, index: int) returns (r: Result<PrivateKey, DeriveFailure>)
    ensures 0 <= index < INDEX_LIMIT ==> r == Ok(DerivePrivate(c, key, index))
    ensures 0x8000_0000 <= index < 0x1_0000_0000 ==>
      var data := key.scalar + key.iv + ToBytes(index, 4);
      IsChild(key, c.hmac([0] + data, key.chainCode), c.hmac([1] + data, key.chainCode), r.value)
    ensures 0 <= index < 0x8000_0000 ==>
      var data := c.baseMul(key.scalar) + ToBytes(index, 4);
      IsChild(key, c.hmac([2] + data, key.chainCode), c.hmac([3] + data, key.chainCode), r.value)
    ensures !(0 <= index < INDEX_LIMIT) ==> r == Err(IndexOutOfRange)
  {
    if !(0 <= index < INDEX_LIMIT) { return Err(IndexOutOfRange); }
    var zMac, ccMac := HashKey(c, key, index);
    var child := AddHashes(key, zMac, ccMac);
    ChildKeyIsChild(key, zMac, ccMac);
    HashedBytes(c, key, index);
    r := Ok(child);
  }

  lemma {:induction false} ZerosVal(s: seq<Byte>)
    requires forall i :: 0 <= i < |s| ==> s[i] == 0
    ensures Val(s) == 0
  {
    if s != [] { ZerosVal(s[1..]); }
  }

  /** pointOfTrunc28Mul8: the point of eight times the low 28 bytes. */
  method PointOfTrunc28Mul8(c: Crypto, z: Bytes64) returns (p: Bytes32)
    ensures p == c.baseMul(ToBytes(Trunc28Mul8(z), 32))
  {
    var zeros: seq<Byte> := seq(32, _ => 0);
    var zl := z[..32];
    var scalar, _ := Add28Mul8(zeros, zl);
    assert scalar == ToBytes(Trunc28Mul8(z), 32) by {
      ZerosVal(zeros);
      assert zl[..28] == z[..28];
      TruncBound(z);
      NoWrap(Trunc28Mul8(z));
    }
    p := c.baseMul(scalar);
  }

  /** derivePublic: only soft indices. */
  method DerivePublicKey(c: Crypto, key: PublicKey, index: int) returns (r: Result<PublicKey, DeriveFailure>)
    ensures 0 <= index < HARDENED ==> r == Ok(DerivePublic(c, key, index))
    ensures HARDENED <= index < INDEX_LIMIT ==> r == Err(HardenedPublicDerivation)
    ensures !(0 <= index < INDEX_LIMIT) ==> r == Err(IndexOutOfRange)
  {
    if !(0 <= index < INDEX_LIMIT) { return Err(IndexOutOfRange); }
    if index >= HARDENED { return Err(HardenedPublicDerivation); }
    var z, ccMac := HashSoft(c, index, key.point, key.chainCode);
    var p := PointOfTrunc28Mul8(c, z);
    r := Ok(PublicKey(c.pointAdd(p, key.point), ccMac[32..]));
  }

  // ---------------------------------------------------------------- commutation

  predicate IsSoft(index: Index) { index < HARDENED }

  /** The scalar of the child before reduction. */
  function NextScalar(c: Crypto, key: PrivateKey, index: Index): nat {
    Val(key.scalar) + Trunc28Mul8(ZMac(c, key, index))
  }

  lemma NextScalarValue(c: Crypto, key: PrivateKey, index: Index)
    requires NextScalar(c, key, index) < TWO_255
    ensures DerivePrivate(c, key, index).scalar == ToBytes(NextScalar(c, key, index), 32)
    ensures Val(DerivePrivate(c, key, index).scalar) == NextScalar(c, key, index)
  {
    NoWrap(NextScalar(c, key, index));
    ValToBytes32(NextScalar(c, key, index));
  }

  lemma GroupStep(c: Crypto, z: Bytes64, scalar: Bytes32)
    requires IsGroup(c) && Val(scalar) + Trunc28Mul8(z) < TWO_255
    ensures c.pointAdd(c.baseMul(ToBytes(Trunc28Mul8(z), 32)), c.baseMul(scalar))
         == c.baseMul(ToBytes(Val(scalar) + Trunc28Mul8(z), 32))
  {
    var step := Trunc28Mul8(z);
    var x: Bytes32 := ToBytes(step, 32);
    assert Val(x) == step by { ValToBytes32(step); }
    assert c.pointAdd(c.baseMul(x), c.baseMul(scalar)) == c.baseMul(ToBytes(Val(x) + Val(scalar), 32));
  }

  lemma PublicPoint(c: Crypto, key: PrivateKey, index: Index)
    requires IsGroup(c) && IsSoft(index) && NextScalar(c, key, index) < TWO_255
    ensures DerivePublic(c, ToPublic(c, key), index).point == c.baseMul(ToBytes(NextScalar(c, key, index), 32))
  {
    var z := ZMac(c, key, index);
    assert z == c.hmac(SoftData(2, c.baseMul(key.scalar), index), key.chainCode);
    GroupStep(c, z, key.scalar);
  }

  /** One soft step: the public key of the derived private key is the derived public key. */
  lemma DeriveCommutes(c: Crypto, key: PrivateKey, index: Index)
    requires IsGroup(c) && IsSoft(index) && NextScalar(c, key, index) < TWO_255
    ensures ToPublic(c, DerivePrivate(c, key, index)) == DerivePublic(c, ToPublic(c, key), index)
  {
    PublicPoint(c, key, index);
    NextScalarValue(c, key, index);
    var private, public := ToPublic(c, DerivePrivate(c, key, index)), DerivePublic(c, ToPublic(c, key), index);
    assert private.point == public.point;
    assert private.chainCode == public.chainCode;
  }

  /** Bip32PrivateKey.derive */
  function DerivePrivatePath(c: Crypto, key: PrivateKey, path: seq<Index>): PrivateKey
    decreases |path|
  {
    if path == [] then key else DerivePrivatePath(c, DerivePrivate(c, key, path[0]), path[1..])
  }

  /** Bip32PublicKey.derive */
  function DerivePublicPath(c: Crypto, key: PublicKey, path: seq<Index>): PublicKey
    decreases |path|
  {
    if path == [] then key else DerivePublicPath(c, DerivePublic(c, key, path[0]), path[1..])
  }

  /** A path is walked from its first index to its last, by either derivation. */
  lemma {:induction false} PathSteps(c: Crypto, private: PrivateKey, public: PublicKey, path: seq<Index>, last: Index)
    ensures DerivePrivatePath(c, private, path + [last]) == DerivePrivate(c, DerivePrivatePath(c, private, path), last)
    ensures DerivePublicPath(c, public, path + [last]) == DerivePublic(c, DerivePublicPath(c, public, path), last)
    decreases |path|
  {
    if path == [] {
      assert [] + [last] == [last] && [last][1..] == [];
    } else {
      assert (path + [last])[1..] == path[1..] + [last];
      PathSteps(c, DerivePrivate(c, private, path[0]), DerivePublic(c, public, path[0]), path[1..], last);
    }
  }

  /** Every scalar along the path stays below 2^255. */
  predicate ScalarsBelow(c: Crypto, key: PrivateKey, path: seq<Index>)
    decreases |path|
  {
    path != [] ==>
      NextScalar(c, key, path[0]) < TWO_255 && ScalarsBelow(c, DerivePrivate(c, key, path[0]), path[1..])
  }

  /** Private and public derivation commute along every soft path, whatever its length. */
  lemma {:induction false} PathsCommute(c: Crypto, key: PrivateKey, path: seq<Index>)
    requires IsGroup(c) && ScalarsBelow(c, key, path)
    requires forall i :: 0 <= i < |path| ==> IsSoft(path[i])
    ensures ToPublic(c, DerivePrivatePath(c, key, path)) == DerivePublicPath(c, ToPublic(c, key), path)
    decreases |path|
  {
    if path != [] {
      DeriveCommutes(c, key, path[0]);
      PathsCommute(c, DerivePrivate(c, key, path[0]), path[1..]);
    }
  }

  // ---------------------------------------------------------------- why scalars stay in range

  const MAX_STEPS: nat := 0x400_0000

  /** A scalar that has taken `n` steps from a clamped root. */
  predicate InRange(v: nat, n: nat) {
    v % 8 == 0 && TWO_254 <= v < TWO_254 + TWO_253 + n * TWO_227
  }

  lemma TopByte(b: nat, low: nat, p: nat)
    requires p == TWO_248 && 64 <= b < 96 && low < p
    ensures TWO_254 <= low + b * p < TWO_254 + TWO_253
  {
  }

  lemma ClampedRange(s: seq<Byte>)
    requires |s| == 32 && s[0] % 8 == 0 && 64 <= s[31] < 96
    ensures InRange(Val(s), 0)
  {
    assert Val(s) % 8 == 0 by { assert Val(s) == s[0] + 256 * Val(s[1..]); }
    assert TWO_254 <= Val(s) < TWO_254 + TWO_253 by {
      assert s == s[..31] + [s[31]];
      ValAppend(s[..31], s[31]);
      ValBound(s[..31]);
      Pow256Values();
      TopByte(s[31], Val(s[..31]), Pow256(|s[..31]|));
    }
  }

  /** clampScalar: clears bits 0 to 2 and 253 to 255, and sets bit 254. */
  method ClampScalar(key: array<Byte>)
    requires key.Length >= 32
    modifies key
    ensures key[1..31] == old(key[1..31]) && key[32..] == old(key[32..])
    ensures key[0] == old(key[0]) - old(key[0]) % 8 && key[31] == old(key[31]) % 32 + 64
    ensures InRange(Val(key[..32]), 0)
  {
    key[0] := key[0] - key[0] % 8;
    key[31] := key[31] % 32;
    key[31] := key[31] + 64;
    ClampedRange(key[..32]);
  }

  lemma StepsFit(n: nat)
    requires n <= MAX_STEPS
    ensures n * TWO_227 <= TWO_253
    ensures TWO_254 + TWO_253 + n * TWO_227 <= TWO_255
  {
  }

  lemma RangeStep(v: nat, step: nat, n: nat)
    requires InRange(v, n) && n < MAX_STEPS && step < TWO_227 && step % 8 == 0
    ensures v + step < TWO_255 && InRange(v + step, n + 1)
  {
  }

  /** One step of any kind, soft or hardened, adds less than 2^227 and does not wrap. */
  lemma StepInRange(c: Crypto, key: PrivateKey, index: Index, n: nat)
    requires InRange(Val(key.scalar), n) && n < MAX_STEPS
    ensures NextScalar(c, key, index) < TWO_255
    ensures InRange(Val(DerivePrivate(c, key, index).scalar), n + 1)
  {
    TruncBound(ZMac(c, key, index));
    RangeStep(Val(key.scalar), Trunc28Mul8(ZMac(c, key, index)), n);
    NextScalarValue(c, key, index);
  }

  /** From a clamped root, any mixed path of up to 2^26 steps keeps the scalar in [2^254, 2^255) and divisible by 8. */
  lemma {:induction false} PathInRange(c: Crypto, key: PrivateKey, path: seq<Index>, n: nat)
    requires InRange(Val(key.scalar), n) && n + |path| <= MAX_STEPS
    ensures ScalarsBelow(c, key, path)
    ensures InRange(Val(DerivePrivatePath(c, key, path).scalar), n + |path|)
    ensures var v := Val(DerivePrivatePath(c, key, path).scalar); v % 8 == 0 && TWO_254 <= v < TWO_255
    decreases |path|
  {
    StepsFit(n + |path|);
    if path != [] {
      StepInRange(c, key, path[0], n);
      PathInRange(c, DerivePrivate(c, key, path[0]), path[1..], n + 1);
    }
  }

  /** Hence wallets may derive publicly: below a clamped root the two derivations always agree. */
  lemma ClampedPathsCommute(c: Crypto, root: PrivateKey, account: seq<Index>, path: seq<Index>)
    requires IsGroup(c) && InRange(Val(root.scalar), 0) && |account| + |path| <= MAX_STEPS
    requires forall i :: 0 <= i < |path| ==> IsSoft(path[i])
    ensures var parent := DerivePrivatePath(c, root, account);
      ToPublic(c, DerivePrivatePath(c, parent, path)) == DerivePublicPath(c, ToPublic(c, parent), path)
  {
    PathInRange(c, root, account, 0);
    var parent := DerivePrivatePath(c, root, account);
    PathInRange(c, parent, path, |account|);
    PathsCommute(c, parent, path);
  }
}
