/** Byte strings read as little-endian numbers, and the two additions of BIP32-Ed25519 on them. */
module LittleEndian {

  type Byte = b: nat | b < 256

  const TWO_224: nat := 0x1_00000000_00000000_00000000_00000000_00000000_00000000_00000000
  const TWO_227: nat := 0x8_00000000_00000000_00000000_00000000_00000000_00000000_00000000
  const TWO_248: nat := 0x1000000_00000000_00000000_00000000_00000000_00000000_00000000_00000000
  const TWO_253: nat := 0x20000000_00000000_00000000_00000000_00000000_00000000_00000000_00000000
  const TWO_254: nat := 0x40000000_00000000_00000000_00000000_00000000_00000000_00000000_00000000
  const TWO_255: nat := 0x80000000_00000000_00000000_00000000_00000000_00000000_00000000_00000000
  const TWO_256: nat := 0x1_00000000_00000000_00000000_00000000_00000000_00000000_00000000_00000000

  /** Arithmetic modulo 2^256. */
  function Wrap(v: nat): (w: nat)
    ensures w < TWO_256
  {
    if v < TWO_256 then v else Wrap(v - TWO_256)
  }

  lemma {:induction false} WrapIsModulo(v: nat)
    ensures Wrap(v) == v % TWO_256
  {
    if v >= TWO_256 {
      WrapIsModulo(v - TWO_256);
    }
  }

  function Pow256(n: nat): (p: nat)
    ensures p >= 1
  {
    if n == 0 then 1 else 256 * Pow256(n - 1)
  }

  /** c moved up by n bytes: c * 256^n. */
  function Shift(c: nat, n: nat): nat
    decreases n
  {
    if n == 0 then c else 256 * Shift(c, n - 1)
  }

  lemma MulSwap(a: int, b: int, c: int)
    ensures a * (b * c) == b * (a * c)
  {
  }

  lemma {:induction false} ShiftIsProduct(c: nat, n: nat)
    ensures Shift(c, n) == c * Pow256(n)
    decreases n
  {
    if n > 0 {
      ShiftIsProduct(c, n - 1);
      MulSwap(c, 256, Pow256(n - 1));
    }
  }

  lemma Pow256Values()
    ensures Pow256(28) == TWO_224 && Pow256(31) == TWO_248 && Pow256(32) == TWO_256
  {
    assert Pow256(4) == 0x1_00000000;
    assert Pow256(8) == 0x1_00000000_00000000;
    assert Pow256(12) == 0x1_00000000_00000000_00000000;
    assert Pow256(16) == 0x1_00000000_00000000_00000000_00000000;
    assert Pow256(20) == 0x1_00000000_00000000_00000000_00000000_00000000;
    assert Pow256(24) == 0x1_00000000_00000000_00000000_00000000_00000000_00000000;
    assert Pow256(28) == 0x1_00000000_00000000_00000000_00000000_00000000_00000000_00000000;
  }

  lemma MulAdd(a: int, b: int, c: int)
    ensures (a + b) * c == a * c + b * c
  {
  }

  lemma {:induction false} WrapSum(v: nat, carry: nat, total: nat, p: nat)
    requires p == TWO_256 && v < p && v + carry * p == total
    ensures Wrap(total) == v
    decreases carry
  {
    if carry > 0 {
      MulAdd(carry - 1, 1, p);
      WrapSum(v, carry - 1, total - p, p);
    }
  }

  /** The number that `s` represents, least significant byte first. */
  function Val(s: seq<nat>): nat {
    if s == [] then 0 else s[0] + 256 * Val(s[1..])
  }

  /** The `n` low bytes of `v`. */
  function ToBytes(v: nat, n: nat): (s: seq<Byte>)
    ensures |s| == n
  {
    if n == 0 then [] else [v % 256] + ToBytes(v / 256, n - 1)
  }

  lemma {:induction false} ValAppend(s: seq<Byte>, b: Byte)
    ensures Val(s + [b]) == Val(s) + b * Pow256(|s|)
  {
    if s == [] {
      assert s + [b] == [b] && [b][1..] == [];
    } else {
      var tail := s[1..];
      ValAppend(tail, b);
      assert (s + [b])[1..] == tail + [b];
      MulSwap(b, 256, Pow256(|tail|));
    }
  }

  lemma {:induction false} ValBound(s: seq<Byte>)
    ensures Val(s) < Pow256(|s|)
  {
    if s != [] {
      ValBound(s[1..]);
    }
  }

  /** A byte string of known length is determined by the number it represents. */
  lemma {:induction false} ValInjective(s: seq<Byte>, t: seq<Byte>)
    requires |s| == |t| && Val(s) == Val(t)
    ensures s == t
  {
    if s != [] {
      assert s[0] == Val(s) % 256 && t[0] == Val(t) % 256;
      ValInjective(s[1..], t[1..]);
      assert s == [s[0]] + s[1..] && t == [t[0]] + t[1..];
    }
  }

  /** Writing a number that fits and reading it back gives the number. */
  lemma {:induction false} ValToBytes(v: nat, n: nat)
    requires v < Pow256(n)
    ensures Val(ToBytes(v, n)) == v
  {
    if n > 0 {
      ValToBytes(v / 256, n - 1);
      assert ToBytes(v, n)[1..] == ToBytes(v / 256, n - 1);
    }
  }

  lemma ToBytesVal(s: seq<Byte>)
    ensures ToBytes(Val(s), |s|) == s
  {
    ValBound(s);
    ValToBytes(Val(s), |s|);
    ValInjective(ToBytes(Val(s), |s|), s);
  }

  lemma ValToBytes32(v: nat)
    requires v < TWO_256
    ensures Val(ToBytes(v, 32)) == v
  {
    Pow256Values();
    ValToBytes(v, 32);
  }

  // ---------------------------------------------------------------- carry arithmetic

  /** The bytes and the final carry of adding `a`, digit by digit, to `x`. */
  function Adder(x: seq<Byte>, a: seq<nat>, carry: nat): (r: (seq<Byte>, nat))
    requires |x| == |a|
    ensures |r.0| == |x|
  {
    if x == [] then ([], carry)
    else
      var sum := x[0] + a[0] + carry;
      var (rest, last) := Adder(x[1..], a[1..], sum / 256);
      ([sum % 256] + rest, last)
  }

  /** Carrying loses nothing: the bytes and the final carry are worth the two operands. */
  lemma {:induction false} AdderSum(x: seq<Byte>, a: seq<nat>, carry: nat)
    requires |x| == |a|
    ensures Val(Adder(x, a, carry).0) + Shift(Adder(x, a, carry).1, |x|) == Val(x) + Val(a) + carry
  {
    if x != [] {
      var sum := x[0] + a[0] + carry;
      var (rest, last) := Adder(x[1..], a[1..], sum / 256);
      AdderSum(x[1..], a[1..], sum / 256);
      assert Adder(x, a, carry).0[1..] == rest;
    }
  }

  lemma SumWidth(r: seq<Byte>, carry: nat, total: nat)
    requires |r| == 32 && Val(r) + Shift(carry, |r|) == total
    ensures Val(r) == Wrap(total)
  {
    ValBound(r);
    Pow256Values();
    ShiftIsProduct(carry, |r|);
    WrapSum(Val(r), carry, total, Pow256(|r|));
  }

  /** Dropping the final carry of a 32-byte sum leaves the sum modulo 2^256. */
  lemma AdderModulo(x: seq<Byte>, a: seq<nat>)
    requires |x| == |a| == 32
    ensures Val(Adder(x, a, 0).0) == Wrap(Val(x) + Val(a))
  {
    var r, last := Adder(x, a, 0).0, Adder(x, a, 0).1;
    AdderSum(x, a, 0);
    SumWidth(r, last, Val(x) + Val(a));
  }

  /** The carry into each byte, the first one zero, up to the one out of byte n - 1; none exceeds max. */
  ghost predicate AreCarries(x: seq<Byte>, a: seq<nat>, carries: seq<nat>, n: nat, max: nat)
    requires |x| == |a| && n <= |x|
  {
    && |carries| == n + 1 && carries[0] == 0
    && (forall i :: 0 <= i < n ==> carries[i + 1] == (x[i] + a[i] + carries[i]) / 256)
    && (forall i :: 0 <= i <= n ==> carries[i] <= max)
  }

  lemma CarryStep(x: seq<Byte>, a: seq<nat>, carries: seq<nat>, n: nat, max: nat, next: nat)
    requires |x| == |a| && n < |x| && AreCarries(x, a, carries, n, max)
    requires next == (x[n] + a[n] + carries[n]) / 256 && next <= max
    ensures AreCarries(x, a, carries + [next], n + 1, max)
  {
  }

  /** Mid-loop: the bytes written so far, then what the adder makes of the rest. */
  ghost predicate Adding(x: seq<Byte>, a: seq<nat>, out: seq<Byte>, i: nat, carry: nat)
    requires |x| == |a| && i <= |x|
  {
    Adder(x, a, 0) == (out + Adder(x[i..], a[i..], carry).0, Adder(x[i..], a[i..], carry).1)
  }

  lemma AddStart(x: seq<Byte>, a: seq<nat>)
    requires |x| == |a|
    ensures Adding(x, a, [], 0, 0)
  {
    assert x[0..] == x && a[0..] == a;
    assert [] + Adder(x, a, 0).0 == Adder(x, a, 0).0;
  }

  lemma AddEnd(x: seq<Byte>, a: seq<nat>, out: seq<Byte>, carry: nat)
    requires |x| == |a| == 32 && Adding(x, a, out, 32, carry)
    ensures |out| == 32 && Val(out) == Wrap(Val(x) + Val(a))
  {
    assert x[32..] == [] && a[32..] == [];
    assert out + [] == out;
    AdderModulo(x, a);
  }

  lemma WrappedBytes(out: seq<Byte>, total: nat)
    requires Val(out) == Wrap(total)
    ensures out == ToBytes(total % TWO_256, |out|)
  {
    WrapIsModulo(total);
    ToBytesVal(out);
  }

  lemma NoWrap(total: nat)
    requires total < TWO_256
    ensures total % TWO_256 == total
  {
  }

  lemma AddByte(x: seq<Byte>, a: seq<nat>, out: seq<Byte>, i: nat, carry: nat)
    requires |x| == |a| && i < |x| && Adding(x, a, out, i, carry)
    ensures var sum := x[i] + a[i] + carry;
      Adding(x, a, out + [sum % 256], i + 1, sum / 256)
  {
    var sum := x[i] + a[i] + carry;
    assert x[i..][1..] == x[i + 1..] && a[i..][1..] == a[i + 1..];
    var (rest, last) := Adder(x[i + 1..], a[i + 1..], sum / 256);
    assert Adder(x[i..], a[i..], carry) == ([sum % 256] + rest, last);
    assert out + ([sum % 256] + rest) == out + [sum % 256] + rest;
  }

  /** What add28Mul8 adds at each byte. */
  function Octuple28(y: seq<Byte>): (a: seq<nat>)
    requires |y| >= 28
    ensures |a| == 32
  {
    seq(32, i requires 0 <= i < 32 => if i < 28 then 8 * (y[i] as int) else 0)
  }

  lemma {:induction false} OctupleVal(a: seq<nat>, y: seq<Byte>)
    requires |y| <= |a|
    requires forall i :: 0 <= i < |a| ==> a[i] == if i < |y| then 8 * (y[i] as int) else 0
    ensures Val(a) == 8 * Val(y)
  {
    if a != [] {
      OctupleVal(a[1..], if y == [] then [] else y[1..]);
    }
  }

  /** The loop body shared by both additions: write the low byte of the sum, carry the rest. */
  method StoreByte(x: seq<Byte>, ghost a: seq<nat>, out: array<Byte>, i: nat, carry: nat, addend: nat)
    returns (next: nat)
    requires |x| == |a| == out.Length && i < |x| && addend == a[i]
    requires Adding(x, a, out[..i], i, carry)
    modifies out
    ensures next == (x[i] + addend + carry) / 256
    ensures Adding(x, a, out[..i + 1], i + 1, next)
  {
    AddByte(x, a, out[..i], i, carry);
    ghost var before := out[..i];
    var sum := x[i] + addend + carry;
    out[i] := sum % 256;
    next := sum / 256;
    assert out[..i + 1] == before + [sum % 256];
  }

  /** add28Mul8: x plus eight times the low 28 bytes of y, modulo 2^256; the carry never exceeds 8. */
  method Add28Mul8(x: seq<Byte>, y: seq<Byte>) returns (r: seq<Byte>, ghost carries: seq<nat>)
    requires |x| == 32 && |y| >= 28
    ensures r == ToBytes((Val(x) + 8 * Val(y[..28])) % TWO_256, 32)
    ensures AreCarries(x, Octuple28(y), carries, 32, 8)
  {
    ghost var a := Octuple28(y);
    var carry: nat := 0;
    var out := new Byte[32];
    carries := [0];
    AddStart(x, a);
    assert out[..0] == [];
    for i := 0 to 28
      invariant Adding(x, a, out[..i], i, carry)
      invariant AreCarries(x, a, carries, i, 8) && carries[i] == carry
    {
      carry := StoreByte(x, a, out, i, carry, 8 * (y[i] as int));
      CarryStep(x, a, carries, i, 8, carry);
      carries := carries + [carry];
    }
    for i := 28 to 32
      invariant Adding(x, a, out[..i], i, carry)
      invariant AreCarries(x, a, carries, i, 8) && carries[i] == carry
    {
      carry := StoreByte(x, a, out, i, carry, 0);
      CarryStep(x, a, carries, i, 8, carry);
      carries := carries + [carry];
    }
    r := out[..];
    assert out[..32] == r;
    OctupleVal(a, y[..28]);
    AddEnd(x, a, r, carry);
    WrappedBytes(r, Val(x) + 8 * Val(y[..28]));
  }

  /** add256bits: x plus y, modulo 2^256; the carry never exceeds 1. */
  method Add256Bits(x: seq<Byte>, y: seq<Byte>) returns (r: seq<Byte>, ghost carries: seq<nat>)
    requires |x| == 32 && |y| == 32
    ensures r == ToBytes((Val(x) + Val(y)) % TWO_256, 32)
    ensures AreCarries(x, y, carries, 32, 1)
  {
    var carry: nat := 0;
    var out := new Byte[32];
    carries := [0];
    AddStart(x, y);
    assert out[..0] == [];
    for i := 0 to 32
      invariant Adding(x, y, out[..i], i, carry)
      invariant AreCarries(x, y, carries, i, 1) && carries[i] == carry
    {
      carry := StoreByte(x, y, out, i, carry, y[i]);
      CarryStep(x, y, carries, i, 1, carry);
      carries := carries + [carry];
    }
    r := out[..];
    assert out[..32] == r;
    AddEnd(x, y, r, carry);
    WrappedBytes(r, Val(x) + Val(y));
  }
}
