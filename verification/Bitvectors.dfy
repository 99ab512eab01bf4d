/** Bytes as numbers and as eight-bit vectors. */
module Bitvectors {

  lemma BitsBack(a: int)
    requires 0 <= a < 256
    ensures (a as bv8) as int == a
  {
  }

  lemma BitsInjective(a: int, b: int)
    requires 0 <= a < 256 && 0 <= b < 256
    ensures a as bv8 == b as bv8 <==> a == b
  {
    BitsBack(a);
    BitsBack(b);
  }

  lemma NumberBack(a: bv8)
    ensures (a as nat) as bv8 == a
  {
  }

  lemma OtherNumber(a: bv8, b: bv8)
    requires a != b
    ensures a as nat != b as nat
  {
    NumberBack(a);
    NumberBack(b);
  }
}
