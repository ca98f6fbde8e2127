/**
  32-bit two's-complement integers: Go's `int32(x)` conversion and Java's
  `int` arithmetic both keep the low 32 bits of the exact result.
 */
module Int32Arith {

  const Modulus: int := 0x1_0000_0000

  type Int32 = x: int | -0x8000_0000 <= x < 0x8000_0000

  /** The value of the low 32 bits of `x`, read as a signed number. */
  function Wrap(x: int): (r: Int32)
    ensures (r - x) % Modulus == 0
    ensures -0x8000_0000 <= x < 0x8000_0000 ==> r == x
  {
    (x + 0x8000_0000) % Modulus - 0x8000_0000
  }

  /** An `int32` value is fixed by its residue modulo 2^32. */
  lemma SameResidue(x: int, r: Int32)
    requires (r - x) % Modulus == 0
    ensures Wrap(x) == r
  {
    var w := Wrap(x);
    assert (w - r) % Modulus == ((w - x) - (r - x)) % Modulus;
    assert -Modulus < w - r < Modulus;
  }

  /** Subtracting and then adding the same amount in 32-bit arithmetic restores the start value. */
  lemma SubThenAdd(a: Int32, b: int)
    ensures Wrap(Wrap(a - b) + b) == a
  {
    var d := Wrap(a - b);
    assert (d - (a - b)) % Modulus == 0;
    assert (a - (d + b)) % Modulus == (-(d - (a - b))) % Modulus;
    SameResidue(d + b, a);
  }
}
