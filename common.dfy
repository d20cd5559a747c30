/** Small shared vocabulary: Go's uint32 arithmetic and the error-carrying
    wrappers used for calls that may fail. */
module Common {

  /** 2^32: the modulus of Go's uint32 arithmetic. */
  const Modulus: int := 0x1_0000_0000

  /** A Go uint32 value. */
  type U32 = x: int | 0 <= x < 0x1_0000_0000

  /** Go's `a + b` on uint32: wraps around at 2^32. */
  function Add32(a: U32, b: U32): (r: U32)
    ensures a + b < Modulus ==> r == a + b
    ensures a + b >= Modulus ==> r == a + b - Modulus
  {
    (a + b) % Modulus
  }

  /** Adding to a value already reduced modulo 2^32 is the same as adding first
      and reducing after. */
  lemma ModAdd(a: nat, x: U32)
    ensures Add32(a % Modulus, x) == (a + x) % Modulus
  {
    var q, r := a / Modulus, a % Modulus;
    assert a == q * Modulus + r;
    if r + x < Modulus {
      assert a + x == q * Modulus + (r + x);
    } else {
      assert a + x == (q + 1) * Modulus + (r + x - Modulus);
    }
  }

  datatype Option<+T> = None | Some(value: T)

  /** The (value, error) pair of a Go call: exactly one of the two is meaningful. */
  datatype Result<+T> = Ok(value: T) | Err(error: string)

  /** A non-empty set has an element, in the form a `:|` choice needs. */
  lemma NonEmptyHasElement<T>(s: set<T>)
    requires s != {}
    ensures exists x :: x in s
  {
    if forall x :: x !in s {
      assert false;
    }
  }

  /** Some element of a non-empty set. */
  ghost function Pick<T>(s: set<T>): (x: T)
    requires s != {}
    ensures x in s
  {
    NonEmptyHasElement(s);
    var x :| x in s; x
  }
}
