/** Failure types and machine integers shared by every module. */
module Common {
  datatype Option<+T> = None | Some(value: T)

  /** A Go (value, error) pair: exactly one of the two is meaningful. */
  datatype Result<+T, +E> = Ok(value: T) | Err(error: E) {
    predicate IsFailure() {
      Err?
    }

    function PropagateFailure<U>(): Result<U, E>
      requires Err?
    {
      Err(error)
    }

    function Extract(): T
      requires Ok?
    {
      value
    }
  }

  const TWO_31 := 0x8000_0000
  const TWO_32 := 0x1_0000_0000
  const TWO_63 := 0x8000_0000_0000_0000
  const TWO_64 := 0x1_0000_0000_0000_0000

  type byte = x: int | 0 <= x < 256
  type bytes = seq<byte>
  type int64 = x: int | -TWO_63 <= x < TWO_63
  type uint64 = x: int | 0 <= x < TWO_64

  /** Go's uint64(x) for an int64: two's complement. */
  function ToUint64(x: int64): uint64 {
    x % TWO_64
  }

  /** Go's int64(x) for a uint64. */
  function ToInt64(u: uint64): int64 {
    if u < TWO_63 then u else u - TWO_64
  }

  /** Go's int32(x): the low 32 bits, read as two's complement. */
  function ToInt32(u: nat): int {
    var low := u % TWO_32;
    if low < TWO_31 then low else low - TWO_32
  }

  /** The int64 that Go's wrapping arithmetic leaves for the mathematical result x. */
  function Wrap(x: int): int64 {
    ToInt64(x % TWO_64)
  }

  /** Wrapping changes a number by a multiple of 2^64; with the range of int64 that determines the result. */
  lemma WrapIsCongruent(x: int)
    ensures (Wrap(x) - x) % TWO_64 == 0
  {
    var q := x / TWO_64;
    assert x == q * TWO_64 + x % TWO_64;
    if x % TWO_64 < TWO_63 {
      assert Wrap(x) - x == 0 + (-q) * TWO_64;
      ModAddMultiple(0, -q);
    } else {
      assert Wrap(x) - x == 0 + (-q - 1) * TWO_64;
      ModAddMultiple(0, -q - 1);
    }
  }

  /** Wrapping early or late makes no difference to a sum. */
  lemma WrapAbsorbs(x: int, y: int)
    ensures Wrap(Wrap(x) + y) == Wrap(x + y)
  {
    var q := x / TWO_64;
    assert x == q * TWO_64 + x % TWO_64;
    var w := Wrap(x);
    assert w == x % TWO_64 || w == x % TWO_64 - TWO_64;
    var d := if w == x % TWO_64 then q else q + 1;
    assert x + y == w + y + d * TWO_64;
    ModAddMultiple(w + y, d);
  }

  lemma ModAddMultiple(x: int, d: int)
    ensures (x + d * TWO_64) % TWO_64 == x % TWO_64
  {
  }
}
