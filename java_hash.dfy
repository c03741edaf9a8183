/**
 * Java's 32-bit hash-code arithmetic: `int` wrap-around, `Arrays.hashCode` (which
 * `Objects.hash` and `List.hashCode` follow) and the hash code of a null reference.
 */
module JavaHash {
  import opened Wrappers
  import opened Items

  const TwoTo32: int := 0x1_0000_0000

  /** The Java `int` congruent to `x` modulo 2^32. */
  function Wrap(x: int): (r: Int32)
    ensures (r - x) % TwoTo32 == 0
  {
    var m := x % TwoTo32;
    if m < 0x8000_0000 then m else m - TwoTo32
  }

  /** `result = 31 * result + h` over `hs`, in `int` arithmetic, starting from `acc`. */
  function Combine(acc: Int32, hs: seq<Int32>): Int32
    decreases |hs|
  {
    if hs == [] then acc else Combine(Wrap(31 * acc + hs[0]), hs[1..])
  }

  /** `Arrays.hashCode`: `Combine` started from 1. */
  function HashOfElements(hs: seq<Int32>): Int32
  {
    Combine(1, hs)
  }

  /** `Objects.hashCode` of a nullable reference: 0 for null. */
  function HashOrZero<T>(x: Option<T>, hash: T -> Int32): Int32
  {
    match x
    case None => 0
    case Some(v) => hash(v)
  }

  /** 31 to the power n. */
  function Pow31(n: nat): nat
  {
    if n == 0 then 1 else 31 * Pow31(n - 1)
  }

  /** The polynomial `Combine` computes before wrap-around: acc * 31^n + sum of hs[i] * 31^(n-1-i). */
  function Polynomial(acc: int, hs: seq<Int32>): int
    decreases |hs|
  {
    if hs == [] then acc else Polynomial(31 * acc + hs[0], hs[1..])
  }

  /** Adding d to the accumulator adds d * 31^n to the polynomial. */
  lemma {:induction false} PolynomialShift(acc: int, d: int, hs: seq<Int32>)
    ensures Polynomial(acc + d, hs) == Polynomial(acc, hs) + d * Pow31(|hs|)
    decreases |hs|
  {
    if hs != [] {
      PolynomialShift(31 * acc + hs[0], 31 * d, hs[1..]);
      assert 31 * (acc + d) + hs[0] == (31 * acc + hs[0]) + 31 * d;
      assert 31 * d * Pow31(|hs| - 1) == d * Pow31(|hs|);
    }
  }

  /** Numbers congruent modulo 2^32 wrap to the same Java `int`. */
  lemma WrapCongruent(x: int, y: int)
    requires (x - y) % TwoTo32 == 0
    ensures Wrap(x) == Wrap(y)
  {
  }

  /** Replacing the accumulator by its wrapped value does not change the wrapped polynomial. */
  lemma WrapAccumulator(y: int, hs: seq<Int32>)
    ensures Wrap(Polynomial(Wrap(y), hs)) == Wrap(Polynomial(y, hs))
  {
    var d := Wrap(y) - y;
    PolynomialShift(y, d, hs);
    var k := d / TwoTo32;
    assert d == k * TwoTo32;
    var p := Pow31(|hs|);
    assert d * p == TwoTo32 * (k * p);
    assert Polynomial(Wrap(y), hs) - Polynomial(y, hs) == TwoTo32 * (k * p);
    WrapCongruent(Polynomial(Wrap(y), hs), Polynomial(y, hs));
  }

  /**
   * Wrapping after every step, as `Arrays.hashCode` does, gives the same `int` as
   * evaluating the whole polynomial exactly and wrapping once.
   */
  lemma {:induction false} CombineIsWrappedPolynomial(acc: Int32, hs: seq<Int32>)
    ensures Combine(acc, hs) == Wrap(Polynomial(acc, hs))
    decreases |hs|
  {
    if hs != [] {
      var y := 31 * acc + hs[0];
      CombineIsWrappedPolynomial(Wrap(y), hs[1..]);
      WrapAccumulator(y, hs[1..]);
    }
  }

  /** `Objects.hash` of five values as one polynomial in 31, wrapped once. */
  lemma HashOfFive(a: Int32, b: Int32, c: Int32, d: Int32, e: Int32)
    ensures HashOfElements([a, b, c, d, e]) == Wrap(28629151 + 923521 * a + 29791 * b + 961 * c + 31 * d + e)
  {
    var hs := [a, b, c, d, e];
    CombineIsWrappedPolynomial(1, hs);
    assert hs[1..][1..][1..][1..][1..] == [];
    calc {
      Polynomial(1, hs);
      Polynomial(31 + a, [b, c, d, e]);
      Polynomial(31 * (31 + a) + b, [c, d, e]);
      Polynomial(31 * (31 * (31 + a) + b) + c, [d, e]);
      Polynomial(31 * (31 * (31 * (31 + a) + b) + c) + d, [e]);
      Polynomial(31 * (31 * (31 * (31 * (31 + a) + b) + c) + d) + e, []);
    }
  }
}
