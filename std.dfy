/** The parts of Rust's standard library that the lessons lean on:
    `Option`, `Result`, the `i32`/`u32`/`u8` ranges, `i32` division (which
    truncates toward zero) and a growable `Vec`. Integers are unbounded here;
    a Rust operation that would panic on overflow gets a range precondition. */
module Std {

  datatype Option<T> = None | Some(value: T) {

    /** `Option::unwrap_or`: the wrapped value, or `default` for `None`. */
    function UnwrapOr(default: T): (r: T)
      ensures Some? ==> r == value
      ensures None? ==> r == default
    {
      match this
      case Some(v) => v
      case None => default
    }

    /** `Option::unwrap`: panics on `None`, so only `Some` may be unwrapped. */
    function Unwrap(): (r: T)
      requires Some?
      ensures Some(r) == this
    {
      value
    }
  }

  /** `Result`, with the members Dafny's `:-` needs to behave like Rust's
      `?`: an `Err` is handed back to the caller unchanged. */
  datatype Result<T, E> = Ok(value: T) | Err(error: E) {

    predicate IsFailure() {
      Err?
    }

    function PropagateFailure<U>(): (r: Result<U, E>)
      requires Err?
      ensures r.Err? && r.error == error
    {
      Err(error)
    }

    function Extract(): (r: T)
      requires Ok?
      ensures Ok(r) == this
    {
      value
    }

    /** `Result::map_err`: an `Ok` passes through, an `Err` is converted. */
    function MapErr<E2>(f: E -> E2): (r: Result<T, E2>)
      ensures Ok? <==> r.Ok?
      ensures Ok? ==> r.value == value
      ensures Err? ==> r.error == f(error)
    {
      match this
      case Ok(v) => Ok(v)
      case Err(e) => Err(f(e))
    }
  }

  const I32_MIN: int := -0x8000_0000
  const I32_MAX: int := 0x7fff_ffff
  const U32_MAX: int := 0xffff_ffff

  predicate IsI32(x: int) { I32_MIN <= x <= I32_MAX }
  predicate IsU32(x: int) { 0 <= x <= U32_MAX }
  predicate IsU8(x: int) { 0 <= x < 256 }

  function Abs(x: int): nat { if x < 0 then -x else x }

  /** What generic code bounded by `PartialOrd` relies on when it only ever
      asks `x > y`: the comparison is irreflexive and transitive, and so is
      "not greater" (ties behave like equality). */
  ghost predicate StrictWeakOrder<T(!new)>(greater: (T, T) -> bool) {
    && (forall a :: !greater(a, a))
    && (forall a, b, c :: greater(a, b) && greater(b, c) ==> greater(a, c))
    && (forall a, b, c :: !greater(a, b) && !greater(b, c) ==> !greater(a, c))
  }

  /** `>` on integers. */
  function IntGreater(a: int, b: int): bool { a > b }

  lemma IntGreaterIsStrictWeakOrder()
    ensures StrictWeakOrder(IntGreater)
  {
  }

  /** Rust's `/` on integers: the quotient is rounded toward zero (Dafny's own
      `/` is Euclidean and rounds toward minus infinity for a negative
      dividend and a positive divisor). */
  function TruncDiv(a: int, b: int): int
    requires b != 0
  {
    if (a < 0) == (b < 0) then Abs(a) / Abs(b) else -(Abs(a) / Abs(b))
  }

  /** Rust's `%` on integers: the remainder that goes with `TruncDiv`. */
  function TruncRem(a: int, b: int): int
    requires b != 0
  {
    a - b * TruncDiv(a, b)
  }

  /** The defining properties of truncating division: `a == b*q + r`, the
      remainder is smaller than the divisor in magnitude and carries the sign
      of the dividend, and the quotient never exceeds the true quotient in
      magnitude. */
  lemma {:induction false} TruncDivSpec(a: int, b: int)
    requires b != 0
    ensures a == b * TruncDiv(a, b) + TruncRem(a, b)
    ensures Abs(TruncRem(a, b)) < Abs(b)
    ensures TruncRem(a, b) != 0 ==> (TruncRem(a, b) < 0 <==> a < 0)
    ensures Abs(TruncDiv(a, b)) * Abs(b) <= Abs(a)
  {
    var n: int, d: int := Abs(a), Abs(b);
    var q: int, m: int := n / d, n % d;
    EuclidFacts(n, d);
    TruncProduct(a, b);
    var t, r := TruncDiv(a, b), TruncRem(a, b);
    assert Abs(t) == q;
    if a >= 0 {
      assert r == m;
    } else {
      assert r == -m;
    }
  }

  /** Euclidean division of naturals: the quotient times the divisor plus a
      remainder below the divisor. */
  lemma EuclidFacts(n: int, d: int)
    requires n >= 0 && d > 0
    ensures n == d * (n / d) + n % d && 0 <= n % d < d && n / d >= 0
    ensures (n / d) * d == d * (n / d) <= n
  {
  }

  /** The product of the divisor and the truncated quotient: the largest
      multiple of the divisor not beyond the dividend in magnitude, with the
      dividend's sign. */
  lemma TruncProduct(a: int, b: int)
    requires b != 0
    ensures var p := Abs(b) * (Abs(a) / Abs(b));
      b * TruncDiv(a, b) == if a >= 0 then p else -p
  {
    var d: int, q: int := Abs(b), Abs(a) / Abs(b);
    var t := TruncDiv(a, b);
    NegMul(d, q);
    if a >= 0 {
      if b > 0 {
        assert b * t == d * q;
      } else {
        assert b * t == (-d) * (-q);
      }
    } else {
      if b > 0 {
        assert b * t == d * (-q);
      } else {
        assert b * t == (-d) * q;
      }
    }
  }

  /** Moving a minus sign out of a product. */
  lemma NegMul(x: int, y: int)
    ensures (-x) * y == -(x * y) && x * (-y) == -(x * y) && (-x) * (-y) == x * y
  {
  }

  /** The rule of signs for a product. */
  lemma MulSign(a: int, b: int)
    ensures a * b == 0 <==> a == 0 || b == 0
    ensures a * b > 0 <==> (a > 0 && b > 0) || (a < 0 && b < 0)
  {
    if a > 0 && b < 0 {
      assert a * b == -(a * -b);
    } else if a < 0 && b > 0 {
      assert a * b == -(-a * b);
    } else if a < 0 && b < 0 {
      assert a * b == (-a) * (-b);
    }
  }

  /** On a non-negative dividend and positive divisor the two divisions agree,
      so Dafny's `/` may be used there. */
  lemma TruncDivAgreesOnNaturals(a: nat, b: int)
    requires b > 0
    ensures TruncDiv(a, b) == a / b
  {
  }

  /** `i32` division panics on a zero divisor (handled by the callers in the
      lessons) and on `i32::MIN / -1`, the only quotient outside `i32`. */
  lemma {:induction false} TruncDivInRange(a: int, b: int)
    requires IsI32(a) && IsI32(b) && b != 0 && !(a == I32_MIN && b == -1)
    ensures IsI32(TruncDiv(a, b))
  {
    var n, d := Abs(a), Abs(b);
    QuotientBound(n, d);
    if d == 1 {
      assert n / d == n;
    }
  }

  lemma QuotientBound(n: nat, d: int)
    requires d >= 1
    ensures n / d <= n
    ensures d >= 2 ==> 2 * (n / d) <= n
  {
    var q, m := n / d, n % d;
    assert n == d * q + m && 0 <= m && 0 <= q;
    ScaleAtLeast(1, d, q);
    if d >= 2 {
      ScaleAtLeast(2, d, q);
    }
  }

  /** Scaling a natural number by a larger factor gives a larger product. */
  lemma ScaleAtLeast(k: int, d: int, q: nat)
    requires k <= d
    ensures k * q <= d * q
  {
    assert d * q - k * q == (d - k) * q;
  }

  /** A Rust `Vec<T>`: the growable buffer is modelled by its contents. */
  class Vec<T> {
    var elems: seq<T>

    /** `vec![...]` */
    constructor (elems: seq<T>)
      ensures this.elems == elems
    {
      this.elems := elems;
    }

    function Len(): nat
      reads this
    {
      |elems|
    }

    /** `Vec::push`: appends at the end. */
    method Push(x: T)
      modifies this
      ensures elems == old(elems) + [x]
    {
      elems := elems + [x];
    }

    /** `Vec::pop`: removes and returns the last element, or `None` when empty. */
    method Pop() returns (r: Option<T>)
      modifies this
      ensures old(elems) == [] ==> r == None && elems == []
      ensures old(elems) != [] ==> r == Some(old(elems)[|old(elems)| - 1]) && elems == old(elems)[..|old(elems)| - 1]
    {
      if elems == [] {
        r := None;
      } else {
        r := Some(elems[|elems| - 1]);
        elems := elems[..|elems| - 1];
      }
    }
  }
}
