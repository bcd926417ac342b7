/** Shared vocabulary: optional values, instants and finite sums. */
module Prelude {

  datatype Option<+T> = None | Some(value: T)

  datatype Result<+T, +E> = Ok(value: T) | Err(error: E)

  /** Instants and durations in whole microseconds, the resolution of Python's `datetime`. */
  type Time = int

  const SECOND: Time := 1_000_000
  const MINUTE: Time := 60_000_000
  const HOUR: Time := 3_600_000_000
  const DAY: Time := 86_400_000_000

  function Min(a: int, b: int): int {
    if a <= b then a else b
  }

  function Max(a: int, b: int): int {
    if a >= b then a else b
  }

  function MaxReal(a: real, b: real): real {
    if a >= b then a else b
  }

  function MinReal(a: real, b: real): real {
    if a <= b then a else b
  }

  /** Some element of a set, as iteration over an unordered collection meets it. */
  method Choose<T>(s: set<T>) returns (x: T)
    requires s != {}
    ensures x in s
  {
    x :| x in s;
  }

  /** f(lo) + f(lo + 1) + ... + f(hi - 1) */
  ghost function Sum(f: int -> real, lo: int, hi: int): real
    requires lo <= hi
    decreases hi - lo
  {
    if lo == hi then 0.0 else Sum(f, lo, hi - 1) + f(hi - 1)
  }

  lemma {:induction false} SumOfTwo(f: int -> real, g: int -> real, h: int -> real, lo: int, hi: int)
    requires lo <= hi
    requires forall p :: lo <= p < hi ==> h(p) == f(p) + g(p)
    ensures Sum(h, lo, hi) == Sum(f, lo, hi) + Sum(g, lo, hi)
    decreases hi - lo
  {
    if lo == hi {
    } else {
      SumOfTwo(f, g, h, lo, hi - 1);
    }
  }
}
