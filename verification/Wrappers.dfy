/** Bytes, and optional and fallible results, shared by the models. */
module Wrappers {

  type Byte = n: int | 0 <= n < 256

  datatype Option<+T> = None | Some(value: T)

  datatype Result<+T, +E> = Ok(value: T) | Err(error: E)

  /**
   Always true. A quantifier `forall t {:trigger Mention(t)} :: t == s ==> P(t)` hides `P(s)` from proofs
   that only hand it on; `assert Mention(s);` lets it be used.
   */
  ghost predicate Mention<T(!new)>(t: T) {
    true
  }

  // ---- division ----

  lemma {:induction false} RemainderIs(a: int, b: int, q: int, r: int)
    requires b > 0 && a == b * q + r && 0 <= r < b
    ensures a / b == q && a % b == r
  {
    Distribute(b, q, a / b);
    AtLeast(b, q - a / b);
    AtLeast(b, a / b - q);
  }

  lemma Distribute(b: int, q: int, p: int)
    ensures b * (q - p) == b * q - b * p && b * (p - q) == b * p - b * q
  {
  }

  lemma AtLeast(b: int, k: int)
    requires b > 0
    ensures k > 0 ==> b * k >= b
  {
    if k > 0 { assert b * k == b * (k - 1) + b && b * (k - 1) >= 0; }
  }
}
