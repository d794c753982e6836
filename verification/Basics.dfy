/** Small arithmetic and optional values that several modules share. */
module Basics {

  datatype Option<T> = None | Some(value: T)

  function Abs(x: real): real {
    if x < 0.0 then -x else x
  }

  function Min(x: real, y: real): real {
    if x < y then x else y
  }

  function Max(x: real, y: real): real {
    if x > y then x else y
  }

  function Clamp(x: real, lo: real, hi: real): real {
    if x < lo then lo else if x > hi then hi else x
  }

  /** A setting, or its default when the setting is not positive. */
  function Positive(x: real, fallback: real): (r: real)
    ensures fallback > 0.0 ==> r > 0.0
  {
    if x <= 0.0 then fallback else x
  }

  function PositiveInt(x: int, fallback: int): (r: int)
    ensures fallback > 0 ==> r > 0
  {
    if x <= 0 then fallback else x
  }

  /** When `q` decides at each step whether `p` goes on, `p` holds up to `n` exactly when `q` does before it. */
  lemma {:induction false} HoldsUpTo(p: nat -> bool, q: nat -> bool, n: nat)
    requires p(0) && forall k :: 0 <= k < n && p(k) ==> (p(k + 1) <==> q(k))
    ensures (forall k :: 0 <= k <= n ==> p(k)) <==> (forall k :: 0 <= k < n ==> q(k))
  {
    if n > 0 {
      HoldsUpTo(p, q, n - 1);
      assert p(n - 1) ==> (p(n - 1 + 1) <==> q(n - 1));
    }
  }
}
