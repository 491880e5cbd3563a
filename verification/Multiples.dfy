/** Products with a variable factor, one addition at a time. */
module Multiples {
  /** n * len, one len at a time. */
  function Times(n: nat, len: nat): nat {
    if n == 0 then 0 else Times(n - 1, len) + len
  }

  lemma {:induction false} TimesIs(n: nat, len: nat)
    ensures Times(n, len) == n * len
  {
    if n > 0 {
      TimesIs(n - 1, len);
      assert (n - 1) * len + len == n * len;
    }
  }

  lemma MulMono(a: nat, b: nat, span: nat)
    requires a <= b
    ensures a * span <= b * span
  {
    assert b * span == a * span + (b - a) * span;
  }

  lemma {:induction false} TimesMono(m: nat, n: nat, len: nat)
    requires m < n
    ensures Times(m, len) + len <= Times(n, len)
    decreases n
  {
    if m < n - 1 {
      TimesMono(m, n - 1, len);
    }
  }

  lemma {:induction false} TimesAdd(m: nat, n: nat, len: nat)
    ensures Times(m + n, len) == Times(m, len) + Times(n, len)
    decreases n
  {
    if n > 0 {
      TimesAdd(m, n - 1, len);
    }
  }

  lemma {:induction false} TimesTwo(n: nat, len: nat)
    ensures Times(n, 2 * len) == 2 * Times(n, len)
  {
    if n > 0 {
      TimesTwo(n - 1, len);
    }
  }

  lemma {:induction false} TimesFour(n: nat, len: nat)
    ensures Times(n, 4 * len) == 4 * Times(n, len)
  {
    if n > 0 {
      TimesFour(n - 1, len);
    }
  }
}
