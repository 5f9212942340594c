/** The alignment arithmetic behind every O_DIRECT decision. */
module Align {
  import opened Posix

  const ALIGN: nat := 4096

  function AlignDown(x: nat, a: nat): nat
    requires a > 0
  {
    x / a * a
  }

  /** The sum saturates at `u64::MAX`, so the top of the range rounds down instead of up. */
  function AlignUp(x: nat, a: nat): nat
    requires a > 0
  {
    SatAdd(x, a - 1) / a * a
  }

  lemma MultipleIsZeroRemainder(k: nat, a: nat)
    requires a > 0
    ensures (k * a) % a == 0
    ensures (k * a) / a == k
  {
    var n := k * a;
    QuotientUnique(n, a, k, 0);
  }

  lemma QuotientUnique(n: nat, a: nat, q: nat, r: nat)
    requires a > 0 && r < a && n == q * a + r
    ensures n / a == q && n % a == r
  {
    var q', r' := n / a, n % a;
    assert n == q' * a + r';
    if q' < q {
      MulMonotone(q', q, a);
      MulMonotone(q' + 1, q, a);
    } else if q < q' {
      MulMonotone(q, q', a);
      MulMonotone(q + 1, q', a);
    }
  }

  /** The greatest multiple of `a` that does not exceed `x`. */
  lemma AlignDownIsFloor(x: nat, a: nat)
    requires a > 0
    ensures AlignDown(x, a) <= x < AlignDown(x, a) + a
    ensures AlignDown(x, a) % a == 0
    ensures forall m: nat :: m <= x && m % a == 0 ==> m <= AlignDown(x, a)
  {
    MultipleIsZeroRemainder(x / a, a);
    forall m: nat | m <= x && m % a == 0
      ensures m <= AlignDown(x, a)
    {
      assert m == m / a * a;
      DivMonotone(m, x, a);
      MulMonotone(m / a, x / a, a);
    }
  }

  lemma DivMonotone(x: nat, y: nat, a: nat)
    requires a > 0 && x <= y
    ensures x / a <= y / a
  {
    if x / a > y / a {
      MulMonotone(y / a, x / a, a);
      MulMonotone(y / a + 1, x / a, a);
    }
  }

  lemma MulMonotone(i: nat, j: nat, a: nat)
    requires i <= j
    ensures i * a <= j * a
    ensures (i + 1) * a == i * a + a
  {
  }

  /**
   * For a u64 argument the result is an upper bound exactly up to the last
   * multiple of `a` below 2^64, and there it is the least multiple above `x`.
   */
  lemma AlignUpIsCeilingUntilSaturation(x: nat, a: nat)
    requires 0 < a < U64 && x < U64
    ensures AlignUp(x, a) % a == 0
    ensures x <= AlignUp(x, a) <==> x <= AlignDown(U64 - 1, a)
    ensures x <= AlignDown(U64 - 1, a) ==> AlignUp(x, a) < x + a
    ensures x <= AlignDown(U64 - 1, a) ==> forall m: nat :: x <= m && m % a == 0 ==> AlignUp(x, a) <= m
  {
    var y := SatAdd(x, a - 1);
    AlignDownIsFloor(y, a);
    AlignDownIsFloor(U64 - 1, a);
    var top := AlignDown(U64 - 1, a);
    assert AlignUp(x, a) == AlignDown(y, a);
    if x <= top {
      if x + (a - 1) > U64 - 1 {
        assert AlignUp(x, a) == top;
      }
      forall m: nat | x <= m && m % a == 0
        ensures AlignUp(x, a) <= m
      {
        if m < AlignUp(x, a) {
          StepBetweenMultiples(m, AlignUp(x, a), a);
        }
      }
    } else {
      assert y <= U64 - 1;
      DivMonotone(y, U64 - 1, a);
      MulMonotone(y / a, (U64 - 1) / a, a);
    }
  }

  /** Distinct multiples of `a` are at least `a` apart. */
  lemma StepBetweenMultiples(m: nat, n: nat, a: nat)
    requires a > 0 && m < n && m % a == 0 && n % a == 0
    ensures m + a <= n
  {
    assert m == m / a * a && n == n / a * a;
    if n / a <= m / a {
      MulMonotone(n / a, m / a, a);
    } else {
      MulMonotone(m / a + 1, n / a, a);
      MulMonotone(m / a, n / a, a);
    }
  }

  /** The difference and the sum of multiples are multiples. */
  lemma MultiplesClosed(m: nat, n: nat, a: nat)
    requires a > 0 && m % a == 0 && n % a == 0
    ensures (m + n) % a == 0
    ensures m <= n ==> (n - m) % a == 0
  {
    var i, j := m / a, n / a;
    assert m == i * a && n == j * a;
    assert m + n == (i + j) * a;
    MultipleIsZeroRemainder(i + j, a);
    if m <= n {
      if j < i {
        MulMonotone(j, i, a);
      }
      assert n - m == (j - i) * a;
      MultipleIsZeroRemainder(j - i, a);
    }
  }

  /** A short final block padded to ALIGN still fits the chunk it came from. */
  lemma PaddedBlockFitsChunk(len: nat, chunk: nat)
    requires 0 < len <= chunk < U64 && chunk % ALIGN == 0
    ensures len <= AlignUp(len, ALIGN) <= chunk
    ensures AlignUp(len, ALIGN) % ALIGN == 0
  {
    AlignDownIsFloor(U64 - 1, ALIGN);
    AlignUpIsCeilingUntilSaturation(len, ALIGN);
  }
}
