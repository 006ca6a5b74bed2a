/** Small vocabulary shared by the models. */
module Common {

  datatype Option<+T> = None | Some(value: T)

  datatype Result<+T, +E> = Ok(value: T) | Err(error: E)

  function Min(a: int, b: int): int {
    if a < b then a else b
  }

  function Max(a: int, b: int): int {
    if a < b then b else a
  }

  function Pow2(n: nat): (r: nat)
    ensures r > n
  {
    if n == 0 then 1 else 2 * Pow2(n - 1)
  }

  lemma {:induction false} Pow2Monotone(m: nat, n: nat)
    requires m <= n
    ensures Pow2(m) <= Pow2(n)
    decreases n
  {
    if m < n {
      Pow2Monotone(m, n - 1);
    }
  }

  /** If `k` steps of length `step` fit in `span`, then `k` is at most the quotient. */
  lemma StepsFit(k: int, step: int, span: int)
    requires step > 0 && k * step <= span
    ensures k <= span / step
  {
    var q := span / step;
    assert span < q * step + step;
    if k > q {
      MulMonotone(step, q + 1, k);
      assert false;
    }
  }

  lemma MulMonotone(k: int, a: int, b: int)
    requires k >= 0 && a <= b
    ensures k * a <= k * b
  {
  }

  /**
   * `batches` batches of at most `m` events each, the last holding `open` so far, beginning at
   * least `gap` apart except for `late` of them: how many events fit in `span`.
   */
  lemma BatchArithmetic(m: int, gap: int, n: nat, carry: nat, batches: nat, open: int, late: nat, span: nat)
    requires m > 0 && gap > 0 && open <= m
    requires if batches == 0 then n <= carry else n <= carry + (batches - 1) * m + open && (batches - 1 - late) * gap <= span
    ensures n <= carry + m * (span / gap + 1 + late)
  {
    var most := span / gap + 1 + late;
    if batches > 0 {
      StepsFit(batches - 1 - late, gap, span);
      MulMonotone(m, batches, most);
      assert (batches - 1) * m + m == batches * m;
    } else {
      MulMonotone(m, 0, most);
    }
  }

  lemma FullBatches(m: int, gap: int, n: nat, batches: nat, open: int, span: nat)
    requires m > 0 && gap > 0 && open <= m && batches > 0
    requires n <= (batches - 1) * m + open && (batches - 1) * gap <= span
    ensures n <= m * (span / gap + 1)
  {
    BatchArithmetic(m, gap, n, 0, batches, open, 0, span);
  }
}
