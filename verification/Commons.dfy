/** Options and block counting, shared by the components. */
module Commons {

  datatype Option<+T> = None | Some(value: T)

  function Min(a: int, b: int): int {
    if a <= b then a else b
  }

  /** ceil(total / block) */
  function NumBlocks(total: nat, block: nat): nat
    requires block > 0
  {
    (total + block - 1) / block
  }

  lemma MulMonotonic(x: int, y: int, d: nat)
    requires x <= y
    ensures x * d <= y * d
  {
  }

  /** The blocks begin before the end of the dimension and together reach it. */
  lemma BlockBegins(total: nat, block: nat, i: nat)
    requires block > 0 && i < NumBlocks(total, block)
    ensures i * block < total && (i + 1 == NumBlocks(total, block) ==> total <= (i + 1) * block)
  {
    var n := NumBlocks(total, block);
    assert n * block <= total + block - 1 < n * block + block;
    MulMonotonic(i + 1, n, block);
    assert (i + 1) * block == i * block + block;
  }

  /** All blocks together are at least as long as the dimension. */
  lemma BlocksReach(total: nat, block: nat)
    requires block > 0
    ensures total <= NumBlocks(total, block) * block
  {
    var n := NumBlocks(total, block);
    assert total + block - 1 < n * block + block;
  }

  /** A position lies in exactly one block. */
  lemma BlockContaining(r: int, block: nat, i: int)
    requires block > 0
    ensures i * block <= r < (i + 1) * block <==> r / block == i
  {
    var q := r / block;
    assert q * block <= r < q * block + block;
    assert (i + 1) * block == i * block + block;
    if i < q {
      MulMonotonic(i + 1, q, block);
    } else if i > q {
      MulMonotonic(q + 1, i, block);
      assert (q + 1) * block == q * block + block;
    }
  }
}
