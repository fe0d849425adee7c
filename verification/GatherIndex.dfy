/** Index arithmetic of cp_gather_indexer_k_quant_cache (vllm/_xpu_ops.py). */
module GatherIndex {
  import opened Common

  /** Cumulative sequence lengths: from 0, never decreasing; empty sequences are allowed. */
  ghost predicate Cumulative(cu: seq<nat>) {
    && |cu| >= 2 && cu[0] == 0
    && forall i, j :: 0 <= i < j < |cu| ==> cu[i] <= cu[j]
  }

  /** Token t belongs to sequence b. */
  ghost predicate Owns(cu: seq<nat>, b: nat, t: nat) {
    b + 1 < |cu| && cu[b] <= t < cu[b + 1]
  }

  /** torch.searchsorted: the first index whose entry is at least v. */
  method SearchSorted(cu: seq<nat>, v: nat) returns (r: nat)
    requires Cumulative(cu)
    ensures r <= |cu|
    ensures forall i :: 0 <= i < r ==> cu[i] < v
    ensures forall i :: r <= i < |cu| ==> v <= cu[i]
  {
    var lo, hi := 0, |cu|;
    while lo < hi
      invariant 0 <= lo <= hi <= |cu|
      invariant forall i :: 0 <= i < lo ==> cu[i] < v
      invariant forall i :: hi <= i < |cu| ==> v <= cu[i]
    {
      var mid := (lo + hi) / 2;
      if cu[mid] < v {
        lo := mid + 1;
      } else {
        hi := mid;
      }
    }
    r := lo;
  }

  /** The column of the block table that line 590 reads for the p-th token of a sequence. */
  function Column(p: nat, blockSize: nat): nat
    requires blockSize > 0
  {
    (p + 1) / blockSize
  }

  lemma DivSucc(p: nat, n: nat)
    requires n > 0
    ensures (p + 1) / n == if p % n == n - 1 then p / n + 1 else p / n
    ensures (p + 1) % n == if p % n == n - 1 then 0 else p % n + 1
  {
    var q, r := p / n, p % n;
    assert p == q * n + r;
    if r == n - 1 {
      assert p + 1 == (q + 1) * n;
      DivisionUnique(p + 1, n, q + 1, 0);
    } else {
      DivisionUnique(p + 1, n, q, r + 1);
    }
  }

  /** Lines 580-594 for one token.  The sequence and the offset in the block are right for
      every token of the batch; the column is one too far exactly at the last slot of a block. */
  method LocateToken(cu: seq<nat>, blockSize: nat, t: nat) returns (batch: nat, column: nat, offset: nat)
    requires Cumulative(cu) && blockSize > 0
    ensures t < cu[|cu| - 1] ==> Owns(cu, batch, t) && forall b: nat :: Owns(cu, b, t) ==> b == batch
    ensures t >= cu[|cu| - 1] ==> batch == |cu| - 2
    ensures cu[batch] <= t && offset == (t - cu[batch]) % blockSize
    ensures column == (t - cu[batch]) / blockSize <==> offset != blockSize - 1
    ensures offset == blockSize - 1 ==> column == (t - cu[batch]) / blockSize + 1
  {
    var token := t + 1;
    var found := SearchSorted(cu, token);
    assert found > 0;
    batch := found - 1;
    if batch > |cu| - 2 {
      batch := |cu| - 2;
    }
    var inBatch := token - cu[batch];
    DivSucc(t - cu[batch], blockSize);
    column := Column(t - cu[batch], blockSize);
    offset := (inBatch - 1) % blockSize;
  }

  /** How many of the first n tokens of a sequence are looked up in the wrong column. */
  function Misplaced(n: nat, blockSize: nat): nat
    requires blockSize > 0
  {
    if n == 0 then 0
    else Misplaced(n - 1, blockSize) + if Column(n - 1, blockSize) != (n - 1) / blockSize then 1 else 0
  }

  /** One token per full block is misplaced. */
  lemma {:induction false} MisplacedCount(n: nat, blockSize: nat)
    requires blockSize > 0
    ensures Misplaced(n, blockSize) == n / blockSize
  {
    if n > 0 {
      MisplacedCount(n - 1, blockSize);
      DivSucc(n - 1, blockSize);
    } else {
      DivisionUnique(0, blockSize, 0, 0);
    }
  }

  /** A sequence of n tokens has ceil(n / blockSize) blocks; every column read is one of them
      exactly when the last block is not full. */
  lemma ColumnsInTable(n: nat, blockSize: nat)
    requires blockSize > 0 && n > 0
    ensures (forall p: nat :: p < n ==> Column(p, blockSize) < (n + blockSize - 1) / blockSize) <==> n % blockSize != 0
  {
    var q, r := n / blockSize, n % blockSize;
    assert n == q * blockSize + r;
    assert Column(n - 1, blockSize) == q;
    if r == 0 {
      DivisionUnique(n + blockSize - 1, blockSize, q, blockSize - 1);
      assert n - 1 < n;
    } else {
      assert n + blockSize - 1 == (q + 1) * blockSize + (r - 1);
      DivisionUnique(n + blockSize - 1, blockSize, q + 1, r - 1);
      forall p: nat | p < n ensures Column(p, blockSize) <= q {
        DivMono(p + 1, n, blockSize);
      }
    }
  }

  lemma DivMono(a: nat, b: nat, n: nat)
    requires n > 0 && a <= b
    ensures a / n <= b / n
  {
    var p, q := a / n, b / n;
    assert a == p * n + a % n && b == q * n + b % n;
    MulMono(q + 1, p, n);
  }

  /** Line 616 places the scales of a block after one row of keys; the documented layout places
      them after all rows.  The two agree exactly for blocks of one token. */
  lemma ScaleOffset(block: nat, headDim: nat, blockSize: nat, offset: nat, scaleSize: nat)
    requires headDim > 0 && blockSize > 0
    ensures block + headDim + offset * scaleSize == block + blockSize * headDim + offset * scaleSize <==> blockSize == 1
  {
    if blockSize > 1 {
      MulMono(2, blockSize, headDim);
    }
  }
}
