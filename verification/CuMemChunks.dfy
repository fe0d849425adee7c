/** Size alignment and chunking of the ROCm allocator (csrc/cumem_allocator.cpp).

    All arithmetic is unsigned 64-bit: a sum wraps modulo 2^64. */
module CuMemChunks {
  import opened Common

  const TWO_64: nat := 0x1_0000_0000_0000_0000
  const MB: nat := 1024 * 1024
  const DEFAULT_MEMCREATE_CHUNK_SIZE: nat := 256 * MB

  /** What strtoull made of VLLM_ROCM_SLEEP_MEM_CHUNK_SIZE. */
  datatype Env = Unset | Unparsable | Parsed(megabytes: nat)

  /** The configured chunk size in bytes.  The guard at line 38 rejects exactly the values
      whose product would not fit in 64 bits. */
  function GetMemcreateChunkSize(env: Env): (r: nat)
    ensures 0 < r < TWO_64 && r % MB == 0
    ensures env.Parsed? && 0 < env.megabytes * MB < TWO_64 ==> r == env.megabytes * MB
    ensures !(env.Parsed? && 0 < env.megabytes * MB < TWO_64) ==> r == DEFAULT_MEMCREATE_CHUNK_SIZE
  {
    if env.Parsed? && env.megabytes != 0 && env.megabytes <= (TWO_64 - 1) / MB then
      env.megabytes * MB
    else DEFAULT_MEMCREATE_CHUNK_SIZE
  }

  function WrappingAdd(a: nat, b: nat): nat { (a + b) % TWO_64 }

  function WrappingSub(a: nat, b: nat): nat { (a - b) % TWO_64 }

  function MyMin(a: nat, b: nat): nat { if a < b then a else b }

  /** ((size + granularity - 1) / granularity) * granularity in 64 bits. */
  function AlignUp(size: nat, granularity: nat): nat
    requires granularity > 0
  {
    var q: nat := WrappingAdd(size, granularity - 1) / granularity;
    q * granularity
  }

  function CountChunks(aligned: nat, chunk: nat): nat
    requires chunk > 0
  {
    WrappingAdd(aligned, chunk - 1) / chunk
  }

  // ----- rounding up

  ghost predicate LeastMultiple(r: nat, x: nat, g: nat)
    requires g > 0
  {
    r % g == 0 && x <= r && forall m: nat :: m % g == 0 && x <= m ==> r <= m
  }

  lemma MultipleGap(a: nat, b: nat, g: nat)
    requires g > 0 && a % g == 0 && b % g == 0 && a < b
    ensures a + g <= b
  {
    var p, q := a / g, b / g;
    assert a == p * g && b == q * g;
    MulMono(q, p, g);
    MulMono(p + 1, q, g);
  }

  lemma RoundUp(x: nat, g: nat)
    requires g > 0
    ensures var r := (x + g - 1) / g * g; r % g == 0 && x <= r < x + g
  {
    var q := (x + g - 1) / g;
    assert x + g - 1 == q * g + (x + g - 1) % g;
    MultipleOf(q, g);
  }

  lemma MultipleOf(q: nat, g: nat)
    requires g > 0
    ensures q * g % g == 0
  {
    if q > 0 {
      MultipleOf(q - 1, g);
      assert q * g == (q - 1) * g + g;
      AddMultiple((q - 1) * g, g);
    }
  }

  lemma AddMultiple(a: nat, g: nat)
    requires g > 0
    ensures (a + g) % g == a % g
  {
    var q, s := a / g, a % g;
    assert a + g == (q + 1) * g + s;
    DivisionUnique(a + g, g, q + 1, s);
  }

  lemma SmallSum(a: nat, b: nat)
    requires a + b < TWO_64
    ensures WrappingAdd(a, b) == a + b
  {
  }

  /** The aligned size is the least multiple of the granularity that holds the request,
      exactly when the rounding sum fits in 64 bits; otherwise it is 0. */
  lemma AlignUpExact(size: nat, g: nat)
    requires 0 < g < TWO_64 && size < TWO_64
    ensures LeastMultiple(AlignUp(size, g), size, g) <==> size + g - 1 < TWO_64
    ensures size + g - 1 >= TWO_64 ==> AlignUp(size, g) == 0
    ensures AlignUp(size, g) < TWO_64
  {
    if size + g - 1 < TWO_64 {
      RoundUp(size, g);
      var r := AlignUp(size, g);
      SmallSum(size, g - 1);
      assert r == (size + g - 1) / g * g;
      hide AlignUp;
      forall m: nat | m % g == 0 && size <= m ensures r <= m {
        if m < r {
          MultipleGap(m, r, g);
        }
      }
      assert r <= size + g - 1;
    } else {
      var s := size + g - 1 - TWO_64;
      assert (size + g - 1) % TWO_64 == s;
      DivisionUnique(s, g, 0, s);
    }
  }

  // ----- chunks

  function Sum(chunks: seq<nat>): nat {
    if chunks == [] then 0 else chunks[0] + Sum(chunks[1..])
  }

  lemma {:induction false} SumAppend(chunks: seq<nat>, c: nat)
    ensures Sum(chunks + [c]) == Sum(chunks) + c
  {
    if chunks != [] {
      assert (chunks + [c])[1..] == chunks[1..] + [c];
      SumAppend(chunks[1..], c);
    }
  }

  /** What a plan must give the driver: the least aligned size, cut into positive multiples of
      the granularity that add up to it, all but the last of the aligned chunk size. */
  ghost predicate GoodPlan(size: nat, g: nat, chunk: nat, aligned: nat, chunks: seq<nat>)
    requires g > 0
  {
    && LeastMultiple(aligned, size, g)
    && Sum(chunks) == aligned
    && (forall i :: 0 <= i < |chunks| ==> 0 < chunks[i] && chunks[i] % g == 0)
    && (forall i :: 0 <= i < |chunks| - 1 ==> chunks[i] == chunk)
    && (chunks != [] ==> chunks[|chunks| - 1] <= chunk)
  }

  /** No intermediate sum of the plan wraps. */
  predicate FitsIn64(size: nat, g: nat, base: nat)
    requires 0 < g < TWO_64
  {
    && size + g - 1 < TWO_64
    && base + g - 1 < TWO_64
    && AlignUp(size, g) + AlignUp(base, g) - 1 < TWO_64
  }

  function ChunkAt(aligned: nat, chunk: nat, i: nat): nat {
    MyMin(WrappingSub(aligned, i * chunk), chunk)
  }

  lemma ChunkCount(aligned: nat, chunk: nat)
    requires chunk > 0 && aligned + chunk - 1 < TWO_64
    ensures var n := CountChunks(aligned, chunk);
            && aligned <= n * chunk
            && (n > 0 ==> (n - 1) * chunk < aligned <= (n - 1) * chunk + chunk)
  {
    hide CountChunks;
    NoWrap(aligned, chunk);
    RoundUp(aligned, chunk);
    OneLess(CountChunks(aligned, chunk), chunk);
  }

  lemma NoWrap(aligned: nat, chunk: nat)
    requires chunk > 0 && aligned + chunk - 1 < TWO_64
    ensures CountChunks(aligned, chunk) == (aligned + chunk - 1) / chunk
  {
  }

  lemma OneLess(n: nat, chunk: nat)
    ensures n > 0 ==> (n - 1) * chunk + chunk == n * chunk
  {
  }

  lemma BelowLast(i: nat, n: nat, chunk: nat)
    requires i < n
    ensures i * chunk <= (n - 1) * chunk
    ensures i < n - 1 ==> i * chunk + chunk <= (n - 1) * chunk
  {
    if i < n - 1 {
      assert (i + 1) * chunk <= (n - 1) * chunk;
    }
  }

  lemma DifferenceMultiple(a: nat, b: nat, g: nat)
    requires g > 0 && a % g == 0 && b % g == 0 && b <= a
    ensures (a - b) % g == 0
  {
    var p, q := a / g, b / g;
    assert a == p * g && b == q * g;
    assert a - b == (p - q) * g;
    MulMono(p + 1, q, g);
    MultipleOf(p - q, g);
  }

  lemma ProductMultiple(i: nat, c: nat, g: nat)
    requires g > 0 && c % g == 0
    ensures i * c % g == 0
  {
    var q := c / g;
    assert c == q * g;
    assert i * c == i * q * g;
    MultipleOf(i * q, g);
  }

  /** The i-th chunk, when nothing wraps: no underflow, and the size is as promised. */
  lemma ChunkIs(aligned: nat, chunk: nat, g: nat, i: nat)
    requires g > 0 && chunk > 0 && aligned + chunk - 1 < TWO_64
    requires aligned % g == 0 && chunk % g == 0
    requires i < CountChunks(aligned, chunk)
    ensures i * chunk < aligned
    ensures var c := ChunkAt(aligned, chunk, i);
            && 0 < c <= chunk && c % g == 0
            && (i < CountChunks(aligned, chunk) - 1 ==> c == chunk)
            && (i == CountChunks(aligned, chunk) - 1 ==> c == aligned - i * chunk)
  {
    hide CountChunks, WrappingSub;
    var n, x := CountChunks(aligned, chunk), i * chunk;
    ChunkCount(aligned, chunk);
    BelowLast(i, n, chunk);
    SubNoWrap(aligned, x);
    ProductMultiple(i, chunk, g);
    DifferenceMultiple(aligned, x, g);
  }

  lemma SubNoWrap(a: nat, b: nat)
    requires b <= a < TWO_64
    ensures WrappingSub(a, b) == a - b
  {
  }

  datatype Plan = Plan(alignedSize: nat, alignedChunk: nat, chunks: seq<nat>) | DivisionByZero

  /** Lines 319 and 344-369 of my_malloc.  The plan is good exactly when no intermediate sum
      wraps; a configured chunk size that wraps ends in a division by zero. */
  method PlanChunks(size: nat, granularity: nat, env: Env) returns (r: Plan)
    requires 0 < granularity < TWO_64 && size < TWO_64
    ensures r.DivisionByZero? <==> GetMemcreateChunkSize(env) + granularity - 1 >= TWO_64
    ensures r.Plan? ==> r.alignedSize == AlignUp(size, granularity) &&
                        r.alignedChunk == AlignUp(GetMemcreateChunkSize(env), granularity)
    ensures (r.Plan? && GoodPlan(size, granularity, r.alignedChunk, r.alignedSize, r.chunks)) <==>
            FitsIn64(size, granularity, GetMemcreateChunkSize(env))
    ensures r.Plan? && !FitsIn64(size, granularity, GetMemcreateChunkSize(env)) ==> r.chunks == []
  {
    hide LeastMultiple, AlignUp;
    var alignedSize := AlignUp(size, granularity);
    var baseChunk := GetMemcreateChunkSize(env);
    var alignedChunk := AlignUp(baseChunk, granularity);
    AlignUpExact(size, granularity);
    AlignUpExact(baseChunk, granularity);
    LeastMultiplePositive(alignedChunk, baseChunk, granularity);
    if alignedChunk == 0 {
      return DivisionByZero;
    }
    var numChunks := CountChunks(alignedSize, alignedChunk);
    var chunkSizes := new nat[numChunks];
    for i := 0 to numChunks
      invariant forall k :: 0 <= k < i ==> chunkSizes[k] == ChunkAt(alignedSize, alignedChunk, k)
    {
      chunkSizes[i] := ChunkAt(alignedSize, alignedChunk, i);
    }
    r := Plan(alignedSize, alignedChunk, chunkSizes[..]);
    PlanIsGood(size, granularity, baseChunk, r.chunks);
    NoChunks(alignedSize, alignedChunk);
  }

  lemma LeastMultiplePositive(r: nat, x: nat, g: nat)
    requires g > 0 && x > 0
    ensures LeastMultiple(r, x, g) ==> r > 0
  {
  }

  ghost predicate ChunksOf(aligned: nat, chunk: nat, chunks: seq<nat>)
    requires chunk > 0
  {
    && |chunks| == CountChunks(aligned, chunk)
    && forall i :: 0 <= i < |chunks| ==> chunks[i] == ChunkAt(aligned, chunk, i)
  }

  lemma PlanIsGood(size: nat, g: nat, base: nat, chunks: seq<nat>)
    requires 0 < g < TWO_64 && size < TWO_64 && 0 < base < TWO_64
    requires AlignUp(base, g) > 0 && ChunksOf(AlignUp(size, g), AlignUp(base, g), chunks)
    ensures GoodPlan(size, g, AlignUp(base, g), AlignUp(size, g), chunks) <==> FitsIn64(size, g, base)
  {
    hide LeastMultiple, AlignUp;
    var aligned, chunk := AlignUp(size, g), AlignUp(base, g);
    AlignUpExact(size, g);
    AlignUpExact(base, g);
    if FitsIn64(size, g, base) {
      MultipleFact(aligned, size, g);
      MultipleFact(chunk, base, g);
      forall i | 0 <= i < |chunks|
        ensures 0 < chunks[i] <= chunk && chunks[i] % g == 0 && (i < |chunks| - 1 ==> chunks[i] == chunk)
      {
        ChunkIs(aligned, chunk, g, i);
      }
      SumOfChunks(aligned, chunk, g, chunks);
    } else if size + g - 1 < TWO_64 && base + g - 1 < TWO_64 {
      TooMany(aligned, chunk);
      assert chunks == [];
    }
  }

  lemma MultipleFact(r: nat, x: nat, g: nat)
    requires g > 0 && LeastMultiple(r, x, g)
    ensures r % g == 0 && x <= r
  {
  }

  lemma NoChunks(aligned: nat, chunk: nat)
    requires 0 < chunk < TWO_64 && aligned < TWO_64
    ensures aligned == 0 || aligned + chunk - 1 >= TWO_64 ==> CountChunks(aligned, chunk) == 0
  {
    if aligned + chunk - 1 >= TWO_64 {
      TooMany(aligned, chunk);
    }
  }

  /** When the count wraps, no chunk is planned at all, for a non-empty request. */
  lemma TooMany(aligned: nat, chunk: nat)
    requires 0 < chunk < TWO_64 && aligned < TWO_64 && aligned + chunk - 1 >= TWO_64
    ensures CountChunks(aligned, chunk) == 0 && aligned > 0
  {
    var s := aligned + chunk - 1 - TWO_64;
    assert (aligned + chunk - 1) % TWO_64 == s;
    DivisionUnique(s, chunk, 0, s);
  }

  lemma SumOfChunks(aligned: nat, chunk: nat, g: nat, chunks: seq<nat>)
    requires g > 0 && chunk > 0 && aligned + chunk - 1 < TWO_64
    requires aligned % g == 0 && chunk % g == 0 && ChunksOf(aligned, chunk, chunks)
    ensures Sum(chunks) == aligned
  {
    var n := |chunks|;
    ChunkCount(aligned, chunk);
    if n > 0 {
      var init := chunks[..n - 1];
      forall i | 0 <= i < n - 1 ensures init[i] == chunk {
        ChunkIs(aligned, chunk, g, i);
      }
      SumRepeated(init, chunk);
      ChunkIs(aligned, chunk, g, n - 1);
      assert chunks == init + [chunks[n - 1]];
      SumAppend(init, chunks[n - 1]);
    }
  }

  lemma {:induction false} SumRepeated(chunks: seq<nat>, c: nat)
    requires forall i :: 0 <= i < |chunks| ==> chunks[i] == c
    ensures Sum(chunks) == |chunks| * c
  {
    if chunks != [] {
      SumRepeated(chunks[1..], c);
      assert |chunks| * c == c + (|chunks| - 1) * c;
    }
  }
}
