/** Prefix-hash routing of prefill requests (eldr/serving/prefix_hash.py).

    Workers own points on a ring of 64-bit positions; a key goes to the owner of the first point
    at or after its hash, wrapping around, unless that worker is overloaded.  Hashing itself is a
    parameter: the ring is built from given positions, and the key's hash is given. */
module PrefixHash {
  import opened Vectors

  /** A virtual node: its position and its worker. */
  datatype Entry = Entry(pos: nat, idx: nat)

  /** The order of the sorted ring: by position, then by worker. */
  predicate NotAfter(a: Entry, b: Entry) {
    a.pos < b.pos || (a.pos == b.pos && a.idx <= b.idx)
  }

  ghost predicate Sorted(ring: seq<Entry>) {
    forall i, j :: 0 <= i < j < |ring| ==> NotAfter(ring[i], ring[j])
  }

  /** Going round from h, a is met before b. */
  predicate MetBefore(h: nat, a: Entry, b: Entry) {
    if a.pos >= h && b.pos < h then true
    else if a.pos < h && b.pos >= h then false
    else NotAfter(a, b)
  }

  /** e is the first entry met from h on. */
  ghost predicate IsFirst(ring: seq<Entry>, h: nat, e: Entry) {
    e in ring && forall x :: x in ring ==> MetBefore(h, e, x)
  }

  /** bisect.bisect_left on the positions. */
  method BisectLeft(ring: seq<Entry>, h: nat) returns (i: nat)
    requires Sorted(ring)
    ensures i <= |ring|
    ensures forall k :: 0 <= k < i ==> ring[k].pos < h
    ensures forall k :: i <= k < |ring| ==> ring[k].pos >= h
  {
    var lo, hi := 0, |ring|;
    while lo < hi
      invariant lo <= hi <= |ring|
      invariant forall k :: 0 <= k < lo ==> ring[k].pos < h
      invariant forall k :: hi <= k < |ring| ==> ring[k].pos >= h
    {
      var mid := (lo + hi) / 2;
      if ring[mid].pos < h {
        assert forall k :: 0 <= k < mid ==> NotAfter(ring[k], ring[mid]);
        lo := mid + 1;
      } else {
        assert forall k :: mid < k < |ring| ==> NotAfter(ring[mid], ring[k]);
        hi := mid;
      }
    }
    i := lo;
  }

  /** _ring_lookup: the sorted ring gives the first entry met from h on. */
  method RingLookup(ring: seq<Entry>, h: nat) returns (e: Entry)
    requires ring != [] && Sorted(ring)
    ensures IsFirst(ring, h, e)
  {
    var i := BisectLeft(ring, h);
    if i >= |ring| {
      i := 0;
    }
    e := ring[i];
    forall x | x in ring ensures MetBefore(h, e, x) {
      var k :| 0 <= k < |ring| && ring[k] == x;
      assert k > i ==> NotAfter(ring[i], ring[k]);
    }
  }

  /** The first entry is determined by the entries alone. */
  lemma FirstUnique(ring: seq<Entry>, ring': seq<Entry>, h: nat, e: Entry, e': Entry)
    requires IsFirst(ring, h, e) && IsFirst(ring', h, e') && forall x :: x in ring <==> x in ring'
    ensures e == e'
  {
    assert MetBefore(h, e, e') && MetBefore(h, e', e);
  }

  /** Adding workers moves keys only to the added workers, so removing them moves only theirs. */
  lemma Consistent(ring: seq<Entry>, added: seq<Entry>, ring': seq<Entry>, h: nat, e: Entry, e': Entry)
    requires forall x :: x in ring' <==> x in ring || x in added
    requires IsFirst(ring, h, e) && IsFirst(ring', h, e')
    ensures e' == e || e' in added
  {
    if e' in ring {
      assert MetBefore(h, e, e') && MetBefore(h, e', e);
    }
  }

  // ----- the load gate

  function Sum(loads: seq<nat>): nat {
    if loads == [] then 0 else Sum(loads[..|loads| - 1]) + loads[|loads| - 1]
  }

  ghost predicate LeastLoaded(loads: seq<nat>, w: nat) {
    && w < |loads|
    && (forall i :: 0 <= i < |loads| ==> loads[w] <= loads[i])
    && (forall i :: 0 <= i < w ==> loads[w] < loads[i])
  }

  /** min(workers, key=(load, index)). */
  method MinWorker(loads: seq<nat>) returns (w: nat)
    requires loads != []
    ensures LeastLoaded(loads, w)
  {
    w := 0;
    for i := 1 to |loads|
      invariant w < i
      invariant forall k :: 0 <= k < i ==> loads[w] <= loads[k]
      invariant forall k :: 0 <= k < w ==> loads[w] < loads[k]
    {
      if loads[i] < loads[w] {
        w := i;
      }
    }
  }

  lemma {:induction false} LeastAtMostAverage(loads: seq<nat>, low: nat)
    requires forall i :: 0 <= i < |loads| ==> low <= loads[i]
    ensures low * |loads| <= Sum(loads)
  {
    if loads != [] {
      LeastAtMostAverage(loads[..|loads| - 1], low);
    }
  }

  function Threshold(loads: seq<nat>, factor: real): real
    requires loads != []
  {
    (Sum(loads) + 1) as real / |loads| as real * factor
  }

  /** The load of w is at most factor times the average, with the incoming request counted. */
  ghost predicate Passes(loads: seq<nat>, factor: real, w: nat) {
    w < |loads| && loads[w] as real * |loads| as real <= (Sum(loads) + 1) as real * factor
  }

  lemma PassesIff(loads: seq<nat>, factor: real, w: nat)
    requires w < |loads|
    ensures Passes(loads, factor, w) <==> loads[w] as real <= Threshold(loads, factor)
  {
    TimesCount(loads[w] as real, (Sum(loads) + 1) as real, |loads| as real, factor);
  }

  lemma TimesCount(x: real, total: real, n: real, factor: real)
    requires n > 0.0
    ensures x * n <= total * factor <==> x <= total / n * factor
  {
    hide Mul;
    var t := total / n * factor;
    assert t * n == total * factor by {
      assert total / n * n == total;
      assert t * n == total / n * n * factor;
    }
    Cancels(x, t, n);
  }

  lemma Cancels(x: real, y: real, n: real)
    requires n > 0.0
    ensures x * n <= y * n <==> x <= y
  {
  }

  /** The sum adds every load once. */
  lemma {:induction false} SumConcat(a: seq<nat>, b: seq<nat>)
    ensures Sum(a + b) == Sum(a) + Sum(b) && (|b| == 1 ==> Sum(b) == b[0])
  {
    if b == [] {
      assert a + b == a;
    } else {
      SumConcat(a, b[..|b| - 1]);
      assert (a + b)[..|a + b| - 1] == a + b[..|b| - 1];
    }
  }

  lemma LeastBelowThreshold(loads: seq<nat>, w: nat, factor: real)
    requires LeastLoaded(loads, w) && factor >= 1.0
    ensures loads[w] as real <= Threshold(loads, factor)
  {
    LeastAtMostAverage(loads, loads[w]);
    ScaledAverage(loads[w], Sum(loads), |loads|, factor);
  }

  lemma ScaledAverage(low: nat, sum: nat, n: nat, factor: real)
    requires n > 0 && low * n <= sum && factor >= 1.0
    ensures low as real <= (sum + 1) as real / n as real * factor
  {
    var avg := (sum + 1) as real / n as real;
    assert avg * n as real == (sum + 1) as real;
    assert low as real * n as real == (low * n) as real;
    Cancel(n as real, low as real, avg);
  }

  datatype Result<T> = Ok(value: T) | ValueError | IndexError

  /** select: the owner of the key when its load passes the gate, otherwise the least loaded
      worker; an empty key has no owner.  The chosen worker always passes the gate.  A ring
      without virtual nodes has no entry to look up. */
  method Select(ring: seq<Entry>, workers: nat, factor: real, emptyKey: bool, h: nat, loads: seq<nat>)
    returns (r: Result<nat>)
    requires workers > 0 && factor >= 1.0 && Sorted(ring)
    requires forall x :: x in ring ==> x.idx < workers
    ensures r == ValueError <==> |loads| != workers
    ensures r == IndexError <==> |loads| == workers && !emptyKey && ring == []
    ensures r.Ok? ==> r.value < workers && Passes(loads, factor, r.value)
    ensures r.Ok? && emptyKey ==> LeastLoaded(loads, r.value)
    ensures r.Ok? && !emptyKey ==> forall e :: IsFirst(ring, h, e) ==>
              if Passes(loads, factor, e.idx) then r.value == e.idx
              else LeastLoaded(loads, r.value)
  {
    hide Threshold, Passes;
    if |loads| != workers {
      return ValueError;
    }
    forall w | 0 <= w < workers ensures Passes(loads, factor, w) <==> loads[w] as real <= Threshold(loads, factor) {
      PassesIff(loads, factor, w);
    }
    if emptyKey {
      var w := MinWorker(loads);
      LeastBelowThreshold(loads, w, factor);
      return Ok(w);
    }
    if ring == [] {
      return IndexError;
    }
    var initial := RingLookup(ring, h);
    forall e | IsFirst(ring, h, e) ensures e == initial {
      FirstUnique(ring, ring, h, e, initial);
    }
    var threshold := Threshold(loads, factor);
    if loads[initial.idx] as real <= threshold {
      return Ok(initial.idx);
    }
    var w := MinWorker(loads);
    LeastBelowThreshold(loads, w, factor);
    return Ok(w);
  }
}
