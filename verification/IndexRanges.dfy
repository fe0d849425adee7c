/** Range notation for layer indices (_format_index_ranges in vllm/model_inspection.py). */
module IndexRanges {

  datatype Result<T> = Ok(value: T) | IndexError

  /** A range from start to end, both included; printed as one number when they are equal. */
  datatype Range = Range(start: int, end: int)

  ghost predicate Sorted(s: seq<int>) {
    forall i, j :: 0 <= i < j < |s| ==> s[i] <= s[j]
  }

  method Insert(r: seq<int>, x: int) returns (s: seq<int>)
    requires Sorted(r)
    ensures Sorted(s) && multiset(s) == multiset(r) + multiset{x}
  {
    var k := |r|;
    while k > 0 && r[k - 1] > x
      invariant 0 <= k <= |r|
      invariant forall m :: k <= m < |r| ==> x <= r[m]
    {
      k := k - 1;
    }
    hide Sorted;
    SortedInsert(r, k, x);
    InsertPermutes(r, k, x);
    s := r[..k] + [x] + r[k..];
  }

  lemma InsertPermutes(r: seq<int>, k: nat, x: int)
    requires k <= |r|
    ensures multiset(r[..k] + [x] + r[k..]) == multiset(r) + multiset{x}
  {
    assert r == r[..k] + r[k..];
  }

  method Sort(s: seq<int>) returns (r: seq<int>)
    ensures Sorted(r) && multiset(r) == multiset(s)
  {
    r := [];
    for i := 0 to |s|
      invariant Sorted(r) && multiset(r) == multiset(s[..i])
    {
      assert s[..i + 1] == s[..i] + [s[i]];
      r := Insert(r, s[i]);
    }
    assert s[..|s|] == s;
  }

  lemma SortedInsert(r: seq<int>, k: nat, x: int)
    requires k <= |r| && Sorted(r) && (k > 0 ==> r[k - 1] <= x)
    requires forall m :: k <= m < |r| ==> x <= r[m]
    ensures Sorted(r[..k] + [x] + r[k..])
  {
    forall m | 0 <= m < k ensures r[m] <= x {
      assert m < k - 1 ==> r[m] <= r[k - 1];
    }
  }

  /** The numbers a range stands for. */
  function Numbers(r: Range): (s: seq<int>)
    requires r.start <= r.end
    ensures |s| == r.end - r.start + 1 && forall i :: 0 <= i < |s| ==> s[i] == r.start + i
  {
    seq(r.end - r.start + 1, i => r.start + i)
  }

  ghost predicate Proper(ranges: seq<Range>) {
    forall i :: 0 <= i < |ranges| ==> ranges[i].start <= ranges[i].end
  }

  /** The numbers that the ranges stand for, in order. */
  function Expand(ranges: seq<Range>): seq<int>
    requires Proper(ranges)
  {
    if ranges == [] then []
    else Expand(ranges[..|ranges| - 1]) + Numbers(ranges[|ranges| - 1])
  }

  lemma NumbersGrow(r: Range)
    requires r.start <= r.end
    ensures Numbers(Range(r.start, r.end + 1)) == Numbers(r) + [r.end + 1]
  {
  }

  /** No range could be joined to the next one. */
  ghost predicate Maximal(ranges: seq<Range>) {
    forall i :: 0 <= i < |ranges| - 1 ==> ranges[i].end + 1 != ranges[i + 1].start
  }

  /** The ranges are separated by at least one missing number. */
  ghost predicate Gaps(ranges: seq<Range>) {
    forall i, j :: 0 <= i < j < |ranges| ==> ranges[i].end + 1 < ranges[j].start
  }

  ghost predicate StrictlySorted(s: seq<int>) {
    forall i, j :: 0 <= i < j < |s| ==> s[i] < s[j]
  }

  lemma ExpandSnoc(ranges: seq<Range>, r: Range)
    requires Proper(ranges) && r.start <= r.end
    ensures Proper(ranges + [r]) && Expand(ranges + [r]) == Expand(ranges) + Numbers(r)
  {
    assert (ranges + [r])[..|ranges|] == ranges;
  }

  /** Ranges of distinct numbers that could not be joined are separated by gaps. */
  lemma {:induction false} MaximalGaps(ranges: seq<Range>)
    requires Proper(ranges) && Maximal(ranges) && StrictlySorted(Expand(ranges))
    ensures Gaps(ranges)
  {
    if |ranges| > 1 {
      var n := |ranges| - 1;
      var init, last := ranges[..n], ranges[n];
      var whole, front := Expand(ranges), Expand(init);
      forall i, j | 0 <= i < j < |front| ensures front[i] < front[j] {
        assert whole[i] == front[i] && whole[j] == front[j];
      }
      forall i | 0 <= i < n - 1 ensures init[i].end + 1 != init[i + 1].start {
        assert ranges[i].end + 1 != ranges[i + 1].start;
      }
      MaximalGaps(init);
      ExpandLast(init);
      assert whole[|front| - 1] == front[|front| - 1] && whole[|front|] == last.start;
      forall i | 0 <= i < n ensures ranges[i].end + 1 < last.start {
        assert i < n - 1 ==> init[i].end + 1 < init[n - 1].start;
        assert ranges[n - 1].end + 1 != ranges[n - 1 + 1].start;
      }
      forall i, j | 0 <= i < j < |ranges| ensures ranges[i].end + 1 < ranges[j].start {
        assert j < n ==> init[i] == ranges[i] && init[j] == ranges[j];
      }
    }
  }

  lemma ExpandLast(ranges: seq<Range>)
    requires ranges != [] && Proper(ranges)
    ensures Expand(ranges) != [] && Expand(ranges)[|Expand(ranges)| - 1] == ranges[|ranges| - 1].end
  {
  }

  /** The next number goes on. */
  lemma Grows(ranges: seq<Range>, start: int, end: int)
    requires Proper(ranges) && start <= end && Maximal(ranges + [Range(start, end)])
    ensures Proper(ranges + [Range(start, end)]) && Proper(ranges + [Range(start, end + 1)])
    ensures Maximal(ranges + [Range(start, end + 1)])
    ensures Expand(ranges + [Range(start, end + 1)]) == Expand(ranges + [Range(start, end)]) + [end + 1]
  {
    hide Expand, Numbers;
    ExpandSnoc(ranges, Range(start, end));
    ExpandSnoc(ranges, Range(start, end + 1));
    NumbersGrow(Range(start, end));
    var a, b := ranges + [Range(start, end)], ranges + [Range(start, end + 1)];
    forall i | 0 <= i < |b| - 1 ensures b[i].end + 1 != b[i + 1].start {
      assert a[i].end + 1 != a[i + 1].start;
    }
  }

  /** Another number starts a new range. */
  lemma Starts(ranges: seq<Range>, idx: int)
    requires Proper(ranges) && Maximal(ranges) && (ranges != [] ==> ranges[|ranges| - 1].end + 1 != idx)
    ensures Proper(ranges + [Range(idx, idx)]) && Maximal(ranges + [Range(idx, idx)])
    ensures Expand(ranges + [Range(idx, idx)]) == Expand(ranges) + [idx]
  {
    hide Expand;
    ExpandSnoc(ranges, Range(idx, idx));
    assert Numbers(Range(idx, idx)) == [idx];
    var more := ranges + [Range(idx, idx)];
    forall i | 0 <= i < |more| - 1 ensures more[i].end + 1 != more[i + 1].start {
      if i < |ranges| - 1 {
        assert ranges[i].end + 1 != ranges[i + 1].start;
      }
    }
  }

  /** The ranges of _format_index_ranges, before they are printed: expanding them gives back
      the sorted indices, duplicates included, and none could be joined to the next; for distinct
      indices they are separated by gaps. */
  method FormatIndexRanges(indices: seq<int>) returns (r: Result<seq<Range>>, sorted: seq<int>)
    ensures r.IndexError? <==> indices == []
    ensures Sorted(sorted) && multiset(sorted) == multiset(indices)
    ensures r.Ok? ==> Proper(r.value) && Expand(r.value) == sorted && Maximal(r.value)
    ensures r.Ok? && StrictlySorted(sorted) ==> Gaps(r.value)
  {
    hide Gaps, Numbers, Maximal, Expand, StrictlySorted;
    sorted := Sort(indices);
    assert |sorted| == |indices| by {
      assert |multiset(sorted)| == |multiset(indices)|;
    }
    if sorted == [] {
      return IndexError, sorted;
    }
    var ranges: seq<Range> := [];
    var start, end := sorted[0], sorted[0];
    NoRange();
    Starts([], start);
    assert sorted[..1] == [] + [sorted[0]] && ranges + [Range(start, end)] == [] + [Range(start, start)];
    for i := 1 to |sorted|
      invariant start <= end && Proper(ranges) && Proper(ranges + [Range(start, end)])
      invariant Expand(ranges + [Range(start, end)]) == sorted[..i] && Maximal(ranges + [Range(start, end)])
    {
      var idx := sorted[i];
      assert sorted[..i + 1] == sorted[..i] + [idx];
      if idx == end + 1 {
        Grows(ranges, start, end);
        end := idx;
      } else {
        ranges := ranges + [Range(start, end)];
        Starts(ranges, idx);
        start, end := idx, idx;
      }
    }
    assert sorted[..|sorted|] == sorted;
    ranges := ranges + [Range(start, end)];
    if StrictlySorted(sorted) {
      MaximalGaps(ranges);
    }
    return Ok(ranges), sorted;
  }

  lemma NoRange()
    ensures Proper([]) && Maximal([]) && Expand([]) == []
  {
  }
}
