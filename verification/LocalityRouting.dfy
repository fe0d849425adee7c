/** Locality-band routing (eldr/serving/routing.py): among the workers whose similarity is within
    tau of the best, the one with the fewest requests in flight. */
module LocalityRouting {

  /** i scores within tau of every worker. */
  ghost predicate InBand(scores: seq<real>, tau: real, i: int) {
    0 <= i < |scores| && forall j :: 0 <= j < |scores| ==> scores[j] - tau <= scores[i]
  }

  function Max(s: seq<real>): (m: real)
    requires s != []
    ensures (exists k :: 0 <= k < |s| && s[k] == m) && forall k :: 0 <= k < |s| ==> s[k] <= m
  {
    var n := |s| - 1;
    if n == 0 then assert s[0] == s[n]; s[n]
    else
      var m := Max(s[..n]);
      assert exists k :: 0 <= k < n && s[k] == m by { var k :| 0 <= k < n && s[..n][k] == m; assert s[k] == m; }
      assert forall k :: 0 <= k < n ==> s[k] <= m by { assert forall k :: 0 <= k < n ==> s[..n][k] == s[k]; }
      if s[n] > m then s[n] else m
  }

  /** numpy.flatnonzero(scores >= scores.max() - tau): ascending indices. */
  method LocalityCandidates(scores: seq<real>, tau: real) returns (r: seq<nat>)
    requires scores != []
    ensures forall i :: i in r <==> InBand(scores, tau, i)
    ensures forall i, j :: 0 <= i < j < |r| ==> r[i] < r[j]
  {
    var best := Max(scores);
    r := [];
    for k := 0 to |scores|
      invariant forall i :: i in r <==> 0 <= i < k && scores[i] >= best - tau
      invariant forall i, j :: 0 <= i < j < |r| ==> r[i] < r[j]
    {
      if scores[k] >= best - tau {
        assert forall i :: 0 <= i < |r| ==> r[i] in r;
        r := r + [k];
      }
    }
    forall i | 0 <= i < |scores| ensures scores[i] >= best - tau <==> InBand(scores, tau, i) {
      var b :| 0 <= b < |scores| && scores[b] == best;
      assert InBand(scores, tau, i) ==> scores[b] - tau <= scores[i];
    }
  }

  /** What routing promises: in the band, least loaded there, and the first such worker. */
  ghost predicate Routed(scores: seq<real>, loads: seq<int>, tau: real, w: int)
    requires |loads| == |scores|
  {
    && InBand(scores, tau, w)
    && (forall i :: InBand(scores, tau, i) ==> loads[w] <= loads[i])
    && (forall i :: InBand(scores, tau, i) && loads[i] == loads[w] ==> w <= i)
  }

  datatype Result<T> = Ok(value: T) | ValueError

  /** route_jsq on computed scores. */
  method Route(scores: seq<real>, loads: seq<int>, tau: real) returns (r: Result<nat>)
    ensures r.Ok? <==> tau >= 0.0 && loads != [] && |scores| == |loads|
    ensures r.Ok? ==> Routed(scores, loads, tau, r.value)
  {
    if tau < 0.0 || loads == [] || |scores| != |loads| {
      return ValueError;
    }
    var candidates := LocalityCandidates(scores, tau);
    ghost var some := BandNotEmpty(scores, tau);
    assert some in candidates;
    assert forall i :: 0 <= i < |candidates| ==> InBand(scores, tau, candidates[i]) by {
      assert forall i :: 0 <= i < |candidates| ==> candidates[i] in candidates;
    }
    var best := 0;
    for k := 1 to |candidates|
      invariant best < |candidates|
      invariant forall i :: 0 <= i < k ==> loads[candidates[best]] <= loads[candidates[i]]
      invariant forall i :: 0 <= i < best ==> loads[candidates[best]] < loads[candidates[i]]
    {
      if loads[candidates[k]] < loads[candidates[best]] {
        best := k;
      }
    }
    forall i | InBand(scores, tau, i)
      ensures loads[candidates[best]] <= loads[i] && (loads[i] == loads[candidates[best]] ==> candidates[best] <= i)
    {
      assert i in candidates;
      var k :| 0 <= k < |candidates| && candidates[k] == i;
      assert k > best ==> candidates[best] < candidates[k];
    }
    return Ok(candidates[best]);
  }

  lemma BandNotEmpty(scores: seq<real>, tau: real) returns (b: nat)
    requires scores != [] && tau >= 0.0
    ensures InBand(scores, tau, b)
  {
    var best := Max(scores);
    b :| 0 <= b < |scores| && scores[b] == best;
    forall j | 0 <= j < |scores| ensures scores[j] - tau <= scores[b] {
      assert scores[j] <= best;
    }
  }

  /** The choice is determined. */
  lemma RoutedUnique(scores: seq<real>, loads: seq<int>, tau: real, w: nat, v: nat)
    requires |loads| == |scores| && Routed(scores, loads, tau, w) && Routed(scores, loads, tau, v)
    ensures w == v
  {
  }

  /** A wider band never leads to a busier worker; the loss of similarity is at most tau. */
  lemma WiderBand(scores: seq<real>, loads: seq<int>, tau: real, tau': real, w: nat, w': nat)
    requires |loads| == |scores| && 0.0 <= tau <= tau'
    requires Routed(scores, loads, tau, w) && Routed(scores, loads, tau', w')
    ensures loads[w'] <= loads[w]
    ensures scores[w'] >= scores[w] - tau'
  {
    assert InBand(scores, tau', w);
  }

  /** With no tolerance only best matches are chosen; with all scores in the band only load counts. */
  lemma BandExtremes(scores: seq<real>, loads: seq<int>, tau: real, w: nat)
    requires |loads| == |scores| && Routed(scores, loads, tau, w)
    ensures tau == 0.0 ==> forall i :: 0 <= i < |scores| ==> scores[i] <= scores[w]
    ensures (forall i, j :: 0 <= i < |scores| && 0 <= j < |scores| ==> scores[i] - scores[j] <= tau) ==>
              forall i :: 0 <= i < |loads| ==> loads[w] <= loads[i]
  {
    if forall i, j :: 0 <= i < |scores| && 0 <= j < |scores| ==> scores[i] - scores[j] <= tau {
      forall i | 0 <= i < |loads| ensures loads[w] <= loads[i] {
        assert InBand(scores, tau, i);
      }
    }
  }
}
