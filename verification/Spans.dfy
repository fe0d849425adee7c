/** Time spans and the declarative meaning of "weighted time".

    A span occupies [start, end).  Each instant is shared equally among the spans that cover
    it; the weighted time of a span is the total of its shares.  The total is written as a sum
    over the segments of a grid of time points, and is shown not to depend on the grid. */
module Spans {

  datatype Span = Span(start: real, end: real)

  predicate Covers(p: Span, t: real) {
    p.start <= t < p.end
  }

  /** The number of spans that cover instant t. */
  function Load(spans: seq<Span>, t: real): nat {
    if spans == [] then 0
    else (if Covers(spans[0], t) then 1 else 0) + Load(spans[1..], t)
  }

  /** What p receives of the segment [a, b), when the load at a holds throughout it. */
  function Piece(spans: seq<Span>, p: Span, a: real, b: real): real {
    if Covers(p, a) && Load(spans, a) > 0 then (b - a) / Load(spans, a) as real else 0.0
  }

  /** What p receives of all the segments of a grid. */
  function Share(spans: seq<Span>, p: Span, g: seq<real>): real {
    if |g| < 2 then 0.0 else Piece(spans, p, g[0], g[1]) + Share(spans, p, g[1..])
  }

  /** The time during which at least one span is active, over the segments of a grid. */
  function Busy(spans: seq<Span>, g: seq<real>): real {
    if |g| < 2 then 0.0
    else (if Load(spans, g[0]) > 0 then g[1] - g[0] else 0.0) + Busy(spans, g[1..])
  }

  function SumShares(spans: seq<Span>, ps: seq<Span>, g: seq<real>): real {
    if ps == [] then 0.0 else Share(spans, ps[0], g) + SumShares(spans, ps[1..], g)
  }

  // ----- grids

  ghost predicate Sorted(g: seq<real>) {
    forall i, j :: 0 <= i < j < |g| ==> g[i] <= g[j]
  }

  ghost predicate NothingInside(spans: seq<Span>, a: real, b: real) {
    forall p :: p in spans ==> !(a < p.start < b) && !(a < p.end < b)
  }

  ghost predicate Aligned(spans: seq<Span>, g: seq<real>) {
    forall i :: 0 <= i < |g| - 1 ==> NothingInside(spans, g[i], g[i + 1])
  }

  /** A grid for the spans: non-decreasing times that include every start and every end. */
  ghost predicate IsGrid(spans: seq<Span>, g: seq<real>) {
    && Sorted(g)
    && forall p :: p in spans ==> p.start in g && p.end in g
  }

  ghost predicate Wellformed(spans: seq<Span>) {
    forall p :: p in spans ==> p.start <= p.end
  }

  function Insert(g: seq<real>, x: real): (r: seq<real>)
    ensures multiset(r) == multiset(g) + multiset{x}
  {
    if g == [] then [x]
    else if x <= g[0] then [x] + g
    else
      var r := [g[0]] + Insert(g[1..], x);
      assert g == [g[0]] + g[1..];
      r
  }

  function InsertAll(g: seq<real>, xs: seq<real>): (r: seq<real>)
    ensures multiset(r) == multiset(g) + multiset(xs)
    decreases xs
  {
    if xs == [] then g
    else
      assert xs == [xs[0]] + xs[1..];
      InsertAll(Insert(g, xs[0]), xs[1..])
  }

  /** All starts and ends, in the order of the spans. */
  function Endpoints(spans: seq<Span>): seq<real> {
    if spans == [] then [] else [spans[0].start, spans[0].end] + Endpoints(spans[1..])
  }

  function Times(spans: seq<Span>): seq<real> {
    InsertAll([], Endpoints(spans))
  }

  /** The weighted time of span p among the given spans. */
  function Weighted(spans: seq<Span>, p: Span): real {
    Share(spans, p, Times(spans))
  }

  /** The total time during which some span is active. */
  function BusyTime(spans: seq<Span>): real {
    Busy(spans, Times(spans))
  }

  // ----- the sum does not depend on the grid

  lemma {:induction false} LoadConstant(spans: seq<Span>, a: real, x: real, b: real)
    requires NothingInside(spans, a, b)
    requires a <= x < b
    ensures Load(spans, a) == Load(spans, x)
    ensures forall p :: p in spans ==> Covers(p, a) == Covers(p, x)
  {
    if spans != [] {
      LoadConstant(spans[1..], a, x, b);
    }
  }

  lemma SplitPiece(spans: seq<Span>, p: Span, a: real, x: real, b: real)
    requires p in spans && NothingInside(spans, a, b)
    requires a <= x <= b
    ensures Piece(spans, p, a, x) + Piece(spans, p, x, b) == Piece(spans, p, a, b)
  {
    if x < b {
      LoadConstant(spans, a, x, b);
      if Covers(p, a) && Load(spans, a) > 0 {
        SplitQuotient(x - a, b - x, Load(spans, a) as real);
      }
    }
  }

  lemma SplitQuotient(c: real, d: real, n: real)
    requires n > 0.0
    ensures c / n + d / n == (c + d) / n
  {
  }

  lemma {:induction false} InsertSorted(g: seq<real>, x: real)
    requires Sorted(g)
    ensures Sorted(Insert(g, x))
    ensures g != [] ==> Insert(g, x)[0] == if x <= g[0] then x else g[0]
  {
    if g == [] {
    } else if x <= g[0] {
    } else {
      InsertSorted(g[1..], x);
    }
  }

  lemma InsertMembers(g: seq<real>, x: real, y: real)
    ensures y in Insert(g, x) <==> y in g || y == x
  {
    assert y in Insert(g, x) <==> y in multiset(Insert(g, x));
    assert y in g <==> y in multiset(g);
  }

  lemma ShareCons(spans: seq<Span>, p: Span, a: real, g: seq<real>)
    requires g != []
    ensures Share(spans, p, [a] + g) == Piece(spans, p, a, g[0]) + Share(spans, p, g)
  {
    assert ([a] + g)[1..] == g;
  }

  lemma EmptyPiece(spans: seq<Span>, p: Span, x: real)
    ensures Piece(spans, p, x, x) == 0.0
  {
  }

  /** Splitting a segment, or repeating a point, leaves every share as it was. */
  lemma {:induction false} InsertKeepsShare(spans: seq<Span>, p: Span, g: seq<real>, x: real)
    requires p in spans
    requires g != [] && Sorted(g) && Aligned(spans, g)
    requires g[0] <= x && p.end <= g[|g| - 1]
    ensures Share(spans, p, Insert(g, x)) == Share(spans, p, g)
  {
    hide Share, Load, Piece, NothingInside, Sorted;
    SortedTail(g);
    if x <= g[0] {
      ShareCons(spans, p, x, g);
      EmptyPiece(spans, p, x);
    } else if |g| == 1 {
      assert g == [g[0]] && Insert(g, x) == [g[0]] + [x];
      LastPiece(spans, p, g[0], x);
    } else {
      var h := g[1..];
      assert g == [g[0]] + h;
      ShareCons(spans, p, g[0], h);
      assert NothingInside(spans, g[0], g[0 + 1]);
      if x <= h[0] {
        assert Insert(g, x) == [g[0]] + ([x] + h);
        ShareCons(spans, p, g[0], [x] + h);
        ShareCons(spans, p, x, h);
        SplitPiece(spans, p, g[0], x, h[0]);
      } else {
        ShareCons(spans, p, g[0], Insert(h, x));
        InsertKeepsShare(spans, p, h, x);
      }
    }
  }

  lemma SortedTail(g: seq<real>)
    requires g != [] && Sorted(g)
    ensures Sorted(g[1..])
    ensures |g| > 1 ==> g[0] <= g[1]
  {
  }

  lemma LastPiece(spans: seq<Span>, p: Span, a: real, x: real)
    requires p.end <= a
    ensures Share(spans, p, [a] + [x]) == Share(spans, p, [a])
  {
    ShareCons(spans, p, a, [x]);
  }

  lemma GridAligned(spans: seq<Span>, g: seq<real>)
    requires IsGrid(spans, g)
    ensures Aligned(spans, g)
    ensures forall p :: p in spans ==> g[0] <= p.start && p.end <= g[|g| - 1]
  {
  }

  lemma GridInsert(spans: seq<Span>, p: Span, g: seq<real>, x: real)
    requires p in spans && IsGrid(spans, g)
    ensures IsGrid(spans, Insert(g, x))
    ensures Share(spans, p, Insert(g, x)) == Share(spans, p, g)
  {
    InsertSorted(g, x);
    GridAligned(spans, g);
    forall q | q in spans ensures q.start in Insert(g, x) && q.end in Insert(g, x) {
      InsertMembers(g, x, q.start);
      InsertMembers(g, x, q.end);
    }
    if x < g[0] {
      assert Insert(g, x) == [x] + g;
      assert ([x] + g)[1..] == g;
    } else {
      InsertKeepsShare(spans, p, g, x);
    }
  }

  lemma {:induction false} GridInsertAll(spans: seq<Span>, p: Span, g: seq<real>, xs: seq<real>)
    requires p in spans && IsGrid(spans, g)
    ensures IsGrid(spans, InsertAll(g, xs))
    ensures Share(spans, p, InsertAll(g, xs)) == Share(spans, p, g)
    decreases xs
  {
    if xs != [] {
      GridInsert(spans, p, g, xs[0]);
      GridInsertAll(spans, p, Insert(g, xs[0]), xs[1..]);
    }
  }

  lemma SortedHead(g: seq<real>, h: seq<real>)
    requires g != [] && Sorted(g) && Sorted(h) && multiset(g) == multiset(h)
    ensures h != [] && g[0] == h[0]
  {
    assert g[0] in multiset(h);
    var i :| 0 <= i < |h| && h[i] == g[0];
    assert h[0] in multiset(g);
    var j :| 0 <= j < |g| && g[j] == h[0];
    assert g[0] <= g[j] && h[0] <= h[i];
  }

  lemma MultisetTail(g: seq<real>)
    requires g != []
    ensures multiset(g[1..]) == multiset(g) - multiset{g[0]} && g == [g[0]] + g[1..]
  {
    assert g == [g[0]] + g[1..];
  }

  lemma {:induction false} SortedUnique(g: seq<real>, h: seq<real>)
    requires Sorted(g) && Sorted(h) && multiset(g) == multiset(h)
    ensures g == h
  {
    if g == [] {
      assert |multiset(h)| == 0;
    } else {
      SortedHead(g, h);
      MultisetTail(g);
      MultisetTail(h);
      SortedUnique(g[1..], h[1..]);
    }
  }

  lemma {:induction false} EndpointsComplete(spans: seq<Span>)
    ensures forall p :: p in spans ==> p.start in Endpoints(spans) && p.end in Endpoints(spans)
  {
    if spans != [] {
      EndpointsComplete(spans[1..]);
      assert spans == [spans[0]] + spans[1..];
    }
  }

  lemma {:induction false} InsertAllSorted(g: seq<real>, xs: seq<real>)
    requires Sorted(g)
    ensures Sorted(InsertAll(g, xs))
    decreases xs
  {
    if xs != [] {
      InsertSorted(g, xs[0]);
      InsertAllSorted(Insert(g, xs[0]), xs[1..]);
    }
  }

  lemma TimesIsGrid(spans: seq<Span>)
    ensures IsGrid(spans, Times(spans))
  {
    InsertAllSorted([], Endpoints(spans));
    EndpointsComplete(spans);
    forall p | p in spans ensures p.start in Times(spans) && p.end in Times(spans) {
      assert p.start in multiset(Times(spans)) && p.end in multiset(Times(spans));
    }
  }

  /** Any two grids give a span the same share: both refine to their sorted union. */
  lemma GridIndependence(spans: seq<Span>, p: Span, g: seq<real>, h: seq<real>)
    requires p in spans && IsGrid(spans, g) && IsGrid(spans, h)
    ensures Share(spans, p, g) == Share(spans, p, h)
  {
    GridInsertAll(spans, p, g, h);
    GridInsertAll(spans, p, h, g);
    SortedUnique(InsertAll(g, h), InsertAll(h, g));
  }

  // ----- the weighted time of a span does not depend on the order of the spans

  lemma {:induction false} LoadWithout(spans: seq<Span>, j: nat, t: real)
    requires j < |spans|
    ensures Load(spans, t) == (if Covers(spans[j], t) then 1 else 0) + Load(spans[..j] + spans[j + 1..], t)
  {
    var rest := spans[..j] + spans[j + 1..];
    if j == 0 {
      assert rest == spans[1..];
    } else {
      LoadWithout(spans[1..], j - 1, t);
      assert rest[1..] == spans[1..][..j - 1] + spans[1..][j..];
      assert rest[0] == spans[0];
    }
  }

  lemma MultisetWithout(a: seq<Span>, j: nat)
    requires j < |a|
    ensures multiset(a[..j] + a[j + 1..]) == multiset(a) - multiset{a[j]}
  {
    assert a == a[..j] + [a[j]] + a[j + 1..];
  }

  lemma RemoveMatch(a: seq<Span>, b: seq<Span>, j: nat)
    requires a != [] && j < |b| && b[j] == a[0] && multiset(a) == multiset(b)
    ensures multiset(a[1..]) == multiset(b[..j] + b[j + 1..])
  {
    MultisetWithout(a, 0);
    MultisetWithout(b, j);
    assert a[..0] + a[0 + 1..] == a[1..];
  }

  lemma FindMatch(a: seq<Span>, b: seq<Span>) returns (j: nat)
    requires a != [] && multiset(a) == multiset(b)
    ensures j < |b| && b[j] == a[0]
  {
    assert a[0] in multiset(b);
    j :| 0 <= j < |b| && b[j] == a[0];
  }

  lemma {:induction false} LoadOrder(a: seq<Span>, b: seq<Span>, t: real)
    requires multiset(a) == multiset(b)
    ensures Load(a, t) == Load(b, t)
  {
    if a == [] {
      assert |multiset(b)| == 0;
    } else {
      var j := FindMatch(a, b);
      RemoveMatch(a, b, j);
      LoadWithout(b, j, t);
      LoadOrder(a[1..], b[..j] + b[j + 1..], t);
    }
  }

  lemma {:induction false} ShareOrder(a: seq<Span>, b: seq<Span>, p: Span, g: seq<real>)
    requires multiset(a) == multiset(b)
    ensures Share(a, p, g) == Share(b, p, g)
  {
    if |g| >= 2 {
      LoadOrder(a, b, g[0]);
      ShareOrder(a, b, p, g[1..]);
    }
  }

  /** The same tasks listed in another order receive the same weighted times. */
  lemma WeightedOrder(a: seq<Span>, b: seq<Span>, p: Span)
    requires multiset(a) == multiset(b) && p in a
    ensures Weighted(a, p) == Weighted(b, p)
  {
    assert p in multiset(b);
    TimesIsGrid(a);
    TimesIsGrid(b);
    assert IsGrid(b, Times(a)) by {
      forall q | q in b ensures q.start in Times(a) && q.end in Times(a) {
        assert q in multiset(a);
      }
    }
    ShareOrder(a, b, p, Times(a));
    GridIndependence(b, p, Times(a), Times(b));
  }

  // ----- bounds

  lemma {:induction false} ShareBounds(spans: seq<Span>, p: Span, g: seq<real>)
    requires p in spans && p.start <= p.end && Sorted(g) && Aligned(spans, g)
    ensures 0.0 <= Share(spans, p, g) <= p.end - p.start
    ensures g != [] && p.end <= g[0] ==> Share(spans, p, g) == 0.0
    ensures g != [] && p.start <= g[0] < p.end ==> Share(spans, p, g) <= p.end - g[0]
  {
    if |g| >= 2 {
      ShareBounds(spans, p, g[1..]);
      assert NothingInside(spans, g[0], g[0 + 1]);
      if Covers(p, g[0]) && Load(spans, g[0]) > 0 {
        QuotientBounds(g[1] - g[0], Load(spans, g[0]) as real);
      }
    }
  }

  lemma QuotientBounds(d: real, n: real)
    requires d >= 0.0 && n >= 1.0
    ensures 0.0 <= d / n <= d
  {
    assert d / n * n == d;
  }

  /** A weighted time is never negative and never more than the span's own length. */
  lemma WeightedBounds(spans: seq<Span>, p: Span)
    requires p in spans && p.start <= p.end
    ensures 0.0 <= Weighted(spans, p) <= p.end - p.start
  {
    TimesIsGrid(spans);
    GridAligned(spans, Times(spans));
    ShareBounds(spans, p, Times(spans));
  }

  /** The sum of the spans' own lengths. */
  function TotalLength(spans: seq<Span>): real {
    if spans == [] then 0.0 else spans[0].end - spans[0].start + TotalLength(spans[1..])
  }

  lemma {:induction false} TotalLengthSnoc(spans: seq<Span>, p: Span)
    ensures TotalLength(spans + [p]) == TotalLength(spans) + (p.end - p.start)
  {
    if spans != [] {
      assert (spans + [p])[1..] == spans[1..] + [p];
      TotalLengthSnoc(spans[1..], p);
    } else {
      assert (spans + [p])[1..] == [];
    }
  }

  /** The busy time is at most the CPU time. */
  lemma BusyAtMostTotal(spans: seq<Span>)
    requires Wellformed(spans)
    ensures BusyTime(spans) <= TotalLength(spans)
  {
    Conservation(spans);
    SumWeightedAtMost(spans, spans);
  }

  lemma {:induction false} SumWeightedAtMost(spans: seq<Span>, ps: seq<Span>)
    requires forall p :: p in ps ==> p in spans && p.start <= p.end
    ensures SumWeighted(spans, ps) <= TotalLength(ps)
  {
    if ps != [] {
      WeightedBounds(spans, ps[0]);
      SumWeightedAtMost(spans, ps[1..]);
    }
  }

  // ----- conservation

  function SumPieces(spans: seq<Span>, ps: seq<Span>, a: real, b: real): real {
    if ps == [] then 0.0 else Piece(spans, ps[0], a, b) + SumPieces(spans, ps[1..], a, b)
  }

  lemma {:induction false} SumPiecesIs(spans: seq<Span>, ps: seq<Span>, a: real, b: real)
    ensures SumPieces(spans, ps, a, b) == if Load(spans, a) > 0
              then AddedUp(Load(ps, a), (b - a) / Load(spans, a) as real) else 0.0
  {
    if ps != [] {
      SumPiecesIs(spans, ps[1..], a, b);
    }
  }

  /** q added up n times. */
  function AddedUp(n: nat, q: real): real {
    if n == 0 then 0.0 else AddedUp(n - 1, q) + q
  }

  lemma {:induction false} AddedUpIs(n: nat, q: real)
    ensures AddedUp(n, q) == n as real * q
  {
    if n > 0 {
      AddedUpIs(n - 1, q);
      assert n as real * q == (n - 1) as real * q + q;
    }
  }

  lemma AllPieces(spans: seq<Span>, a: real, b: real)
    ensures SumPieces(spans, spans, a, b) == if Load(spans, a) > 0 then b - a else 0.0
  {
    SumPiecesIs(spans, spans, a, b);
    if Load(spans, a) > 0 {
      AddedUpIs(Load(spans, a), (b - a) / Load(spans, a) as real);
    }
  }

  lemma {:induction false} SumSharesStep(spans: seq<Span>, ps: seq<Span>, g: seq<real>)
    requires |g| >= 2
    ensures SumShares(spans, ps, g) == SumPieces(spans, ps, g[0], g[1]) + SumShares(spans, ps, g[1..])
  {
    if ps != [] {
      SumSharesStep(spans, ps[1..], g);
    }
  }

  lemma {:induction false} NoShares(spans: seq<Span>, ps: seq<Span>, g: seq<real>)
    requires |g| < 2
    ensures SumShares(spans, ps, g) == 0.0
  {
    if ps != [] {
      NoShares(spans, ps[1..], g);
    }
  }

  /** On every grid the shares of all spans add up to the time some span is active. */
  lemma {:induction false} SharesConserved(spans: seq<Span>, g: seq<real>)
    ensures SumShares(spans, spans, g) == Busy(spans, g)
  {
    if |g| < 2 {
      NoShares(spans, spans, g);
    } else {
      SumSharesStep(spans, spans, g);
      AllPieces(spans, g[0], g[1]);
      SharesConserved(spans, g[1..]);
    }
  }

  function SumWeighted(spans: seq<Span>, ps: seq<Span>): real {
    if ps == [] then 0.0 else Weighted(spans, ps[0]) + SumWeighted(spans, ps[1..])
  }

  lemma {:induction false} SumWeightedIsSumShares(spans: seq<Span>, ps: seq<Span>, g: seq<real>)
    requires IsGrid(spans, g) && forall p :: p in ps ==> p in spans
    ensures SumWeighted(spans, ps) == SumShares(spans, ps, g)
  {
    if ps != [] {
      TimesIsGrid(spans);
      GridIndependence(spans, ps[0], g, Times(spans));
      SumWeightedIsSumShares(spans, ps[1..], g);
    }
  }

  /** Conservation: the weighted times of all tasks add up to the time some task is running. */
  lemma Conservation(spans: seq<Span>)
    ensures SumWeighted(spans, spans) == BusyTime(spans)
  {
    TimesIsGrid(spans);
    SumWeightedIsSumShares(spans, spans, Times(spans));
    SharesConserved(spans, Times(spans));
  }

  /** Busy time, like a share, is the same on every grid. */
  lemma BusyIndependent(spans: seq<Span>, g: seq<real>)
    requires IsGrid(spans, g)
    ensures Busy(spans, g) == BusyTime(spans)
  {
    SharesConserved(spans, g);
    SumWeightedIsSumShares(spans, spans, g);
    Conservation(spans);
  }

  ghost predicate NoIdle(spans: seq<Span>, from: real, to: real) {
    forall t: real :: from <= t < to ==> Load(spans, t) > 0
  }

  lemma {:induction false} BusyAtMostLength(spans: seq<Span>, g: seq<real>)
    requires g != [] && Sorted(g) && Aligned(spans, g)
    ensures Busy(spans, g) <= g[|g| - 1] - g[0]
    ensures Busy(spans, g) == g[|g| - 1] - g[0] <==> NoIdle(spans, g[0], g[|g| - 1])
  {
    if |g| >= 2 {
      BusyAtMostLength(spans, g[1..]);
      assert NothingInside(spans, g[0], g[0 + 1]);
      forall t: real | g[0] <= t < g[1] ensures Load(spans, t) == Load(spans, g[0]) {
        LoadConstant(spans, g[0], t, g[1]);
      }
    }
  }

  /** The earliest start and the latest end. */
  ghost predicate Extent(spans: seq<Span>, first: real, last: real) {
    && (exists p :: p in spans && p.start == first)
    && (exists p :: p in spans && p.end == last)
    && forall p :: p in spans ==> first <= p.start && p.end <= last
  }

  /** The busy time is at most the length of the build, and equal exactly when at every
      instant between the earliest start and the latest end some task is running. */
  lemma BusyBounds(spans: seq<Span>, first: real, last: real)
    requires Wellformed(spans) && Extent(spans, first, last)
    ensures BusyTime(spans) <= last - first
    ensures BusyTime(spans) == last - first <==> NoIdle(spans, first, last)
  {
    var g := Times(spans);
    TimesIsGrid(spans);
    GridAligned(spans, g);
    TimesEnds(spans, first, last);
    BusyAtMostLength(spans, g);
  }

  // ----- the printed parallelism

  /** The time during which no span is active, over the segments of a grid. */
  function Idle(spans: seq<Span>, g: seq<real>): real {
    if |g| < 2 then 0.0
    else (if Load(spans, g[0]) == 0 then g[1] - g[0] else 0.0) + Idle(spans, g[1..])
  }

  /** The time spent by all active spans but one. */
  function Overlap(spans: seq<Span>, g: seq<real>): real {
    if |g| < 2 then 0.0
    else (if Load(spans, g[0]) > 1 then AddedUp(Load(spans, g[0]) - 1, g[1] - g[0]) else 0.0) + Overlap(spans, g[1..])
  }

  /** The time spent by all active spans. */
  function Work(spans: seq<Span>, g: seq<real>): real {
    if |g| < 2 then 0.0 else AddedUp(Load(spans, g[0]), g[1] - g[0]) + Work(spans, g[1..])
  }

  lemma {:induction false} BusyAndIdle(spans: seq<Span>, g: seq<real>)
    requires g != []
    ensures Busy(spans, g) + Idle(spans, g) == g[|g| - 1] - g[0]
    ensures Work(spans, g) == Busy(spans, g) + Overlap(spans, g)
  {
    if |g| >= 2 {
      BusyAndIdle(spans, g[1..]);
      var n, d := Load(spans, g[0]), g[1] - g[0];
      assert n > 0 ==> AddedUp(n, d) == AddedUp(n - 1, d) + d;
      assert AddedUp(0, d) == 0.0;
    }
  }

  /** Work adds up span by span. */
  lemma {:induction false} WorkCons(spans: seq<Span>, g: seq<real>)
    requires spans != []
    ensures Work(spans, g) == Busy([spans[0]], g) + Work(spans[1..], g)
  {
    if |g| >= 2 {
      WorkCons(spans, g[1..]);
      LoadOne(spans[0], g[0]);
    }
  }

  lemma LoadOne(p: Span, t: real)
    ensures Load([p], t) == if Covers(p, t) then 1 else 0
  {
    assert [p][1..] == [];
  }

  /** A span alone is busy for its whole length, on every grid. */
  lemma BusyAlone(p: Span, g: seq<real>)
    requires p.start <= p.end && Sorted(g) && p.start in g && p.end in g
    ensures Busy([p], g) == p.end - p.start
  {
    BusyIndependent([p], g);
    assert p in [p];
    BusyBounds([p], p.start, p.end);
    forall t: real | p.start <= t < p.end ensures Load([p], t) > 0 {
      LoadOne(p, t);
    }
  }

  lemma {:induction false} WorkIsTotal(spans: seq<Span>, g: seq<real>)
    requires Wellformed(spans) && IsGrid(spans, g)
    ensures Work(spans, g) == TotalLength(spans)
  {
    if spans == [] {
      NoWork(g);
    } else {
      assert spans[0] in spans;
      WorkCons(spans, g);
      BusyAlone(spans[0], g);
      WorkIsTotal(spans[1..], g);
    }
  }

  lemma {:induction false} NoWork(g: seq<real>)
    ensures Work([], g) == 0.0
  {
    if |g| >= 2 {
      NoWork(g[1..]);
    }
  }

  /** The report divides the CPU time by the length of the build.  The CPU time is the length
      without the idle time plus the time during which tasks overlap, so the quotient is at least
      one exactly when the overlap makes up for the idle time; in particular when there is none. */
  lemma ParallelismAtLeastOne(spans: seq<Span>, first: real, last: real)
    requires Wellformed(spans) && Extent(spans, first, last)
    ensures var g := Times(spans);
            && TotalLength(spans) == last - first - Idle(spans, g) + Overlap(spans, g)
            && (TotalLength(spans) >= last - first <==> Overlap(spans, g) >= Idle(spans, g))
    ensures NoIdle(spans, first, last) ==> TotalLength(spans) >= last - first
  {
    hide Times, Extent, NoIdle, Overlap, Idle, Work;
    var g := Times(spans);
    TimesIsGrid(spans);
    TimesEnds(spans, first, last);
    BusyAndIdle(spans, g);
    WorkIsTotal(spans, g);
    BusyBounds(spans, first, last);
    BusyAtMostTotal(spans);
  }

  /** An idle stretch can bring the quotient below one: two tasks of one second at either end
      of eleven. */
  lemma IdleParallelismBelowOne()
    ensures var spans := [Span(0.0, 1.0), Span(10.0, 11.0)];
            Wellformed(spans) && Extent(spans, 0.0, 11.0) && TotalLength(spans) == 2.0 < 11.0 - 0.0
  {
    var a, b := Span(0.0, 1.0), Span(10.0, 11.0);
    var spans := [a, b];
    assert spans[0] == a && spans[1] == b && spans[1..] == [b] && [b][1..] == [];
    assert a in spans && b in spans;
  }

  lemma {:induction false} EndpointsOnly(spans: seq<Span>, x: real)
    requires x in Endpoints(spans)
    ensures exists p :: p in spans && (p.start == x || p.end == x)
  {
    if x in Endpoints(spans[1..]) {
      EndpointsOnly(spans[1..], x);
    } else {
      assert spans[0] in spans;
    }
  }

  lemma TimesEnds(spans: seq<Span>, first: real, last: real)
    requires Wellformed(spans) && Extent(spans, first, last)
    ensures var g := Times(spans); g != [] && g[0] == first && g[|g| - 1] == last
  {
    hide Insert, InsertAll, Endpoints;
    var g := Times(spans);
    TimesIsGrid(spans);
    forall x | x in g ensures first <= x <= last {
      TimesMember(spans, x);
      EndpointsOnly(spans, x);
    }
    assert first in g && last in g;
    assert g[0] in g && g[|g| - 1] in g;
  }

  lemma TimesMember(spans: seq<Span>, x: real)
    requires x in Times(spans)
    ensures x in Endpoints(spans)
  {
    assert x in multiset(Times(spans));
  }
}
