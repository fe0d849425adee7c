/** Background centroid refits and routing (eldr/serving/centroid_update.py).

    Routing keeps a rolling window of signatures.  At most one fit runs at a time on another
    thread; what the thread has done by the time it is asked is a parameter of each update.  The
    ghost fields record the whole run, so that what `Valid` says of them holds over every run. */
module CentroidUpdate {
  import opened Common
  import opened Vectors
  import opened BalancedKMeans
  import LocalityRouting

  // ----- keeping decoder identities

  /** perm gives every decoder its own fitted centroid. */
  ghost predicate Matching(perm: seq<nat>, k: nat) {
    Assigns(perm, k, k) && Distinct(perm)
  }

  /** What linear_sum_assignment returns for the negated similarities. */
  ghost predicate BestMatching(current: seq<Vec>, fitted: seq<Vec>, dim: nat, perm: seq<nat>)
    requires Shaped(current, dim) && Shaped(fitted, dim) && |current| == |fitted|
  {
    && Matching(perm, |current|)
    && forall other :: Matching(other, |current|) ==>
         Total(current, other, fitted, dim) <= Total(current, perm, fitted, dim)
  }

  function Align(fitted: seq<Vec>, perm: seq<nat>): (r: seq<Vec>)
    requires Assigns(perm, |fitted|, |fitted|)
    ensures |r| == |fitted| && forall i :: 0 <= i < |r| ==> r[i] == fitted[perm[i]]
  {
    seq(|fitted|, i requires 0 <= i < |fitted| => fitted[perm[i]])
  }

  /** Every fitted centroid goes to exactly one decoder. */
  lemma MatchingOnto(perm: seq<nat>, k: nat, c: nat)
    requires Matching(perm, k) && c < k
    ensures exists i :: 0 <= i < k && perm[i] == c
  {
    hide Distinct;
    DistinctSize(perm);
    var all := SlotsOf(0, k);
    assert |all - {c}| == k - 1;
    if Elements(perm) <= all - {c} {
      SubsetSize(Elements(perm), all - {c});
    }
  }

  /** Similarities of unit vectors are at most 1, and all are 1 exactly when the total says so. */
  lemma {:induction false} TotalAtMost(xs: seq<Vec>, a: seq<nat>, cs: seq<Vec>, dim: nat)
    requires Units(xs, dim) && Units(cs, dim) && Assigns(a, |xs|, |cs|)
    ensures Total(xs, a, cs, dim) <= |xs| as real
    ensures Total(xs, a, cs, dim) == |xs| as real ==> forall i :: 0 <= i < |xs| ==> cs[a[i]] == xs[i]
    ensures (forall i :: 0 <= i < |xs| ==> cs[a[i]] == xs[i]) ==> Total(xs, a, cs, dim) == |xs| as real
  {
    hide Dot;
    if xs != [] {
      var n := |xs| - 1;
      TotalAtMost(xs[..n], a[..n], cs, dim);
      SameDirection(xs[n], cs[a[n]]);
      forall i | 0 <= i < |xs| && Total(xs, a, cs, dim) == |xs| as real ensures cs[a[i]] == xs[i] {
        assert i < n ==> xs[..n][i] == xs[i] && a[..n][i] == a[i];
      }
    }
  }

  /** When a fit only reorders the centroids, alignment puts every one back to its decoder. */
  lemma AlignmentKeepsIdentity(current: seq<Vec>, fitted: seq<Vec>, dim: nat, perm: seq<nat>, back: seq<nat>)
    requires Units(current, dim) && Units(fitted, dim) && |current| == |fitted|
    requires BestMatching(current, fitted, dim, perm)
    requires Matching(back, |current|) && forall i :: 0 <= i < |current| ==> fitted[back[i]] == current[i]
    ensures Align(fitted, perm) == current
  {
    hide Total, Dot;
    TotalAtMost(current, back, fitted, dim);
    TotalAtMost(current, perm, fitted, dim);
  }

  // ----- a background fit

  /** A submitted fit: the signatures and the centroids it works on. */
  datatype Job = Job(rows: seq<Vec>, base: seq<Vec>)

  /** Signatures as the transform delivers them, unless they are zero. */
  ghost predicate Proper(row: Vec, dim: nat) {
    |row| == dim && Dot(row, row) == 1.0 && NonNegative(row)
  }

  ghost predicate AllProper(rows: seq<Vec>, dim: nat) {
    forall i :: 0 <= i < |rows| ==> Proper(rows[i], dim)
  }

  /** In some clustering no centroids are more similar to the signatures, and it is at least as
      similar as any (balanced) clustering around the old centroids. */
  ghost predicate Improves(rows: seq<Vec>, before: seq<Vec>, dim: nat, balanced: bool, cs: seq<Vec>) {
    && Shaped(rows, dim) && Shaped(before, dim) && Shaped(cs, dim) && |cs| == |before|
    && rows != [] && before != []
    && exists a :: BeatsSeeds(rows, before, dim, Cap(|rows|, |before|), balanced, a, cs) && BestFor(rows, a, dim, cs)
  }

  /** Every decoder keeps its own centroid: no reordering is more similar to the old centroids. */
  ghost predicate InOrder(base: seq<Vec>, dim: nat, cs: seq<Vec>) {
    && Shaped(base, dim) && Shaped(cs, dim) && |cs| == |base|
    && BestMatching(base, cs, dim, Identity(|base|))
  }

  ghost function Identity(k: nat): (r: seq<nat>)
    ensures |r| == k && forall i :: 0 <= i < k ==> r[i] == i
  {
    seq(k, i requires 0 <= i => i)
  }

  /** The old centroids in another order. */
  ghost predicate Reorders(base: seq<Vec>, cs: seq<Vec>) {
    |cs| == |base| && exists back :: Matching(back, |base|) && forall i :: 0 <= i < |base| ==> cs[back[i]] == base[i]
  }

  /** What a fit of proper signatures makes of unit centroids: unit centroids that improve on the
      old ones, each for its own decoder. */
  ghost predicate Refitted(job: Job, dim: nat, balanced: bool, cs: seq<Vec>) {
    && Units(cs, dim) && Improves(job.rows, job.base, dim, balanced, cs)
    && InOrder(job.base, dim, cs) && (Reorders(job.base, cs) ==> cs == job.base)
  }

  /** What a finished fit returns. */
  ghost predicate Refit(job: Job, dim: nat, balanced: bool, cs: seq<Vec>) {
    && |cs| == |job.base| && Shaped(cs, dim)
    && (Units(job.base, dim) && AllProper(job.rows, dim) && 0 < |job.rows| <= MAX_POINTS && job.base != [] ==>
          Refitted(job, dim, balanced, cs))
  }

  /** The cluster of each point after the centroids are aligned. */
  ghost function Relabelled(a: seq<nat>, back: seq<nat>): (r: seq<nat>)
    requires forall i :: 0 <= i < |a| ==> a[i] < |back|
    ensures |r| == |a| && forall i :: 0 <= i < |a| ==> r[i] == back[a[i]]
  {
    seq(|a|, i requires 0 <= i < |a| => back[a[i]])
  }

  ghost predicate Inverse(perm: seq<nat>, back: seq<nat>) {
    && |back| == |perm| && Assigns(perm, |perm|, |perm|) && Assigns(back, |perm|, |perm|)
    && (forall c :: 0 <= c < |perm| ==> perm[back[c]] == c)
    && (forall i :: 0 <= i < |perm| ==> back[perm[i]] == i)
  }

  ghost function IndexIn(perm: seq<nat>, c: nat): (i: nat)
    ensures c in perm ==> i < |perm| && perm[i] == c
  {
    if c in perm then (var i: nat :| i < |perm| && perm[i] == c; i) else 0
  }

  lemma InverseOf(perm: seq<nat>, k: nat) returns (back: seq<nat>)
    requires Matching(perm, k)
    ensures Inverse(perm, back)
  {
    hide Distinct, IndexIn;
    back := seq(k, c requires 0 <= c => IndexIn(perm, c));
    forall c | 0 <= c < k ensures back[c] < k && perm[back[c]] == c {
      MatchingOnto(perm, k, c);
    }
    forall i | 0 <= i < k ensures back[perm[i]] == i {
      SameSlot(perm, back[perm[i]], i);
    }
  }

  lemma SameSlot(perm: seq<nat>, i: nat, j: nat)
    requires Distinct(perm) && i < |perm| && j < |perm| && perm[i] == perm[j]
    ensures i == j
  {
  }

  lemma {:induction false} AlignTotal(xs: seq<Vec>, a: seq<nat>, cs: seq<Vec>, dim: nat, perm: seq<nat>, back: seq<nat>)
    requires Shaped(xs, dim) && Shaped(cs, dim) && Assigns(a, |xs|, |cs|) && |perm| == |cs| && Inverse(perm, back)
    ensures Assigns(Relabelled(a, back), |xs|, |cs|) && Shaped(Align(cs, perm), dim)
    ensures Total(xs, Relabelled(a, back), Align(cs, perm), dim) == Total(xs, a, cs, dim)
  {
    hide Dot;
    if xs != [] {
      var n := |xs| - 1;
      AlignTotal(xs[..n], a[..n], cs, dim, perm, back);
      assert Relabelled(a, back)[..n] == Relabelled(a[..n], back);
    }
  }

  lemma {:induction false} AlignSize(a: seq<nat>, perm: seq<nat>, back: seq<nat>, c: nat)
    requires Inverse(perm, back) && c < |perm| && forall i :: 0 <= i < |a| ==> a[i] < |perm|
    ensures Size(Relabelled(a, back), c) == Size(a, perm[c])
  {
    if a != [] {
      var n := |a| - 1;
      AlignSize(a[..n], perm, back, c);
      assert Relabelled(a, back)[..n] == Relabelled(a[..n], back);
      assert back[a[n]] == c <==> a[n] == perm[c];
    }
  }

  /** Renaming the clusters of the points is renaming the centroids. */
  lemma {:induction false} RenamedTotal(xs: seq<Vec>, a: seq<nat>, cs: seq<Vec>, dim: nat, p: seq<nat>)
    requires Shaped(xs, dim) && Shaped(cs, dim) && Assigns(a, |xs|, |cs|) && Assigns(p, |cs|, |cs|)
    ensures Shaped(Align(cs, p), dim) && Assigns(Relabelled(a, p), |xs|, |cs|)
    ensures Total(xs, Relabelled(a, p), cs, dim) == Total(xs, a, Align(cs, p), dim)
  {
    hide Dot;
    if xs != [] {
      var n := |xs| - 1;
      RenamedTotal(xs[..n], a[..n], cs, dim, p);
      assert Relabelled(a, p)[..n] == Relabelled(a[..n], p);
    }
  }

  lemma RenamedMatching(a: seq<nat>, p: seq<nat>, k: nat)
    requires Matching(a, k) && Matching(p, k)
    ensures Matching(Relabelled(a, p), k)
  {
  }

  /** Aligned by a best matching, the centroids are in order. */
  lemma AlignedInOrder(base: seq<Vec>, fitted: seq<Vec>, dim: nat, perm: seq<nat>)
    requires Shaped(base, dim) && Shaped(fitted, dim) && |base| == |fitted| && BestMatching(base, fitted, dim, perm)
    ensures InOrder(base, dim, Align(fitted, perm))
  {
    hide Total, Distinct;
    var cs, id := Align(fitted, perm), Identity(|base|);
    IdentityMatches(|base|);
    forall other | Matching(other, |base|) ensures Total(base, other, cs, dim) <= Total(base, id, cs, dim) {
      RenamedMatching(other, perm, |base|);
      RenamedTotal(base, other, fitted, dim, perm);
      RenamedTotal(base, id, fitted, dim, perm);
      assert Relabelled(id, perm) == perm;
    }
  }

  lemma IdentityMatches(k: nat)
    ensures Matching(Identity(k), k)
  {
  }

  /** Centroids that are in order and only reorder the old ones are the old ones. */
  lemma ReorderedIsSame(base: seq<Vec>, dim: nat, cs: seq<Vec>)
    requires Units(base, dim) && Units(cs, dim) && InOrder(base, dim, cs)
    ensures Reorders(base, cs) ==> cs == base
  {
    hide Dot, Total, Distinct;
    if Reorders(base, cs) {
      var back :| Matching(back, |base|) && forall i :: 0 <= i < |base| ==> cs[back[i]] == base[i];
      AlignmentKeepsIdentity(base, cs, dim, Identity(|base|), back);
      assert Align(cs, Identity(|base|)) == cs;
    }
  }

  lemma {:induction false} AlignedBest(rows: seq<Vec>, a: seq<nat>, dim: nat, fitted: seq<Vec>, perm: seq<nat>,
                                       back: seq<nat>)
    requires Shaped(rows, dim) && Shaped(fitted, dim) && Assigns(a, |rows|, |fitted|) && BestFor(rows, a, dim, fitted)
    requires |perm| == |fitted| && Inverse(perm, back)
    ensures Shaped(Align(fitted, perm), dim) && Assigns(Relabelled(a, back), |rows|, |fitted|)
    ensures BestFor(rows, Relabelled(a, back), dim, Align(fitted, perm))
  {
    hide Dot, Total;
    AlignTotal(rows, a, fitted, dim, perm, back);
    var cs := Align(fitted, perm);
    forall vs | Short(vs, dim) && |vs| == |cs|
      ensures Total(rows, Relabelled(a, back), vs, dim) <= Total(rows, Relabelled(a, back), cs, dim)
    {
      RenamedTotal(rows, a, vs, dim, back);
      assert Short(Align(vs, back), dim);
    }
  }

  /** Aligning a fit keeps unit centroids and their improvement. */
  lemma AlignKeeps(job: Job, dim: nat, balanced: bool, a: seq<nat>, fitted: seq<Vec>, perm: seq<nat>)
    requires Shaped(job.rows, dim) && Shaped(job.base, dim) && Units(fitted, dim) && |fitted| == |job.base|
    requires job.rows != [] && job.base != [] && Matching(perm, |fitted|)
    requires BeatsSeeds(job.rows, job.base, dim, Cap(|job.rows|, |job.base|), balanced, a, fitted)
    requires BestFor(job.rows, a, dim, fitted)
    ensures Units(Align(fitted, perm), dim)
    ensures Improves(job.rows, job.base, dim, balanced, Align(fitted, perm))
  {
    hide Dot, Total, Size, BestFor;
    var back := InverseOf(perm, |fitted|);
    AlignTotal(job.rows, a, fitted, dim, perm, back);
    AlignedBest(job.rows, a, dim, fitted, perm, back);
    forall c | 0 <= c < |fitted| ensures Size(Relabelled(a, back), c) == Size(a, perm[c]) {
      AlignSize(a, perm, back, c);
    }
    assert BeatsSeeds(job.rows, job.base, dim, Cap(|job.rows|, |job.base|), balanced, Relabelled(a, back),
                      Align(fitted, perm));
  }

  /** _run_refit: fit, then align.  `match'` is linear_sum_assignment on the similarities. */
  method RunRefit(job: Job, dim: nat, iters: nat, balanced: bool, solve: seq<Vec> -> seq<nat>, norm: Vec -> real,
                  close: (seq<Vec>, seq<Vec>) -> bool, match': seq<Vec> -> seq<nat>)
    returns (cs: seq<Vec>, ghost fitted: seq<Vec>, ghost a: seq<nat>, ghost trail: Trail)
    requires 0 < |job.rows| <= MAX_POINTS && job.base != [] && iters > 0
    requires AllProper(job.rows, dim) && Units(job.base, dim) && Lengths(norm)
    requires forall c :: Shaped(c, dim) && |c| == |job.base| ==>
               Assigned(job.rows, c, dim, Cap(|job.rows|, |job.base|), balanced, solve(c))
    requires forall c :: Shaped(c, dim) && |c| == |job.base| ==> BestMatching(job.base, c, dim, match'(c))
    ensures Refit(job, dim, balanced, cs) && Refitted(job, dim, balanced, cs)
    ensures Iterated(job.rows, dim, Cap(|job.rows|, |job.base|), balanced, norm, trail)
    ensures Leads(trail, job.base, a, fitted) && Stops(trail, iters, close)
    ensures |fitted| == |cs| && Reorders(fitted, cs)
  {
    hide Lengths, NonNegative, Dot, Assigned, BeatsSeeds, BestMatching, Improves, Prepared, Matchable, BestFor;
    hide Iterated, Leads, Stops, Reorders, InOrder, Matching;
    PreparedShort(job.base, dim, norm, balanced);
    ShortMatchable(job.base, dim);
    var found;
    found, a, trail := Fit(job.rows, job.base, dim, iters, balanced, solve, norm, close);
    fitted := found;
    var perm := match'(found);
    MatchingOf(job.base, found, dim, perm);
    AlignKeeps(job, dim, balanced, a, found, perm);
    AlignedInOrder(job.base, found, dim, perm);
    AlignReorders(found, perm);
    cs := Align(found, perm);
    ReorderedIsSame(job.base, dim, cs);
  }

  lemma AlignReorders(fitted: seq<Vec>, perm: seq<nat>)
    requires Matching(perm, |fitted|)
    ensures Reorders(fitted, Align(fitted, perm))
  {
    hide Distinct;
    var back := InverseOf(perm, |fitted|);
    InverseMatches(perm, back);
    assert forall i :: 0 <= i < |fitted| ==> Align(fitted, perm)[back[i]] == fitted[i];
  }

  lemma InverseMatches(perm: seq<nat>, back: seq<nat>)
    requires Inverse(perm, back)
    ensures Matching(back, |perm|)
  {
    forall i, j | 0 <= i < j < |back| ensures back[i] != back[j] {
      assert perm[back[i]] == i && perm[back[j]] == j;
    }
  }

  lemma MatchingOf(current: seq<Vec>, fitted: seq<Vec>, dim: nat, perm: seq<nat>)
    requires Shaped(current, dim) && Shaped(fitted, dim) && |current| == |fitted|
    requires BestMatching(current, fitted, dim, perm)
    ensures Matching(perm, |fitted|)
  {
  }

  // ----- the rolling window

  datatype Stamped = Stamped(time: real, row: Vec)

  ghost predicate Ascending(s: seq<Stamped>) {
    forall i, j :: 0 <= i < j < |s| ==> s[i].time <= s[j].time
  }

  /** The signatures not older than the cutoff. */
  ghost function Recent(s: seq<Stamped>, cutoff: real): seq<Stamped> {
    if s == [] then []
    else
      var last := s[|s| - 1];
      Recent(s[..|s| - 1], cutoff) + if last.time >= cutoff then [last] else []
  }

  lemma RecentSnoc(s: seq<Stamped>, x: Stamped, cutoff: real)
    ensures Recent(s + [x], cutoff) == Recent(s, cutoff) + if x.time >= cutoff then [x] else []
  {
    assert (s + [x])[..|s|] == s;
  }

  lemma {:induction false} RecentTwice(s: seq<Stamped>, c: real, d: real)
    requires c <= d
    ensures Recent(Recent(s, c), d) == Recent(s, d)
  {
    if s != [] {
      var rest, last := s[..|s| - 1], s[|s| - 1];
      RecentTwice(rest, c, d);
      RecentSnoc(Recent(rest, c), last, d);
      assert last.time < c ==> Recent(s, c) == Recent(rest, c) && Recent(s, d) == Recent(rest, d);
    }
  }

  lemma {:induction false} RecentAll(s: seq<Stamped>, cutoff: real)
    requires forall i :: 0 <= i < |s| ==> s[i].time >= cutoff
    ensures Recent(s, cutoff) == s
  {
    if s != [] {
      RecentAll(s[..|s| - 1], cutoff);
      assert s == s[..|s| - 1] + [s[|s| - 1]];
    }
  }

  lemma {:induction false} RecentDropFirst(s: seq<Stamped>, cutoff: real)
    requires s != [] && s[0].time < cutoff
    ensures Recent(s, cutoff) == Recent(s[1..], cutoff)
  {
    var n := |s| - 1;
    if n > 0 {
      RecentDropFirst(s[..n], cutoff);
      assert s[..n][1..] == s[1..][..n - 1];
    }
  }

  lemma {:induction false} RecentIn(s: seq<Stamped>, cutoff: real)
    requires Ascending(s)
    ensures Ascending(Recent(s, cutoff))
    ensures forall x :: x in Recent(s, cutoff) ==> x in s
  {
    if s != [] {
      RecentIn(s[..|s| - 1], cutoff);
      var r := Recent(s[..|s| - 1], cutoff);
      forall i | 0 <= i < |r| ensures r[i].time <= s[|s| - 1].time {
        assert r[i] in r;
      }
    }
  }

  lemma {:induction false} RecentMembers(s: seq<Stamped>, cutoff: real)
    ensures forall x :: x in Recent(s, cutoff) <==> x in s && x.time >= cutoff
  {
    if s != [] {
      var n := |s| - 1;
      RecentMembers(s[..n], cutoff);
      assert s == s[..n] + [s[n]];
    }
  }

  function Rows(s: seq<Stamped>): (r: seq<Vec>)
    ensures |r| == |s| && forall i :: 0 <= i < |s| ==> r[i] == s[i].row
  {
    seq(|s|, i requires 0 <= i < |s| => s[i].row)
  }

  // ----- the updater

  /** A fit was started at a time, having seen so many signatures. */
  datatype Start = Start(at: real, seen: nat, rows: seq<Vec>)

  /** What the worker thread has done with the submitted fit. */
  datatype Poll = Running | Fitted(centroids: seq<Vec>) | Raised

  /** The window is exactly the accepted signatures that are recent enough. */
  ghost predicate WindowOk(window: real, clock: real, received: seq<Stamped>, signatures: seq<Stamped>,
                           history: Option<real>) {
    && Ascending(received) && (forall i :: 0 <= i < |received| ==> received[i].time <= clock)
    && signatures == Recent(received, clock - window)
    && history == if received == [] then None else Some(received[0].time)
  }

  /** A fit used exactly the window of its time, at least k signatures, and not before a whole
      window had been seen. */
  ghost predicate StartOk(window: real, clock: real, received: seq<Stamped>, k: nat, s: Start) {
    && 0 < s.seen <= |received|
    && s.rows == Rows(Recent(received[..s.seen], s.at - window))
    && |s.rows| >= k
    && received[0].time + window <= s.at <= clock
  }

  /** Every fit is such a fit, and fits are at least an interval apart. */
  ghost predicate StartsOk(window: real, interval: real, clock: real, received: seq<Stamped>, k: nat,
                           starts: seq<Start>) {
    && (forall i :: 0 <= i < |starts| ==> StartOk(window, clock, received, k, starts[i]))
    && (forall i, j :: 0 <= i < j < |starts| ==> starts[j].at >= starts[i].at + interval)
  }

  ghost function LastAt(starts: seq<Start>): Option<real> {
    if starts == [] then None else Some(starts[|starts| - 1].at)
  }

  lemma StartsLater(window: real, interval: real, clock: real, clock': real, received: seq<Stamped>, k: nat,
                    starts: seq<Start>)
    requires StartsOk(window, interval, clock, received, k, starts) && clock <= clock'
    ensures StartsOk(window, interval, clock', received, k, starts)
  {
    hide Recent, Rows;
  }

  lemma StartsSeen(window: real, interval: real, clock: real, received: seq<Stamped>, k: nat, starts: seq<Start>,
                   x: Stamped)
    requires StartsOk(window, interval, clock, received, k, starts)
    ensures StartsOk(window, interval, clock, received + [x], k, starts)
  {
    hide Recent, Rows;
    forall i | 0 <= i < |starts| ensures StartOk(window, clock, received + [x], k, starts[i]) {
      assert (received + [x])[..starts[i].seen] == received[..starts[i].seen];
    }
  }

  lemma StartsSnoc(window: real, interval: real, clock: real, received: seq<Stamped>, k: nat, starts: seq<Start>,
                   s: Start)
    requires interval > 0.0 && StartsOk(window, interval, clock, received, k, starts)
    requires StartOk(window, clock, received, k, s)
    requires starts != [] ==> s.at >= starts[|starts| - 1].at + interval
    ensures StartsOk(window, interval, clock, received, k, starts + [s]) && LastAt(starts + [s]) == Some(s.at)
  {
    hide StartOk;
    forall i | 0 <= i < |starts| ensures s.at >= starts[i].at + interval {
      assert i < |starts| - 1 ==> starts[|starts| - 1].at >= starts[i].at + interval;
    }
  }

  /** All accepted signatures are proper ones, and not too many for the mean to be measured. */
  ghost predicate Orderly(received: seq<Stamped>, dim: nat) {
    |received| <= MAX_POINTS && forall i :: 0 <= i < |received| ==> Proper(received[i].row, dim)
  }

  lemma OrderlyBefore(received: seq<Stamped>, x: Stamped, dim: nat)
    ensures Orderly(received + [x], dim) ==> Orderly(received, dim)
  {
    var more := received + [x];
    assert forall i :: 0 <= i < |received| ==> more[i] == received[i];
  }

  lemma {:induction false} RecentSize(s: seq<Stamped>, cutoff: real)
    ensures |Recent(s, cutoff)| <= |s|
  {
    if s != [] {
      RecentSize(s[..|s| - 1], cutoff);
    }
  }

  /** The signatures of a fit are among the accepted ones. */
  lemma StartProper(window: real, clock: real, received: seq<Stamped>, k: nat, s: Start, dim: nat)
    requires StartOk(window, clock, received, k, s) && Orderly(received, dim) && Ascending(received)
    ensures AllProper(s.rows, dim) && |s.rows| <= MAX_POINTS
  {
    hide Proper;
    var seen := received[..s.seen];
    RecentIn(seen, s.at - window);
    RecentSize(seen, s.at - window);
    var recent := Recent(seen, s.at - window);
    forall i | 0 <= i < |s.rows| ensures Proper(s.rows[i], dim) {
      assert recent[i] in recent;
      var j :| 0 <= j < |seen| && seen[j] == recent[i];
      assert received[j] == seen[j];
    }
  }

  lemma StartRows(window: real, clock: real, received: seq<Stamped>, k: nat, s: Start)
    requires StartOk(window, clock, received, k, s)
    ensures |s.rows| >= k
  {
  }

  class CentroidUpdater {
    const dim: nat
    const balanced: bool
    const windowSeconds: real
    const refitSeconds: real
    var centroids: seq<Vec>
    var signatures: seq<Stamped>
    var historyStartedAt: Option<real>
    var lastRefitStartedAt: Option<real>
    var fitFuture: Option<Job>
    var fitCancelled: bool
    var closed: bool
    var refitsStarted: nat
    var refitsCompleted: nat
    var lastRefitFailed: bool

    ghost var received: seq<Stamped>  // every signature ever accepted
    ghost var starts: seq<Start>      // every fit ever started
    ghost var ended: nat              // fits that ended without being installed
    ghost var clock: real             // the time of the last update

    /** Besides the window and the fits: at most one fit is pending, every fit is accounted for,
        and the pending one works on the centroids that are still in use. */
    ghost predicate Valid()
      reads this
    {
      && windowSeconds > 0.0 && refitSeconds > 0.0 && centroids != [] && Shaped(centroids, dim)
      && (Orderly(received, dim) ==> Units(centroids, dim))
      && WindowOk(windowSeconds, clock, received, signatures, historyStartedAt)
      && StartsOk(windowSeconds, refitSeconds, clock, received, |centroids|, starts)
      && lastRefitStartedAt == LastAt(starts)
      && refitsStarted == |starts|
      && refitsStarted == refitsCompleted + ended + (if fitFuture.Some? then 1 else 0)
      && (fitCancelled ==> closed && fitFuture.Some?)
      && (fitFuture.Some? ==> starts != [] && fitFuture.value == Job(starts[|starts| - 1].rows, centroids))
    }

    constructor (centroids: seq<Vec>, dim: nat, windowSeconds: real, refitSeconds: real, balanced: bool)
      requires windowSeconds > 0.0 && refitSeconds > 0.0 && centroids != [] && Units(centroids, dim)
      ensures Valid() && this.centroids == centroids && received == [] && starts == [] && !closed
      ensures this.dim == dim && this.balanced == balanced
      ensures this.windowSeconds == windowSeconds && this.refitSeconds == refitSeconds
    {
      this.dim, this.balanced := dim, balanced;
      this.windowSeconds, this.refitSeconds, this.centroids := windowSeconds, refitSeconds, centroids;
      signatures, historyStartedAt, lastRefitStartedAt, fitFuture, fitCancelled := [], None, None, None, false;
      closed, refitsStarted, refitsCompleted, lastRefitFailed := false, 0, 0, false;
      received, starts, ended, clock := [], [], 0, 0.0;
    }

    /** The validation of the source's constructor, and the division of the seeds by their
        lengths. */
    static method Create(seeds: seq<Vec>, dim: nat, windowSeconds: real, refitSeconds: real, balanced: bool,
                         norm: Vec -> real)
      returns (r: Option<CentroidUpdater>)
      requires Shaped(seeds, dim) && Lengths(norm)
      ensures r.Some? <==> && windowSeconds > 0.0 && refitSeconds > 0.0 && seeds != [] && dim >= 1
                           && forall c :: 0 <= c < |seeds| ==> norm(seeds[c]) > EPS
      ensures r.Some? ==>
                && fresh(r.value) && r.value.Valid() && r.value.received == [] && r.value.starts == []
                && !r.value.closed && r.value.dim == dim && r.value.balanced == balanced
                && Units(r.value.centroids, dim) && |r.value.centroids| == |seeds|
                && forall c :: 0 <= c < |seeds| ==> r.value.centroids[c] == Scale(1.0 / norm(seeds[c]), seeds[c])
    {
      hide Dot, Mul;
      if windowSeconds <= 0.0 || refitSeconds <= 0.0 || seeds == [] || dim < 1 {
        return None;
      }
      if exists c :: 0 <= c < |seeds| && norm(seeds[c]) <= EPS {
        return None;
      }
      var cs := seq(|seeds|, c requires 0 <= c < |seeds| && norm(seeds[c]) > EPS =>
                               Scale(1.0 / norm(seeds[c]), seeds[c]));
      forall c | 0 <= c < |seeds| ensures |cs[c]| == dim && Dot(cs[c], cs[c]) == 1.0 {
        Normalized(seeds[c], norm(seeds[c]));
      }
      var u := new CentroidUpdater(cs, dim, windowSeconds, refitSeconds, balanced);
      return Some(u);
    }

    /** What a poll may report of the pending fit. */
    ghost predicate Reports(poll: Poll)
      reads this
    {
      && (poll.Fitted? && fitFuture.Some? ==> Refit(fitFuture.value, dim, balanced, poll.centroids))
      && (fitCancelled ==> poll == Raised)
    }

    /** Whether a finished fit is installed, counted and reported. */
    twostate predicate Polled(poll: Poll)
      reads this
    {
      var installed := old(fitFuture).Some? && poll.Fitted? && !closed;
      && centroids == (if installed then poll.centroids else old(centroids))
      && refitsCompleted == old(refitsCompleted) + (if installed then 1 else 0)
      && lastRefitFailed == if installed then false
                            else if old(fitFuture).Some? && poll == Raised then true else old(lastRefitFailed)
    }

    /** Whether the next fit is due at this update. */
    twostate predicate Due(now: real, poll: Poll)
      reads this
    {
      && !closed && (old(fitFuture).None? || poll != Running) && |signatures| >= |centroids|
      && received != [] && now - received[0].time >= windowSeconds
      && (old(lastRefitStartedAt).None? || now - old(lastRefitStartedAt).value >= refitSeconds)
    }

    /** What an update does: it installs a finished fit, accepts a signature that is not zero, and
        then starts a fit of the window exactly when one is due. */
    twostate predicate Advanced(signature: Vec, now: real, poll: Poll)
      reads this
    {
      var accepted := Accepts(signature);
      && clock == now && closed == old(closed) && Polled(poll)
      && received == (if accepted then old(received) + [Stamped(now, signature)] else old(received))
      && if accepted && Due(now, poll) then
           && starts == old(starts) + [Start(now, |received|, Rows(signatures))]
           && fitFuture == Some(Job(Rows(signatures), centroids))
         else starts == old(starts) && fitFuture == if poll == Running then old(fitFuture) else None
    }

    /** The pending fit of an orderly run gives unit centroids. */
    lemma PendingFit(cs: seq<Vec>)
      requires Valid() && fitFuture.Some? && Refit(fitFuture.value, dim, balanced, cs)
      ensures |cs| == |centroids| && Shaped(cs, dim)
      ensures Orderly(received, dim) ==> Units(cs, dim) && Refitted(fitFuture.value, dim, balanced, cs)
    {
      hide Units, Improves, InOrder, Reorders, Orderly, StartOk, Recent, AllProper, Shaped;
      if Orderly(received, dim) {
        StartProper(windowSeconds, clock, received, |centroids|, starts[|starts| - 1], dim);
        StartRows(windowSeconds, clock, received, |centroids|, starts[|starts| - 1]);
      }
    }

    /** _poll_refit: a finished fit is installed, unless it failed or the updater is closed.  Unit
        centroids made for proper signatures improve on those they replace. */
    method PollRefit(poll: Poll)
      requires Valid() && Reports(poll)
      modifies this`fitFuture, this`fitCancelled, this`centroids, this`refitsCompleted, this`lastRefitFailed, this`ended
      ensures Valid() && |centroids| == |old(centroids)|
      ensures fitFuture == if poll == Running then old(fitFuture) else None
      ensures Polled(poll)
      ensures old(fitFuture).Some? && poll.Fitted? && !closed && Orderly(received, dim) ==>
                Refitted(Job(old(fitFuture).value.rows, old(centroids)), dim, balanced, centroids)
    {
      hide Units, Refitted, Refit, Orderly, StartsOk, WindowOk, Shaped;
      if fitFuture.None? || poll == Running {
        return;
      }
      if poll.Fitted? {
        PendingFit(poll.centroids);
      }
      fitFuture, fitCancelled := None, false;
      if poll == Raised {
        lastRefitFailed, ended := true, ended + 1;
        return;
      }
      if closed {
        ended := ended + 1;
        return;
      }
      centroids, refitsCompleted, lastRefitFailed := poll.centroids, refitsCompleted + 1, false;
    }

    /** _expire_signatures. */
    method ExpireSignatures(now: real)
      requires Valid() && now >= clock
      modifies this`signatures, this`clock
      ensures Valid() && clock == now
    {
      hide StartsOk, Recent;
      var cutoff := now - windowSeconds;
      RecentTwice(received, clock - windowSeconds, cutoff);
      RecentIn(received, clock - windowSeconds);
      while signatures != [] && signatures[0].time < cutoff
        invariant clock == old(clock)
        invariant Ascending(signatures) && Recent(signatures, cutoff) == Recent(received, cutoff)
        decreases |signatures|
      {
        RecentDropFirst(signatures, cutoff);
        signatures := signatures[1..];
      }
      assert forall i :: 0 < i < |signatures| ==> signatures[0].time <= signatures[i].time;
      RecentAll(signatures, cutoff);
      StartsLater(windowSeconds, refitSeconds, clock, now, received, |centroids|, starts);
      clock := now;
    }

    /** _maybe_start_refit. */
    method MaybeStartRefit(now: real)
      requires Valid() && now == clock && received != []
      modifies this`fitFuture, this`lastRefitStartedAt, this`refitsStarted, this`starts
      ensures Valid()
      ensures var due :=
                && !closed && old(fitFuture).None? && |signatures| >= |centroids|
                && now - received[0].time >= windowSeconds
                && (old(lastRefitStartedAt).None? || now - old(lastRefitStartedAt).value >= refitSeconds);
              if due then
                && starts == old(starts) + [Start(now, |received|, Rows(signatures))]
                && fitFuture == Some(Job(Rows(signatures), centroids))
              else starts == old(starts) && fitFuture == old(fitFuture)
    {
      hide StartsOk, Recent, Ascending;
      var firstWindowReady := historyStartedAt.Some? && now - historyStartedAt.value >= windowSeconds;
      var intervalReady := lastRefitStartedAt.None? || now - lastRefitStartedAt.value >= refitSeconds;
      if closed || fitFuture.Some? || |signatures| < |centroids| || !firstWindowReady || !intervalReady {
        return;
      }
      ghost var s := Start(now, |received|, Rows(signatures));
      assert received[..|received|] == received;
      StartsSnoc(windowSeconds, refitSeconds, clock, received, |centroids|, starts, s);
      fitFuture := Some(Job(Rows(signatures), centroids));
      lastRefitStartedAt, refitsStarted := Some(now), refitsStarted + 1;
      starts := starts + [s];
    }

    /** A signature is accepted. */
    method Accept(now: real, signature: Vec)
      requires Valid() && now == clock
      modifies this`historyStartedAt, this`signatures, this`received
      ensures Valid() && received == old(received) + [Stamped(now, signature)]
    {
      hide StartsOk, Recent, Orderly;
      OrderlyBefore(received, Stamped(now, signature), dim);
      if historyStartedAt.None? {
        historyStartedAt := Some(now);
      }
      RecentSnoc(received, Stamped(now, signature), clock - windowSeconds);
      StartsSeen(windowSeconds, refitSeconds, clock, received, |centroids|, starts, Stamped(now, signature));
      signatures := signatures + [Stamped(now, signature)];
      received := received + [Stamped(now, signature)];
    }

    /** The window holds exactly the signatures that are recent enough. */
    lemma ExactWindow()
      requires Valid()
      ensures forall x :: x in signatures <==> x in received && x.time >= clock - windowSeconds
    {
      hide StartsOk, Units, Orderly;
      RecentMembers(received, clock - windowSeconds);
    }

    /** The rest of update: the window moves on, a signature that is not zero joins it, and the next
        fit is started when due. */
    method Take(signature: Vec, now: real)
      requires Valid() && now >= clock
      modifies this`signatures, this`clock, this`historyStartedAt, this`received
      modifies this`fitFuture, this`lastRefitStartedAt, this`refitsStarted, this`starts
      ensures Valid() && clock == now
      ensures forall x :: x in signatures <==> x in received && x.time >= now - windowSeconds
      ensures received == if Accepts(signature) then old(received) + [Stamped(now, signature)] else old(received)
      ensures if Accepts(signature) && old(fitFuture).None? && |signatures| >= |centroids|
                 && now - received[0].time >= windowSeconds
                 && (old(lastRefitStartedAt).None? || now - old(lastRefitStartedAt).value >= refitSeconds)
              then starts == old(starts) + [Start(now, |received|, Rows(signatures))]
                   && fitFuture == Some(Job(Rows(signatures), centroids))
              else starts == old(starts) && fitFuture == old(fitFuture)
    {
      hide WindowOk, StartsOk, Orderly, Units, Shaped;
      ExpireSignatures(now);
      if Accepts(signature) {
        Accept(now, signature);
        MaybeStartRefit(now);
      }
      ExactWindow();
    }

    predicate Accepts(signature: Vec)
      reads this
    {
      !closed && exists i :: 0 <= i < |signature| && signature[i] != 0.0
    }

    /** update: installs a finished fit, keeps the window, and may start the next fit.  Never
        waits: the returned centroids are the current ones. */
    method Update(signature: Vec, now: real, poll: Poll) returns (r: seq<Vec>)
      requires Valid() && now >= clock && Reports(poll)
      modifies this
      ensures Valid() && Advanced(signature, now, poll)
      ensures forall x :: x in signatures <==> x in received && x.time >= now - windowSeconds
      ensures r == centroids && |r| == |old(centroids)|
      ensures old(fitFuture).Some? && poll.Fitted? && !closed && Orderly(old(received), dim) ==>
                Refitted(Job(old(fitFuture).value.rows, old(centroids)), dim, balanced, r)
    {
      hide WindowOk, StartsOk, Refitted, Refit, Orderly, Units, Shaped;
      PollRefit(poll);
      Take(signature, now);
      return centroids;
    }

    /** close: no fit is started or installed afterwards.  A pending fit that the worker has not
        started is cancelled with it, and the next poll reports it as raised; a running one goes on. */
    method Close(started: bool)
      requires Valid()
      modifies this`closed, this`fitCancelled
      ensures Valid() && closed
      ensures fitCancelled == if old(closed) then old(fitCancelled) else fitFuture.Some? && !started
    {
      hide WindowOk, StartsOk, Orderly, Units, Shaped;
      if closed {
        return;
      }
      closed := true;
      if fitFuture.Some? {
        fitCancelled := !started;
      }
    }
  }

  // ----- the router

  function Scores(cs: seq<Vec>, x: Vec): (r: seq<real>)
    requires forall i :: 0 <= i < |cs| ==> |cs[i]| == |x|
    ensures |r| == |cs| && forall i :: 0 <= i < |cs| ==> r[i] == Dot(cs[i], x)
  {
    seq(|cs|, i requires 0 <= i < |cs| => Dot(cs[i], x))
  }

  /** _route_owned: a wrong number of loads is refused before anything changes; otherwise the
      request goes to the least loaded worker in the band around the current centroids. */
  method RouteOwned(u: CentroidUpdater, tau: real, signature: Vec, loads: seq<int>, now: real, poll: Poll)
    returns (r: LocalityRouting.Result<nat>)
    requires u.Valid() && tau >= 0.0 && now >= u.clock && |signature| == u.dim && u.Reports(poll)
    modifies u
    ensures u.Valid() && (r.Ok? ==> u.Advanced(signature, now, poll))
    ensures r.Ok? <==> |loads| == |old(u.centroids)|
    ensures r.Ok? ==> |u.centroids| == |loads| &&
                      LocalityRouting.Routed(Scores(u.centroids, signature), loads, tau, r.value)
    ensures !r.Ok? ==> unchanged(u)
  {
    hide WindowOk, StartsOk, Dot, LocalityRouting.Routed;
    if |loads| != |u.centroids| {
      return LocalityRouting.ValueError;
    }
    var centroids := u.Update(signature, now, poll);
    r := LocalityRouting.Route(Scores(centroids, signature), loads, tau);
  }
}
