/** The weighted-time sweep of the ninja build report (tools/report_build_time_ninja.py).

    One pass over the sorted start and stop events keeps a single running accumulator; a
    task's weighted duration is the growth of the accumulator while it ran.  The pass is
    proved against the declarative Spans.Weighted. */
module NinjaReport {
  import opened Common
  import opened Spans

  /** A build step: one command of the log, with the names of its outputs. */
  class Target {
    const start: real
    const end: real
    var targets: seq<string>
    var weightedDuration: real

    constructor (start: real, end: real)
      ensures this.start == start && this.end == end
      ensures targets == [] && weightedDuration == 0.0
    {
      this.start, this.end := start, end;
      targets, weightedDuration := [], 0.0;
    }

    function Duration(): real { end - start }
  }

  datatype Action = Start | Stop

  datatype Event = Event(time: real, action: Action, target: Target)

  datatype Error = IndexError | KeyError | AssertionError

  datatype Result<T> = Ok(value: T) | Err(error: Error)

  datatype Summary = Summary(earliest: real, latest: real, totalCpuTime: real, weightedTotal: real)

  function SpanOf(t: Target): Span { Span(t.start, t.end) }

  function SpansOf(entries: seq<Target>): (spans: seq<Span>)
    ensures |spans| == |entries|
    ensures forall i :: 0 <= i < |entries| ==> spans[i] == SpanOf(entries[i])
  {
    seq(|entries|, i requires 0 <= i < |entries| => SpanOf(entries[i]))
  }

  ghost function Tasks(entries: seq<Target>): set<Target> {
    set t | t in entries
  }

  // ----- events and their order

  /** The order of the sort key (time, action name): "start" comes before "stop". */
  predicate NotAfter(a: Event, b: Event) {
    a.time < b.time || (a.time == b.time && (a.action == Start || b.action == Stop))
  }

  ghost predicate InOrder(evs: seq<Event>) {
    forall i, j :: 0 <= i < j < |evs| ==> NotAfter(evs[i], evs[j])
  }

  function StartOf(t: Target): Event { Event(t.start, Start, t) }

  function StopOf(t: Target): Event { Event(t.end, Stop, t) }

  /** The start and the stop of every entry, in the order of the entries. */
  ghost predicate EventsOf(entries: seq<Target>, evs: seq<Event>) {
    && |evs| == 2 * |entries|
    && forall k :: 0 <= k < |entries| ==> evs[2 * k] == StartOf(entries[k]) && evs[2 * k + 1] == StopOf(entries[k])
  }

  /** The sort at line 224; what follows accepts any order of equal keys. */
  method SortEvents(evs: seq<Event>) returns (r: seq<Event>)
    ensures InOrder(r)
    ensures multiset(r) == multiset(evs)
  {
    hide InOrder;
    r := [];
    assert InOrder(r) by {
      NothingInOrder();
    }
    for i := 0 to |evs|
      invariant InOrder(r)
      invariant multiset(r) == multiset(evs[..i])
    {
      var k := |r|;
      while k > 0 && !NotAfter(r[k - 1], evs[i])
        invariant 0 <= k <= |r|
        invariant forall m :: k <= m < |r| ==> NotAfter(evs[i], r[m])
      {
        k := k - 1;
      }
      InsertInOrder(r, k, evs[i]);
      InsertPermutes(r, k, evs[i]);
      assert evs[..i + 1] == evs[..i] + [evs[i]];
      r := r[..k] + [evs[i]] + r[k..];
    }
    assert evs[..|evs|] == evs;
  }

  lemma NothingInOrder()
    ensures InOrder([])
  {
  }

  lemma InsertInOrder(r: seq<Event>, k: nat, e: Event)
    requires k <= |r| && InOrder(r)
    requires k > 0 ==> NotAfter(r[k - 1], e)
    requires forall m :: k <= m < |r| ==> NotAfter(e, r[m])
    ensures InOrder(r[..k] + [e] + r[k..])
  {
    forall m | 0 <= m < k ensures NotAfter(r[m], e) {
      assert m < k - 1 ==> NotAfter(r[m], r[k - 1]);
    }
    var s := r[..k] + [e] + r[k..];
    forall i, j | 0 <= i < j < |s| ensures NotAfter(s[i], s[j]) {
      InsertedPair(r, k, e, i, j);
    }
  }

  lemma InsertPermutes(r: seq<Event>, k: nat, e: Event)
    requires k <= |r|
    ensures multiset(r[..k] + [e] + r[k..]) == multiset(r) + multiset{e}
  {
    assert r == r[..k] + r[k..];
  }

  lemma InsertedPair(r: seq<Event>, k: nat, e: Event, i: nat, j: nat)
    requires k <= |r| && InOrder(r) && i < j <= |r|
    requires forall m :: 0 <= m < k ==> NotAfter(r[m], e)
    requires forall m :: k <= m < |r| ==> NotAfter(e, r[m])
    ensures var s := r[..k] + [e] + r[k..]; NotAfter(s[i], s[j])
  {
    hide NotAfter;
    var s := r[..k] + [e] + r[k..];
    assert s[i] == if i < k then r[i] else if i == k then e else r[i - 1];
    assert s[j] == if j < k then r[j] else if j == k then e else r[j - 1];
  }

  /** Where each target's start and stop stand in the sorted list. */
  datatype Places = Places(start: map<Target, nat>, stop: map<Target, nat>)

  ghost predicate OwnPlace(tasks: set<Target>, evs: seq<Event>, at: Places, i: nat)
    requires i < |evs|
  {
    var Event(_, action, t) := evs[i];
    && t in tasks && t in at.start && t in at.stop
    && i == if action == Start then at.start[t] else at.stop[t]
  }

  ghost predicate Placed(tasks: set<Target>, evs: seq<Event>, at: Places) {
    && (forall t :: t in tasks ==> t in at.start && t in at.stop)
    && (forall t :: t in tasks ==> at.start[t] < |evs| && evs[at.start[t]] == StartOf(t))
    && (forall t :: t in tasks ==> at.stop[t] < |evs| && evs[at.stop[t]] == StopOf(t))
    && (forall i :: 0 <= i < |evs| ==> OwnPlace(tasks, evs, at, i))
  }

  lemma Repeated<T>(s: seq<T>, i: nat, j: nat)
    requires i < j < |s| && s[i] == s[j]
    ensures multiset(s)[s[i]] >= 2
  {
    assert s == s[..j] + s[j..];
    assert s[..j][i] == s[i] && s[j..][0] == s[i];
    assert s[i] in s[..j] && s[i] in s[j..];
  }

  lemma {:induction false} CountAtMostOne<T>(s: seq<T>, x: T)
    requires Distinct(s)
    ensures multiset(s)[x] <= 1
  {
    if s != [] {
      CountAtMostOne(s[1..], x);
      assert s == [s[0]] + s[1..];
      assert x == s[0] ==> x !in s[1..];
    }
  }

  lemma EventsDistinct(entries: seq<Target>, evs: seq<Event>)
    requires Distinct(entries) && EventsOf(entries, evs)
    ensures Distinct(evs)
  {
    forall i, j | 0 <= i < j < |evs| ensures evs[i] != evs[j] {
      var k, m := i / 2, j / 2;
      assert (i == 2 * k || i == 2 * k + 1) && (j == 2 * m || j == 2 * m + 1);
      assert evs[2 * k] == StartOf(entries[k]) && evs[2 * m] == StartOf(entries[m]);
      assert evs[2 * k + 1] == StopOf(entries[k]) && evs[2 * m + 1] == StopOf(entries[m]);
    }
  }

  lemma FindPlace(entries: seq<Target>, all: seq<Event>, evs: seq<Event>, e: Event, k: nat) returns (i: nat)
    requires EventsOf(entries, all) && multiset(evs) == multiset(all)
    requires k < |entries| && (e == StartOf(entries[k]) || e == StopOf(entries[k]))
    ensures i < |evs| && evs[i] == e
  {
    assert all[2 * k] in all && all[2 * k + 1] in all;
    assert e in multiset(evs);
    i :| 0 <= i < |evs| && evs[i] == e;
  }

  /** A sorted rearrangement holds each start and each stop at exactly one place. */
  lemma MakePlaces(entries: seq<Target>, all: seq<Event>, evs: seq<Event>) returns (at: Places)
    requires Distinct(entries) && EventsOf(entries, all) && multiset(evs) == multiset(all)
    ensures Placed(Tasks(entries), evs, at)
  {
    var tasks := Tasks(entries);
    EventsDistinct(entries, all);
    forall t | t in tasks
      ensures exists i: nat :: i < |evs| && evs[i] == StartOf(t)
      ensures exists i: nat :: i < |evs| && evs[i] == StopOf(t)
    {
      var k :| 0 <= k < |entries| && entries[k] == t;
      var i := FindPlace(entries, all, evs, StartOf(t), k);
      var j := FindPlace(entries, all, evs, StopOf(t), k);
    }
    at := Places(map t | t in tasks :: (var i: nat :| i < |evs| && evs[i] == StartOf(t); i),
                 map t | t in tasks :: (var i: nat :| i < |evs| && evs[i] == StopOf(t); i));
    forall i | 0 <= i < |evs|
      ensures OwnPlace(tasks, evs, at, i)
    {
      PlaceUnique(entries, all, evs, tasks, at, i);
    }
  }

  lemma PlaceUnique(entries: seq<Target>, all: seq<Event>, evs: seq<Event>, tasks: set<Target>, at: Places, i: nat)
    requires Distinct(all) && EventsOf(entries, all) && multiset(evs) == multiset(all)
    requires tasks == Tasks(entries)
    requires forall t :: t in tasks ==> t in at.start && t in at.stop
    requires forall t :: t in tasks ==> at.start[t] < |evs| && evs[at.start[t]] == StartOf(t)
    requires forall t :: t in tasks ==> at.stop[t] < |evs| && evs[at.stop[t]] == StopOf(t)
    requires i < |evs|
    ensures OwnPlace(tasks, evs, at, i)
  {
    var e := evs[i];
    assert e in multiset(all);
    var m :| 0 <= m < |all| && all[m] == e;
    var k := m / 2;
    assert m == 2 * k || m == 2 * k + 1;
    assert e.target == entries[k];
    var p := if e.action == Start then at.start[e.target] else at.stop[e.target];
    CountAtMostOne(all, e);
    if i < p {
      Repeated(evs, i, p);
    } else if p < i {
      Repeated(evs, p, i);
    }
  }

  // ----- the sweep

  function TimesUpTo(evs: seq<Event>, j: nat): (ts: seq<real>)
    requires j <= |evs|
    ensures |ts| == j && forall i :: 0 <= i < j ==> ts[i] == evs[i].time
  {
    seq(j, i requires 0 <= i < j => evs[i].time)
  }

  /** What each task has received after the first j events. */
  ghost function SharesUpTo(spans: seq<Span>, tasks: set<Target>, evs: seq<Event>, j: nat): map<Target, real>
    requires j <= |evs|
  {
    map t | t in tasks :: Share(spans, SpanOf(t), TimesUpTo(evs, j))
  }

  /** The state of the sweep after j events: `running` holds, for each running task, the
      accumulator at its start; `done` the durations given out so far. */
  ghost predicate Inv(tasks: set<Target>, at: Places, j: nat, shares: map<Target, real>,
                      acc: real, running: map<Target, real>, done: map<Target, real>)
    requires forall t :: t in tasks ==> t in at.start && t in at.stop && t in shares
  {
    && running.Keys <= tasks && done.Keys <= tasks
    && (forall t :: t in tasks ==> (t in running <==> at.start[t] < j <= at.stop[t]))
    && (forall t :: t in tasks ==> (t in done <==> at.stop[t] < j))
    && (forall t :: t in running ==> acc - running[t] == shares[t])
    && (forall t :: t in done ==> done[t] == shares[t] && at.start[t] < at.stop[t])
    && (forall t :: t in tasks && j <= at.start[t] ==> shares[t] == 0.0)
  }

  lemma {:induction false} ShareAppend(spans: seq<Span>, p: Span, g: seq<real>, x: real)
    requires g != []
    ensures Share(spans, p, g + [x]) == Share(spans, p, g) + Piece(spans, p, g[|g| - 1], x)
  {
    if |g| > 1 {
      assert (g + [x])[1..] == g[1..] + [x];
      ShareAppend(spans, p, g[1..], x);
    } else {
      assert (g + [x])[1..] == [x];
    }
  }

  /** Between two distinct event times a task is running exactly when it covers the segment. */
  lemma RunningCovers(evs: seq<Event>, t: Target, a: nat, b: nat, j: nat)
    requires InOrder(evs) && a < |evs| && b < |evs|
    requires evs[a] == StartOf(t) && evs[b] == StopOf(t)
    requires 0 < j < |evs| && evs[j - 1].time < evs[j].time
    ensures a < j <= b <==> Covers(SpanOf(t), evs[j - 1].time)
  {
    assert a < j - 1 ==> NotAfter(evs[a], evs[j - 1]);
    assert a > j ==> NotAfter(evs[j], evs[a]);
    assert b < j - 1 ==> NotAfter(evs[b], evs[j - 1]);
    assert b > j ==> NotAfter(evs[j], evs[b]);
  }

  lemma {:induction false} RunningLoad(entries: seq<Target>, running: set<Target>, x: real)
    requires Distinct(entries)
    requires forall t :: t in running <==> t in entries && Covers(SpanOf(t), x)
    ensures |running| == Load(SpansOf(entries), x)
  {
    if entries != [] {
      var rest := running - {entries[0]};
      assert SpansOf(entries)[1..] == SpansOf(entries[1..]);
      assert entries == [entries[0]] + entries[1..];
      assert running == if Covers(SpanOf(entries[0]), x) then {entries[0]} + rest else rest;
      RunningLoad(entries[1..], rest, x);
    }
  }

  /** The accumulator when the sweep moves from one event time to the next. */
  function Advance(acc: real, running: map<Target, real>, last: real, time: real): real {
    if |running| > 0 then acc + (time - last) / |running| as real else acc
  }

  ghost predicate Grown(tasks: set<Target>, shares: map<Target, real>, shares': map<Target, real>,
                        running: map<Target, real>, growth: real)
    requires forall t :: t in tasks ==> t in shares && t in shares'
  {
    forall t :: t in tasks ==> shares'[t] == shares[t] + if t in running then growth else 0.0
  }

  /** Moving to the next event gives every running task the growth of the accumulator,
      and every other task nothing. */
  lemma AdvanceShares(entries: seq<Target>, tasks: set<Target>, evs: seq<Event>, at: Places, j: nat,
                      acc: real, running: map<Target, real>, last: real)
    requires Distinct(entries) && tasks == Tasks(entries)
    requires Placed(tasks, evs, at) && InOrder(evs)
    requires j < |evs| && last == evs[if j == 0 then 0 else j - 1].time
    requires running.Keys <= tasks
    requires forall t :: t in tasks ==> (t in running <==> at.start[t] < j <= at.stop[t])
    ensures var spans := SpansOf(entries);
            Grown(tasks, SharesUpTo(spans, tasks, evs, j), SharesUpTo(spans, tasks, evs, j + 1),
                  running, Advance(acc, running, last, evs[j].time) - acc)
  {
    hide Share, OwnPlace, Distinct, Advance, TimesUpTo, InOrder;
    var spans := SpansOf(entries);
    if j == 0 {
      assert running.Keys == {};
      NoShareYet(spans, evs);
    } else {
      forall t | t in tasks
        ensures Share(spans, SpanOf(t), TimesUpTo(evs, j + 1)) == Share(spans, SpanOf(t), TimesUpTo(evs, j)) +
                if t in running then Advance(acc, running, last, evs[j].time) - acc else 0.0
      {
        AdvanceTask(entries, evs, at, j, acc, running, t);
      }
    }
  }

  lemma AdvanceTask(entries: seq<Target>, evs: seq<Event>, at: Places, j: nat, acc: real, running: map<Target, real>,
                    t: Target)
    requires Distinct(entries) && Placed(Tasks(entries), evs, at) && InOrder(evs) && 0 < j < |evs|
    requires running.Keys <= Tasks(entries) && t in Tasks(entries)
    requires forall u :: u in Tasks(entries) ==> (u in running <==> at.start[u] < j <= at.stop[u])
    ensures var spans := SpansOf(entries);
            Share(spans, SpanOf(t), TimesUpTo(evs, j + 1)) == Share(spans, SpanOf(t), TimesUpTo(evs, j)) +
            if t in running then Advance(acc, running, evs[j - 1].time, evs[j].time) - acc else 0.0
  {
    hide Share, Load, OwnPlace, Distinct, Advance, TimesUpTo;
    TimesStep(evs, j);
    assert NotAfter(evs[j - 1], evs[j]);
    if evs[j - 1].time < evs[j].time {
      RunningIsLoad(entries, evs, at, j, running.Keys);
    }
    AdvanceOne(SpansOf(entries), t, TimesUpTo(evs, j), evs[j].time, acc, running);
  }

  lemma TimesStep(evs: seq<Event>, j: nat)
    requires 0 < j < |evs|
    ensures TimesUpTo(evs, j + 1) == TimesUpTo(evs, j) + [evs[j].time]
    ensures TimesUpTo(evs, j) != [] && TimesUpTo(evs, j)[|TimesUpTo(evs, j)| - 1] == evs[j - 1].time
  {
  }

  lemma NoShareYet(spans: seq<Span>, evs: seq<Event>)
    requires |evs| > 0
    ensures forall p :: Share(spans, p, TimesUpTo(evs, 0)) == Share(spans, p, TimesUpTo(evs, 1)) == 0.0
  {
  }

  lemma AdvanceOne(spans: seq<Span>, t: Target, g: seq<real>, x: real, acc: real, running: map<Target, real>)
    requires g != []
    requires g[|g| - 1] < x ==> |running| == Load(spans, g[|g| - 1])
    requires g[|g| - 1] < x ==> (t in running <==> Covers(SpanOf(t), g[|g| - 1]))
    requires g[|g| - 1] <= x
    ensures Share(spans, SpanOf(t), g + [x]) == Share(spans, SpanOf(t), g) +
            if t in running then Advance(acc, running, g[|g| - 1], x) - acc else 0.0
  {
    ShareAppend(spans, SpanOf(t), g, x);
  }

  lemma RunningIsLoad(entries: seq<Target>, evs: seq<Event>, at: Places, j: nat, running: set<Target>)
    requires Distinct(entries) && Placed(Tasks(entries), evs, at) && InOrder(evs)
    requires 0 < j < |evs| && evs[j - 1].time < evs[j].time
    requires running <= Tasks(entries)
    requires forall t :: t in Tasks(entries) ==> (t in running <==> at.start[t] < j <= at.stop[t])
    ensures |running| == Load(SpansOf(entries), evs[j - 1].time)
    ensures forall t :: t in Tasks(entries) ==> (t in running <==> Covers(SpanOf(t), evs[j - 1].time))
  {
    forall t | t in Tasks(entries) ensures t in running <==> Covers(SpanOf(t), evs[j - 1].time) {
      RunningCovers(evs, t, at.start[t], at.stop[t], j);
    }
    RunningLoad(entries, running, evs[j - 1].time);
  }

  ghost predicate OnlyAt(tasks: set<Target>, places: map<Target, nat>, j: nat, x: set<Target>)
    requires forall t :: t in tasks ==> t in places
  {
    forall t :: t in tasks ==> (places[t] == j <==> t in x)
  }

  lemma WhoIsAt(tasks: set<Target>, evs: seq<Event>, at: Places, j: nat)
    requires Placed(tasks, evs, at) && j < |evs|
    ensures var Event(_, action, x) := evs[j];
            && x in tasks
            && OnlyAt(tasks, at.start, j, if action == Start then {x} else {})
            && OnlyAt(tasks, at.stop, j, if action == Start then {} else {x})
  {
    assert OwnPlace(tasks, evs, at, j);
  }

  lemma StartStep(tasks: set<Target>, at: Places, j: nat, x: Target,
                  shares: map<Target, real>, shares': map<Target, real>,
                  acc: real, acc': real, running: map<Target, real>, done: map<Target, real>)
    requires forall t :: t in tasks ==> t in at.start && t in at.stop && t in shares && t in shares'
    requires x in tasks && OnlyAt(tasks, at.start, j, {x}) && OnlyAt(tasks, at.stop, j, {})
    requires Inv(tasks, at, j, shares, acc, running, done)
    requires Grown(tasks, shares, shares', running, acc' - acc)
    ensures Inv(tasks, at, j + 1, shares', acc', running[x := acc'], done)
  {
    assert at.start[x] == j;
    assert at.stop[x] < j ==> x in done;
  }

  lemma StopStep(tasks: set<Target>, at: Places, j: nat, x: Target,
                 shares: map<Target, real>, shares': map<Target, real>,
                 acc: real, acc': real, running: map<Target, real>, done: map<Target, real>)
    requires forall t :: t in tasks ==> t in at.start && t in at.stop && t in shares && t in shares'
    requires x in running && OnlyAt(tasks, at.start, j, {}) && OnlyAt(tasks, at.stop, j, {x})
    requires Inv(tasks, at, j, shares, acc, running, done)
    requires Grown(tasks, shares, shares', running, acc' - acc)
    ensures Inv(tasks, at, j + 1, shares', acc', running - {x}, done[x := acc' - running[x]])
  {
    assert at.stop[x] == j;
  }

  /** A stop that finds its task not running belongs to a task that ends before it starts. */
  lemma StopBeforeStart(tasks: set<Target>, evs: seq<Event>, at: Places, j: nat,
                        shares: map<Target, real>,
                        acc: real, running: map<Target, real>, done: map<Target, real>)
    requires Placed(tasks, evs, at) && InOrder(evs) && j < |evs| && evs[j].action == Stop
    requires forall t :: t in tasks ==> t in shares
    requires Inv(tasks, at, j, shares, acc, running, done)
    requires evs[j].target !in running
    ensures evs[j].target.end < evs[j].target.start
  {
    var x := evs[j].target;
    WhoIsAt(tasks, evs, at, j);
    assert at.stop[x] == j && j <= at.start[x];
    assert evs[at.start[x]] == StartOf(x);
    assert NotAfter(evs[j], evs[at.start[x]]);
  }

  ghost predicate SweepInv(entries: seq<Target>, evs: seq<Event>, at: Places, j: nat,
                           acc: real, running: map<Target, real>, done: map<Target, real>)
    requires j <= |evs| && Placed(Tasks(entries), evs, at)
  {
    Inv(Tasks(entries), at, j, SharesUpTo(SpansOf(entries), Tasks(entries), evs, j), acc, running, done)
  }

  ghost predicate AfterStep(tasks: set<Target>, at: Places, j: nat, e: Event, shares: map<Target, real>,
                            acc: real, running: map<Target, real>, done: map<Target, real>)
    requires forall t :: t in tasks ==> t in at.start && t in at.stop && t in shares
  {
    var x := e.target;
    && x in tasks
    && (e.action == Start ==> Inv(tasks, at, j + 1, shares, acc, running[x := acc], done))
    && (e.action == Stop && x in running ==>
          && x !in done
          && Inv(tasks, at, j + 1, shares, acc, running - {x}, done[x := acc - running[x]]))
    && (e.action == Stop && x !in running ==> x.end < x.start)
  }

  lemma SweepCases(tasks: set<Target>, evs: seq<Event>, at: Places, j: nat,
                   shares: map<Target, real>, shares': map<Target, real>,
                   acc: real, acc': real, running: map<Target, real>, done: map<Target, real>)
    requires Placed(tasks, evs, at) && InOrder(evs) && j < |evs|
    requires forall t :: t in tasks ==> t in shares && t in shares'
    requires Inv(tasks, at, j, shares, acc, running, done)
    requires Grown(tasks, shares, shares', running, acc' - acc)
    ensures AfterStep(tasks, at, j, evs[j], shares', acc', running, done)
  {
    hide InOrder, OwnPlace, OnlyAt, Grown;
    var x := evs[j].target;
    WhoIsAt(tasks, evs, at, j);
    if evs[j].action == Start {
      StartStep(tasks, at, j, x, shares, shares', acc, acc', running, done);
    } else if x in running {
      StopStep(tasks, at, j, x, shares, shares', acc, acc', running, done);
    } else {
      StopBeforeStart(tasks, evs, at, j, shares, acc, running, done);
    }
  }

  lemma InvRunning(tasks: set<Target>, at: Places, j: nat, shares: map<Target, real>,
                   acc: real, running: map<Target, real>, done: map<Target, real>)
    requires forall t :: t in tasks ==> t in at.start && t in at.stop && t in shares
    requires Inv(tasks, at, j, shares, acc, running, done)
    ensures running.Keys <= tasks
    ensures forall t :: t in tasks ==> (t in running <==> at.start[t] < j <= at.stop[t])
  {
  }

  /** One turn of the event loop. */
  lemma SweepStep(entries: seq<Target>, evs: seq<Event>, at: Places, j: nat, last: real,
                  acc: real, running: map<Target, real>, done: map<Target, real>)
    requires Distinct(entries) && Placed(Tasks(entries), evs, at) && InOrder(evs)
    requires j < |evs| && last == evs[if j == 0 then 0 else j - 1].time
    requires SweepInv(entries, evs, at, j, acc, running, done)
    ensures AfterStep(Tasks(entries), at, j, evs[j], SharesUpTo(SpansOf(entries), Tasks(entries), evs, j + 1),
                      Advance(acc, running, last, evs[j].time), running, done)
  {
    hide Inv, Advance, Grown, InOrder, Distinct, AfterStep, Share, OwnPlace;
    var tasks, spans := Tasks(entries), SpansOf(entries);
    InvRunning(tasks, at, j, SharesUpTo(spans, tasks, evs, j), acc, running, done);
    AdvanceShares(entries, tasks, evs, at, j, acc, running, last);
    SweepCases(tasks, evs, at, j, SharesUpTo(spans, tasks, evs, j), SharesUpTo(spans, tasks, evs, j + 1),
               acc, Advance(acc, running, last, evs[j].time), running, done);
  }

  lemma SweepStart(entries: seq<Target>, evs: seq<Event>, at: Places)
    requires Placed(Tasks(entries), evs, at)
    ensures SweepInv(entries, evs, at, 0, 0.0, map[], map[])
  {
  }

  // ----- totals

  ghost function Total(entries: seq<Target>, done: map<Target, real>): real {
    if entries == [] then 0.0
    else (if entries[0] in done then done[entries[0]] else 0.0) + Total(entries[1..], done)
  }

  lemma {:induction false} TotalAdd(entries: seq<Target>, done: map<Target, real>, x: Target, w: real)
    requires Distinct(entries) && x !in done
    ensures Total(entries, done[x := w]) == Total(entries, done) + if x in entries then w else 0.0
  {
    if entries != [] {
      TotalAdd(entries[1..], done, x, w);
      assert entries == [entries[0]] + entries[1..];
    }
  }

  lemma {:induction false} TotalNone(entries: seq<Target>)
    ensures Total(entries, map[]) == 0.0
  {
    if entries != [] {
      TotalNone(entries[1..]);
    }
  }

  lemma {:induction false} TotalIsWeighted(spans: seq<Span>, entries: seq<Target>, done: map<Target, real>)
    requires forall t :: t in entries ==> t in done && done[t] == Weighted(spans, SpanOf(t))
    ensures Total(entries, done) == SumWeighted(spans, SpansOf(entries))
  {
    if entries != [] {
      assert SpansOf(entries)[1..] == SpansOf(entries[1..]);
      assert entries[0] in entries;
      TotalIsWeighted(spans, entries[1..], done);
    }
  }

  lemma EventTimesAreGrid(entries: seq<Target>, evs: seq<Event>, at: Places)
    requires Placed(Tasks(entries), evs, at) && InOrder(evs)
    ensures IsGrid(SpansOf(entries), TimesUpTo(evs, |evs|))
  {
    var spans, g := SpansOf(entries), TimesUpTo(evs, |evs|);
    forall i, j | 0 <= i < j < |g| ensures g[i] <= g[j] {
      assert NotAfter(evs[i], evs[j]);
    }
    forall p | p in spans ensures p.start in g && p.end in g {
      var k :| 0 <= k < |entries| && p == SpanOf(entries[k]);
      assert entries[k] in entries;
      assert g[at.start[entries[k]]] == p.start && g[at.stop[entries[k]]] == p.end;
    }
  }

  /** The event times give each task its weighted time. */
  lemma EventTimesShare(entries: seq<Target>, evs: seq<Event>, at: Places, t: Target)
    requires Placed(Tasks(entries), evs, at) && InOrder(evs) && t in entries
    ensures Share(SpansOf(entries), SpanOf(t), TimesUpTo(evs, |evs|)) == Weighted(SpansOf(entries), SpanOf(t))
  {
    var k :| 0 <= k < |entries| && entries[k] == t;
    assert SpansOf(entries)[k] == SpanOf(t);
    EventTimesAreGrid(entries, evs, at);
    GridShare(SpansOf(entries), SpanOf(t), TimesUpTo(evs, |evs|));
  }

  lemma GridShare(spans: seq<Span>, p: Span, g: seq<real>)
    requires p in spans && IsGrid(spans, g)
    ensures Share(spans, p, g) == Weighted(spans, p)
  {
    TimesIsGrid(spans);
    GridIndependence(spans, p, g, Times(spans));
  }

  lemma StartNotAfterStop(tasks: set<Target>, evs: seq<Event>, at: Places, t: Target)
    requires Placed(tasks, evs, at) && InOrder(evs) && t in tasks
    requires at.start[t] < at.stop[t]
    ensures t.start <= t.end
  {
    assert NotAfter(evs[at.start[t]], evs[at.stop[t]]);
  }

  lemma TaskDone(entries: seq<Target>, evs: seq<Event>, at: Places,
                 acc: real, running: map<Target, real>, done: map<Target, real>, t: Target)
    requires Placed(Tasks(entries), evs, at) && InOrder(evs) && t in entries
    requires SweepInv(entries, evs, at, |evs|, acc, running, done)
    ensures t in done && t.start <= t.end && done[t] == Weighted(SpansOf(entries), SpanOf(t))
  {
    assert t in Tasks(entries);
    EventTimesShare(entries, evs, at, t);
    StartNotAfterStop(Tasks(entries), evs, at, t);
  }

  /** After the last event no task is running and every task has its weighted time. */
  lemma SweepDone(entries: seq<Target>, evs: seq<Event>, at: Places,
                  acc: real, running: map<Target, real>, done: map<Target, real>)
    requires Placed(Tasks(entries), evs, at) && InOrder(evs)
    requires SweepInv(entries, evs, at, |evs|, acc, running, done)
    ensures running == map[]
    ensures forall t :: t in entries ==> t.start <= t.end
    ensures forall t :: t in entries ==> t in done && done[t] == Weighted(SpansOf(entries), SpanOf(t))
    ensures Total(entries, done) == BusyTime(SpansOf(entries))
  {
    assert running.Keys == {};
    forall t | t in entries
      ensures t in done && t.start <= t.end && done[t] == Weighted(SpansOf(entries), SpanOf(t))
    {
      TaskDone(entries, evs, at, acc, running, done, t);
    }
    TotalIsWeighted(SpansOf(entries), entries, done);
    Conservation(SpansOf(entries));
  }

  /** The event loop.  It fails exactly when some task ends before it starts. */
  method Sweep(entries: seq<Target>, evs: seq<Event>, ghost at: Places) returns (r: Result<real>)
    requires evs != [] && Distinct(entries)
    requires Placed(Tasks(entries), evs, at) && InOrder(evs)
    modifies set t | t in entries :: t`weightedDuration
    ensures r.Ok? <==> forall t :: t in entries ==> t.start <= t.end
    ensures r.Err? ==> r.error == KeyError
    ensures r.Ok? ==> r.value == BusyTime(SpansOf(entries))
    ensures r.Ok? ==> forall t :: t in entries ==>
              t.weightedDuration == Weighted(SpansOf(entries), SpanOf(t))
  {
    hide Inv, Advance, Placed, InOrder, Distinct, SharesUpTo, Weighted, BusyTime, Total;
    var running: map<Target, real> := map[];
    var lastTime := evs[0].time;
    var lastWeightedTime := 0.0;
    var weightedTotal := 0.0;
    ghost var done: map<Target, real> := map[];
    TotalNone(entries);
    SweepStart(entries, evs, at);
    for j := 0 to |evs|
      invariant lastTime == evs[if j == 0 then 0 else j - 1].time
      invariant SweepInv(entries, evs, at, j, lastWeightedTime, running, done)
      invariant weightedTotal == Total(entries, done)
      invariant forall t :: t in done ==> t.weightedDuration == done[t]
    {
      var Event(time, action, target) := evs[j];
      SweepStep(entries, evs, at, j, lastTime, lastWeightedTime, running, done);
      lastWeightedTime := Advance(lastWeightedTime, running, lastTime, time);
      if action == Start {
        running := running[target := lastWeightedTime];
      } else {
        if target !in running {
          return Err(KeyError);
        }
        var weightedDuration := lastWeightedTime - running[target];
        target.weightedDuration := weightedDuration;
        weightedTotal := weightedTotal + weightedDuration;
        TotalAdd(entries, done, target, weightedDuration);
        done := done[target := weightedDuration];
        running := running - {target};
      }
      lastTime := time;
    }
    SweepDone(entries, evs, at, lastWeightedTime, running, done);
    return Ok(weightedTotal);
  }

  // ----- the report

  ghost predicate AllForward(entries: seq<Target>) {
    forall t :: t in entries ==> t.start <= t.end
  }

  /** Lines 209-221: the extent of the build, the CPU time and the unsorted events. */
  method CollectEvents(entries: seq<Target>)
    returns (evs: seq<Event>, earliest: real, latest: real, totalCpuTime: real)
    ensures EventsOf(entries, evs)
    ensures Scanned(entries, earliest)
    ensures LatestOf(entries, latest)
    ensures totalCpuTime == TotalLength(SpansOf(entries))
  {
    hide TotalLength, EventsOf, Scanned, LatestOf;
    evs := [];
    earliest, latest, totalCpuTime := -1.0, 0.0, 0.0;
    NothingCollected();
    for k := 0 to |entries|
      invariant EventsOf(entries[..k], evs)
      invariant Scanned(entries[..k], earliest)
      invariant LatestOf(entries[..k], latest)
      invariant totalCpuTime == TotalLength(SpansOf(entries[..k]))
    {
      var target := entries[k];
      CollectStep(entries, k, evs, earliest, latest);
      if earliest < 0.0 || target.start < earliest {
        earliest := target.start;
      }
      if target.end > latest {
        latest := target.end;
      }
      totalCpuTime := totalCpuTime + target.Duration();
      evs := evs + [StartOf(target), StopOf(target)];
    }
    assert entries[..|entries|] == entries;
  }

  lemma NothingCollected()
    ensures TotalLength([]) == 0.0 && EventsOf([], []) && Scanned([], -1.0) && LatestOf([], 0.0)
  {
  }

  lemma CollectStep(entries: seq<Target>, k: nat, evs: seq<Event>, first: real, last: real)
    requires k < |entries|
    ensures TotalLength(SpansOf(entries[..k + 1])) == TotalLength(SpansOf(entries[..k])) + entries[k].Duration()
    ensures EventsOf(entries[..k], evs) ==> EventsOf(entries[..k + 1], evs + [StartOf(entries[k]), StopOf(entries[k])])
    ensures Scanned(entries[..k], first) ==>
              Scanned(entries[..k + 1], if first < 0.0 || entries[k].start < first then entries[k].start else first)
    ensures LatestOf(entries[..k], last) ==>
              LatestOf(entries[..k + 1], if entries[k].end > last then entries[k].end else last)
    ensures entries[k] in entries
  {
    hide TotalLength, Scanned, LatestOf;
    var a, t := entries[..k], entries[k];
    assert entries[..k + 1] == a + [t];
    assert SpansOf(a + [t]) == SpansOf(a) + [SpanOf(t)];
    TotalLengthSnoc(SpansOf(a), SpanOf(t));
    if Scanned(a, first) {
      EarliestStep(a, t, first);
    }
    LatestStep(a, t, last);
  }

  lemma EarliestStep(a: seq<Target>, t: Target, first: real)
    requires Scanned(a, first)
    ensures Scanned(a + [t], if first < 0.0 || t.start < first then t.start else first)
  {
    var b := a + [t];
    assert t in b && b[|b| - 1] == t;
    assert forall u :: u in a ==> u in b;
    assert a != [] ==> a[|a| - 1] in a;
  }

  lemma LatestStep(a: seq<Target>, t: Target, last: real)
    ensures LatestOf(a, last) ==> LatestOf(a + [t], if t.end > last then t.end else last)
  {
    assert t in a + [t];
  }

  /** Lines 209-256 of the report: the totals, the event list, its sort and the sweep.
      An empty list fails at line 233 and a task that ends before it starts at line 251. */
  method SummarizeEntries(entries: seq<Target>) returns (r: Result<Summary>)
    requires Distinct(entries)
    modifies set t | t in entries :: t`weightedDuration
    ensures r.Ok? <==> entries != [] && AllForward(entries)
    ensures r == Err(IndexError) <==> entries == []
    ensures r.Err? ==> r.error != AssertionError
    ensures r.Ok? ==> forall t :: t in entries ==>
              t.weightedDuration == Weighted(SpansOf(entries), SpanOf(t))
    ensures r.Ok? ==> r.value.weightedTotal == BusyTime(SpansOf(entries))
    ensures r.Ok? ==> r.value.totalCpuTime == TotalLength(SpansOf(entries))
    ensures r.Ok? ==>
              (Extent(SpansOf(entries), r.value.earliest, r.value.latest) <==>
               EarliestFound(entries) && exists t :: t in entries && t.end >= 0.0)
  {
    hide Weighted, BusyTime, Placed, TotalLength, Scanned, EarliestFound, LatestOf, Extent;
    var evs, earliest, latest, totalCpuTime := CollectEvents(entries);
    if entries == [] {
      return Err(IndexError);
    }
    var sorted := SortEvents(evs);
    assert |sorted| == |evs| by {
      assert |multiset(sorted)| == |multiset(evs)|;
    }
    ghost var at := MakePlaces(entries, evs, sorted);
    var swept := Sweep(entries, sorted, at);
    if swept.Err? {
      return Err(swept.error);
    }
    r := Ok(Summary(earliest, latest, totalCpuTime, swept.value));
    ExtentOf(entries, earliest, latest);
  }

  /** The scan takes -1 for "nothing yet", so a negative earliest start is overwritten by the next
      entry: it finds the earliest start exactly when no start is negative or the last entry
      starts first. */
  ghost predicate EarliestFound(entries: seq<Target>) {
    || (forall t :: t in entries ==> t.start >= 0.0)
    || (entries != [] && forall t :: t in entries ==> entries[|entries| - 1].start <= t.start)
  }

  /** The scanned value is a start, and the earliest one exactly under that condition. */
  ghost predicate Scanned(entries: seq<Target>, first: real) {
    && (entries == [] ==> first == -1.0)
    && (entries != [] ==> exists t :: t in entries && t.start == first)
    && ((forall t :: t in entries ==> first <= t.start) <==> EarliestFound(entries))
  }

  ghost predicate LatestOf(entries: seq<Target>, last: real) {
    && (last == 0.0 || exists t :: t in entries && t.end == last)
    && 0.0 <= last && forall t :: t in entries ==> t.end <= last
  }

  lemma ExtentOf(entries: seq<Target>, first: real, last: real)
    requires entries != [] && Scanned(entries, first) && LatestOf(entries, last)
    ensures Extent(SpansOf(entries), first, last) <==>
            EarliestFound(entries) && exists t :: t in entries && t.end >= 0.0
  {
    hide EarliestFound;
    var spans := SpansOf(entries);
    forall t | t in entries ensures SpanOf(t) in spans {
      var k :| 0 <= k < |entries| && entries[k] == t;
      assert spans[k] == SpanOf(t);
    }
    forall p | p in spans ensures exists t :: t in entries && SpanOf(t) == p {
      var k :| 0 <= k < |entries| && spans[k] == p;
      assert entries[k] in entries && SpanOf(entries[k]) == p;
    }
    var a :| a in entries && a.start == first;
    assert SpanOf(a) in spans;
    if Extent(spans, first, last) {
      forall t | t in entries ensures first <= t.start {
        assert SpanOf(t) in spans;
      }
    } else if t :| t in entries && t.end >= 0.0 {
      var b :| b in entries && b.end == last;
      assert SpanOf(b) in spans;
    }
  }

  /** Target.WeightedDuration: the assertion of line 88 guards the stored value. */
  method WeightedDuration(t: Target) returns (r: Result<real>)
    ensures t.weightedDuration <= t.Duration() + 0.000002 ==> r == Ok(t.weightedDuration)
    ensures t.weightedDuration > t.Duration() + 0.000002 ==> r == Err(AssertionError)
  {
    var epsilon := 0.000002;
    if t.weightedDuration > t.Duration() + epsilon {
      return Err(AssertionError);
    }
    return Ok(t.weightedDuration);
  }

  /** After a successful summary the guard never fires, whatever the log. */
  method ReportDurations(entries: seq<Target>) returns (r: Result<seq<real>>)
    requires Distinct(entries)
    modifies set t | t in entries :: t`weightedDuration
    ensures r.Err? ==> r.error != AssertionError
    ensures r.Ok? ==> |r.value| == |entries|
    ensures r.Ok? ==> forall k :: 0 <= k < |entries| ==>
              && r.value[k] == Weighted(SpansOf(entries), SpanOf(entries[k]))
              && 0.0 <= r.value[k] <= entries[k].Duration()
  {
    hide Weighted, BusyTime, TotalLength, Extent, EarliestFound;
    var s := SummarizeEntries(entries);
    if s.Err? {
      return Err(s.error);
    }
    var out: seq<real> := [];
    for k := 0 to |entries|
      invariant |out| == k
      invariant forall t :: t in entries ==> t.weightedDuration == Weighted(SpansOf(entries), SpanOf(t))
      invariant forall i :: 0 <= i < k ==>
                  && out[i] == Weighted(SpansOf(entries), SpanOf(entries[i]))
                  && 0.0 <= out[i] <= entries[i].Duration()
    {
      assert entries[k] in entries;
      assert SpansOf(entries)[k] == SpanOf(entries[k]);
      WeightedBounds(SpansOf(entries), SpanOf(entries[k]));
      var w := WeightedDuration(entries[k]);
      out := out + [w.value];
    }
    return Ok(out);
  }
}
