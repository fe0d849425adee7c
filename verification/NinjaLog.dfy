/** Reading the ninja log (ReadTargets, tools/report_build_time_ninja.py).

    The log holds several builds one after the other.  The reader keeps only the records
    since its last reset: a record resets the reader when its end time goes backwards, or when
    its command was already seen with other times. */
module NinjaLog {
  import opened Common
  import opened Spans
  import opened NinjaReport

  /** A record of the log; times are in milliseconds. */
  datatype Record = Record(start: int, end: int, name: string, cmdhash: string)

  /** A line of the log; one without exactly five fields is skipped. */
  datatype Line = Malformed | Wellformed(record: Record)

  function Records(lines: seq<Line>): seq<Record> {
    if lines == [] then []
    else Records(lines[..|lines| - 1]) +
         if lines[|lines| - 1].Malformed? then [] else [lines[|lines| - 1].record]
  }

  function Seconds(ms: int): real { ms as real / 1000.0 }

  /** The records are those of the well-formed lines, in order. */
  lemma {:induction false} RecordsConcat(a: seq<Line>, b: seq<Line>)
    ensures Records(a + b) == Records(a) + Records(b)
  {
    if b == [] {
      assert a + b == a;
    } else {
      hide Records;
      var init, last := b[..|b| - 1], b[|b| - 1];
      RecordsConcat(a, init);
      RecordsSnoc(a + init, last);
      RecordsSnoc(init, last);
      assert b == init + [last];
      ConcatAssoc(a, init, [last]);
      ConcatAssoc(Records(a), Records(init), if last.Wellformed? then [last.record] else []);
    }
  }

  lemma RecordsSnoc(lines: seq<Line>, l: Line)
    ensures Records(lines + [l]) == Records(lines) + if l.Wellformed? then [l.record] else []
  {
    assert (lines + [l])[..|lines|] == lines;
  }

  // ----- which records are kept

  /** One build: end times never decrease and a command always has the same times. */
  ghost predicate Consistent(recs: seq<Record>) {
    && (forall i, j :: 0 <= i < j < |recs| ==> recs[i].end <= recs[j].end)
    && (forall i, j :: 0 <= i < j < |recs| && recs[i].cmdhash == recs[j].cmdhash ==> SameTimes(recs[i], recs[j]))
  }

  predicate SameTimes(a: Record, b: Record) {
    a.start == b.start && a.end == b.end
  }

  /** The records kept after reading recs: a record that does not fit the current build
      starts a new one. */
  ghost function Window(recs: seq<Record>): seq<Record> {
    if recs == [] then []
    else
      var w, r := Window(recs[..|recs| - 1]), recs[|recs| - 1];
      if Consistent(w + [r]) then w + [r] else [r]
  }

  lemma WindowSnoc(init: seq<Record>, r: Record)
    ensures Window(init + [r]) == if Consistent(Window(init) + [r]) then Window(init) + [r] else [r]
  {
    assert (init + [r])[..|init|] == init;
  }

  /** What is kept is one build, and a suffix of the records. */
  lemma {:induction false} WindowIsBuild(recs: seq<Record>)
    ensures Consistent(Window(recs))
    ensures Window(recs) == [] <==> recs == []
    ensures |Window(recs)| <= |recs| && Window(recs) == recs[|recs| - |Window(recs)|..]
  {
    NoBuild(if recs == [] then Record(0, 0, "", "") else recs[|recs| - 1]);
    if recs != [] {
      hide Consistent, Window;
      var init, r := recs[..|recs| - 1], recs[|recs| - 1];
      assert recs == init + [r];
      WindowSnoc(init, r);
      WindowIsBuild(init);
      SuffixSnoc(init, Window(init), r);
    }
  }

  lemma NoBuild(r: Record)
    ensures Consistent([]) && Consistent([r]) && Window([]) == []
  {
  }

  lemma SuffixSnoc(recs: seq<Record>, w: seq<Record>, r: Record)
    requires |w| <= |recs| && w == recs[|recs| - |w|..]
    ensures w + [r] == (recs + [r])[|recs| - |w|..] && [r] == (recs + [r])[|recs|..]
  {
  }

  /** The window starts at the last reset: the record there did not fit the build before it. */
  lemma {:induction false} WindowStartsAtReset(recs: seq<Record>)
    ensures var c := |recs| - |Window(recs)|;
            0 < c < |recs| ==> !Consistent(Window(recs[..c]) + [recs[c]])
  {
    hide Consistent, Window;
    WindowIsBuild(recs);
    if recs != [] {
      var init, r := recs[..|recs| - 1], recs[|recs| - 1];
      assert recs == init + [r];
      WindowSnoc(init, r);
      WindowIsBuild(init);
      var c := |recs| - |Window(recs)|;
      if Consistent(Window(init) + [r]) {
        WindowStartsAtReset(init);
        if c > 0 {
          assert recs[..c] == init[..c] && recs[c] == init[c];
        }
      } else {
        assert recs[..c] == init;
      }
    }
  }

  lemma SameAsFirst(w: seq<Record>, j: nat)
    requires Consistent(w) && j < |w|
    ensures w[j].cmdhash in FirstKeys(w) && SameTimes(FirstOf(w, w[j].cmdhash), w[j])
  {
    FirstKeysComplete(w);
    var h := w[j].cmdhash;
    FirstOfIs(w, h);
    var i :| 0 <= i < |w| && w[i] == FirstOf(w, h) && w[i].cmdhash == h &&
             forall j :: 0 <= j < i ==> w[j].cmdhash != h;
    assert i <= j;
  }

  predicate Fits(w: seq<Record>, r: Record) {
    && (w != [] ==> w[|w| - 1].end <= r.end)
    && (r.cmdhash in FirstKeys(w) ==> SameTimes(FirstOf(w, r.cmdhash), r))
  }

  /** The reader's two tests detect exactly the records that do not fit the current build. */
  lemma FitsIsConsistent(w: seq<Record>, r: Record)
    requires Consistent(w)
    ensures Consistent(w + [r]) <==> Fits(w, r)
  {
    hide FirstOf, FirstKeys;
    var v, h := w + [r], r.cmdhash;
    if Consistent(v) {
      assert w != [] ==> v[|w| - 1].end <= v[|w|].end;
      if h in FirstKeys(w) {
        FirstOfIs(w, h);
        var i :| 0 <= i < |w| && w[i] == FirstOf(w, h) && w[i].cmdhash == h;
        assert SameTimes(v[i], v[|w|]);
      }
    }
    if Fits(w, r) {
      forall i | 0 <= i < |w| ensures w[i].end <= r.end && (w[i].cmdhash == h ==> SameTimes(w[i], r)) {
        SameAsFirst(w, i);
      }
    }
  }

  lemma WindowStep(recs: seq<Record>, r: Record)
    ensures Window(recs + [r]) == if Fits(Window(recs), r) then Window(recs) + [r] else [r]
  {
    WindowIsBuild(recs);
    WindowSnoc(recs, r);
    FitsIsConsistent(Window(recs), r);
  }

  // ----- grouping by command

  /** The command hashes, in order of first appearance. */
  function FirstKeys(recs: seq<Record>): (keys: seq<string>)
    ensures Distinct(keys)
  {
    if recs == [] then []
    else
      var keys, h := FirstKeys(recs[..|recs| - 1]), recs[|recs| - 1].cmdhash;
      if h in keys then keys else keys + [h]
  }

  lemma {:induction false} FirstKeysComplete(recs: seq<Record>)
    ensures forall i :: 0 <= i < |recs| ==> recs[i].cmdhash in FirstKeys(recs)
    ensures forall h :: h in FirstKeys(recs) ==> exists i :: 0 <= i < |recs| && recs[i].cmdhash == h
  {
    if recs != [] {
      var init := recs[..|recs| - 1];
      FirstKeysComplete(init);
      forall i | 0 <= i < |init| ensures init[i] == recs[i] {}
    }
  }

  /** The first record of a command. */
  function FirstOf(recs: seq<Record>, h: string): Record
    requires h in FirstKeys(recs)
  {
    var init := recs[..|recs| - 1];
    if h in FirstKeys(init) then FirstOf(init, h) else recs[|recs| - 1]
  }

  lemma {:induction false} FirstOfIs(recs: seq<Record>, h: string)
    requires h in FirstKeys(recs)
    ensures exists i :: 0 <= i < |recs| && recs[i] == FirstOf(recs, h) && recs[i].cmdhash == h &&
                        forall j :: 0 <= j < i ==> recs[j].cmdhash != h
  {
    var init := recs[..|recs| - 1];
    if h in FirstKeys(init) {
      FirstOfIs(init, h);
      var i :| 0 <= i < |init| && init[i] == FirstOf(init, h) && init[i].cmdhash == h &&
               forall j :: 0 <= j < i ==> init[j].cmdhash != h;
      assert recs[i] == init[i] && forall j :: 0 <= j < i ==> recs[j] == init[j];
    } else {
      FirstKeysComplete(init);
      forall j | 0 <= j < |init| ensures recs[j].cmdhash != h {
        assert recs[j] == init[j];
      }
    }
  }

  /** The output names of a command, in log order. */
  function NamesOf(recs: seq<Record>, h: string): seq<string> {
    if recs == [] then []
    else NamesOf(recs[..|recs| - 1], h) +
         if recs[|recs| - 1].cmdhash == h then [recs[|recs| - 1].name] else []
  }

  lemma NamesSnoc(recs: seq<Record>, r: Record, h: string)
    ensures NamesOf(recs + [r], h) == NamesOf(recs, h) + if r.cmdhash == h then [r.name] else []
  {
    assert (recs + [r])[..|recs|] == recs;
  }

  lemma {:induction false} NamesConcat(a: seq<Record>, b: seq<Record>, h: string)
    ensures NamesOf(a + b, h) == NamesOf(a, h) + NamesOf(b, h)
  {
    if b == [] {
      assert a + b == a;
    } else {
      hide NamesOf;
      var init, last := b[..|b| - 1], b[|b| - 1];
      NamesConcat(a, init, h);
      NamesSnoc(a + init, last, h);
      NamesSnoc(init, last, h);
      assert b == init + [last];
      ConcatAssoc(a, init, [last]);
      ConcatAssoc(NamesOf(a, h), NamesOf(init, h), if last.cmdhash == h then [last.name] else []);
    }
  }

  /** The commands are listed as they first appear. */
  lemma {:induction false} FirstKeysInOrder(recs: seq<Record>, i: nat, j: nat) returns (p: nat)
    requires i < j < |FirstKeys(recs)|
    ensures p < |recs| && recs[p].cmdhash == FirstKeys(recs)[i]
    ensures forall q :: 0 <= q <= p ==> recs[q].cmdhash != FirstKeys(recs)[j]
  {
    var init := recs[..|recs| - 1];
    if j < |FirstKeys(init)| {
      p := FirstKeysInOrder(init, i, j);
      assert forall q :: 0 <= q <= p ==> init[q] == recs[q];
    } else {
      FirstKeysComplete(init);
      var h := FirstKeys(init)[i];
      assert h in FirstKeys(init);
      var k :| 0 <= k < |init| && init[k].cmdhash == h;
      p := k;
      assert forall q :: 0 <= q <= p ==> init[q] == recs[q];
    }
  }

  ghost predicate TargetFor(recs: seq<Record>, h: string, t: Target)
    reads t
    requires h in FirstKeys(recs)
  {
    && t.start * 1000.0 == FirstOf(recs, h).start as real
    && t.end * 1000.0 == FirstOf(recs, h).end as real
    && t.targets == NamesOf(recs, h)
  }

  /** One target per command, in order of first appearance, with the command's times and
      all its outputs. */
  ghost predicate Grouped(recs: seq<Record>, entries: seq<Target>)
    reads entries
  {
    && |entries| == |FirstKeys(recs)|
    && forall k :: 0 <= k < |entries| ==> TargetFor(recs, FirstKeys(recs)[k], entries[k])
  }

  ghost function Kept(recs: seq<Record>, showAll: bool): seq<Record> {
    if showAll then recs else Window(recs)
  }

  /** The dictionary of the reader: insertion order and contents. */
  ghost predicate DictFor(w: seq<Record>, keys: seq<string>, dict: map<string, Target>)
    reads dict.Values
  {
    && keys == FirstKeys(w)
    && (forall h :: h in dict <==> h in keys)
    && (forall h :: h in keys ==> TargetFor(w, h, dict[h]))
    && (forall h, h' :: h in keys && h' in keys && dict[h] == dict[h'] ==> h == h')
  }

  lemma GroupStep(w: seq<Record>, r: Record)
    ensures (w + [r])[..|w|] == w
    ensures FirstKeys(w + [r]) == if r.cmdhash in FirstKeys(w) then FirstKeys(w) else FirstKeys(w) + [r.cmdhash]
    ensures forall h :: h in FirstKeys(w) ==> FirstOf(w + [r], h) == FirstOf(w, h)
    ensures r.cmdhash !in FirstKeys(w) ==> FirstOf(w + [r], r.cmdhash) == r
    ensures forall h :: NamesOf(w + [r], h) == NamesOf(w, h) + if r.cmdhash == h then [r.name] else []
  {
    assert (w + [r])[..|w|] == w;
  }

  lemma {:induction false} NoNames(w: seq<Record>, h: string)
    requires h !in FirstKeys(w)
    ensures NamesOf(w, h) == []
  {
    if w != [] {
      NoNames(w[..|w| - 1], h);
    }
  }

  /** Find the target of a command, or create it, and add an output name to it. */
  method AddRecord(ghost w: seq<Record>, keys: seq<string>, dict: map<string, Target>, r: Record)
    returns (keys': seq<string>, dict': map<string, Target>)
    requires DictFor(w, keys, dict)
    modifies dict.Values`targets
    ensures DictFor(w + [r], keys', dict')
    ensures forall h :: h in dict' ==> (h in dict && dict'[h] == dict[h]) || fresh(dict'[h])
  {
    hide FirstKeys, FirstOf, NamesOf;
    GroupStep(w, r);
    keys', dict' := keys, dict;
    if r.cmdhash !in dict {
      NoNames(w, r.cmdhash);
      var target := new Target(Seconds(r.start), Seconds(r.end));
      keys', dict' := keys + [r.cmdhash], dict[r.cmdhash := target];
    }
    var target := dict'[r.cmdhash];
    target.targets := target.targets + [r.name];
  }

  /** The body of the reading loop for a well-formed record: both resets, then the grouping. */
  method TakeRecord(ghost w: seq<Record>, keys: seq<string>, dict: map<string, Target>,
                    lastEndSeen: real, r: Record, showAll: bool)
    returns (ghost w': seq<Record>, keys': seq<string>, dict': map<string, Target>)
    requires DictFor(w, keys, dict)
    requires w != [] ==> lastEndSeen == Seconds(w[|w| - 1].end)
    modifies dict.Values`targets
    ensures w' == if showAll || Fits(w, r) then w + [r] else [r]
    ensures DictFor(w', keys', dict')
    ensures forall h :: h in dict' ==> (h in dict && dict'[h] == dict[h]) || fresh(dict'[h])
  {
    hide FirstOf, NamesOf;
    var start, end := Seconds(r.start), Seconds(r.end);
    w', keys', dict' := w, keys, dict;
    if !showAll && end < lastEndSeen {
      w', keys', dict' := [], [], map[];
    }
    if r.cmdhash in dict' {
      var target := dict'[r.cmdhash];
      if !showAll && (target.start != start || target.end != end) {
        w', keys', dict' := [], [], map[];
      }
    }
    keys', dict' := AddRecord(w', keys', dict', r);
    w' := w' + [r];
  }

  ghost predicate ReaderInv(recs: seq<Record>, showAll: bool, keys: seq<string>,
                            dict: map<string, Target>, lastEndSeen: real)
    reads dict.Values
  {
    var w := Kept(recs, showAll);
    && DictFor(w, keys, dict)
    && (w != [] ==> lastEndSeen == Seconds(w[|w| - 1].end))
  }

  /** One turn of the reading loop. */
  method TakeLine(lines: seq<Line>, n: nat, showAll: bool,
                  keys: seq<string>, dict: map<string, Target>, lastEndSeen: real)
    returns (keys': seq<string>, dict': map<string, Target>, lastEndSeen': real)
    requires n < |lines| && ReaderInv(Records(lines[..n]), showAll, keys, dict, lastEndSeen)
    modifies dict.Values`targets
    ensures ReaderInv(Records(lines[..n + 1]), showAll, keys', dict', lastEndSeen')
    ensures forall h :: h in dict' ==> (h in dict && dict'[h] == dict[h]) || fresh(dict'[h])
  {
    hide Consistent, Window, Fits, Records, DictFor, Seconds;
    RecordsStep(lines, n);
    keys', dict', lastEndSeen' := keys, dict, lastEndSeen;
    if lines[n].Wellformed? {
      var r := lines[n].record;
      ghost var recs := Records(lines[..n]);
      WindowStep(recs, r);
      ghost var w;
      w, keys', dict' := TakeRecord(Kept(recs, showAll), keys, dict, lastEndSeen, r, showAll);
      assert w == Kept(recs + [r], showAll);
      lastEndSeen' := Seconds(r.end);
    }
  }

  /** ReadTargets: the grouping of the kept records, one fresh target per command. */
  method ReadTargets(lines: seq<Line>, showAll: bool) returns (entries: seq<Target>)
    ensures forall t :: t in entries ==> fresh(t)
    ensures Distinct(entries)
    ensures Grouped(Kept(Records(lines), showAll), entries)
  {
    hide DictFor, Grouped, Distinct, Kept, Records;
    var keys: seq<string>, dict: map<string, Target> := [], map[];
    var lastEndSeen := 0.0;
    NothingKept(showAll, dict);
    for n := 0 to |lines|
      invariant forall h :: h in dict ==> fresh(dict[h])
      invariant ReaderInv(Records(lines[..n]), showAll, keys, dict, lastEndSeen)
    {
      keys, dict, lastEndSeen := TakeLine(lines, n, showAll, keys, dict, lastEndSeen);
    }
    assert lines[..|lines|] == lines;
    entries := Values(Kept(Records(lines), showAll), keys, dict);
  }

  lemma RecordsStep(lines: seq<Line>, n: nat)
    requires n < |lines|
    ensures lines[n].Malformed? ==> Records(lines[..n + 1]) == Records(lines[..n])
    ensures lines[n].Wellformed? ==> Records(lines[..n + 1]) == Records(lines[..n]) + [lines[n].record]
  {
    assert lines[..n + 1][..n] == lines[..n];
  }

  lemma NothingKept(showAll: bool, dict: map<string, Target>)
    requires dict == map[]
    ensures Records([]) == [] && Kept([], showAll) == [] && FirstKeys([]) == []
    ensures DictFor([], [], dict)
  {
  }

  /** list(targets_dict.values()) */
  method Values(ghost w: seq<Record>, keys: seq<string>, dict: map<string, Target>) returns (entries: seq<Target>)
    requires DictFor(w, keys, dict)
    ensures forall t :: t in entries ==> exists h :: h in dict && dict[h] == t
    ensures Distinct(entries)
    ensures Grouped(w, entries)
  {
    hide FirstOf, NamesOf;
    entries := seq(|keys|, k requires 0 <= k < |keys| && keys[k] in dict => dict[keys[k]]);
  }

  lemma ForwardRecords(w: seq<Record>, entries: seq<Target>)
    requires Consistent(w) && Grouped(w, entries)
    ensures entries == [] <==> w == []
    ensures AllForward(entries) <==> forall i :: 0 <= i < |w| ==> w[i].start <= w[i].end
  {
    hide FirstKeys, FirstOf, NamesOf;
    var keys := FirstKeys(w);
    FirstKeysComplete(w);
    NothingKept(true, map[]);
    if AllForward(entries) {
      forall i | 0 <= i < |w| ensures w[i].start <= w[i].end {
        SameAsFirst(w, i);
        var k :| 0 <= k < |keys| && keys[k] == w[i].cmdhash;
        assert TargetFor(w, keys[k], entries[k]);
        assert entries[k] in entries;
      }
    }
    if forall i :: 0 <= i < |w| ==> w[i].start <= w[i].end {
      forall t | t in entries ensures t.start <= t.end {
        var k :| 0 <= k < |entries| && entries[k] == t;
        FirstOfIs(w, keys[k]);
        assert TargetFor(w, keys[k], entries[k]);
      }
    }
    assert w != [] ==> w[0].cmdhash in keys;
  }

  /** The program: read the last build of the log and summarize it.  It succeeds exactly when
      that build has a record and none of its records ends before it starts. */
  method Report(lines: seq<Line>) returns (entries: seq<Target>, r: Result<Summary>)
    ensures r.Ok? <==> Records(lines) != [] &&
                       forall rec :: rec in Window(Records(lines)) ==> rec.start <= rec.end
    ensures Grouped(Window(Records(lines)), entries)
    ensures r.Ok? ==> forall t :: t in entries ==>
              t.weightedDuration == Weighted(SpansOf(entries), SpanOf(t))
    ensures r.Ok? ==> r.value.weightedTotal == BusyTime(SpansOf(entries))
    ensures r.Ok? ==> r.value.totalCpuTime == TotalLength(SpansOf(entries))
    ensures r.Ok? ==>
              (Extent(SpansOf(entries), r.value.earliest, r.value.latest) <==>
               EarliestFound(entries) && exists t :: t in entries && t.end >= 0.0)
  {
    hide Consistent, FirstKeys, FirstOf, NamesOf, Window, Records, Weighted, BusyTime, Distinct, Extent;
    hide TotalLength, EarliestFound;
    WindowIsBuild(Records(lines));
    ghost var w := Window(Records(lines));
    entries := ReadTargets(lines, false);
    ForwardRecords(w, entries);
    r := SummarizeEntries(entries);
    assert forall i :: 0 <= i < |w| ==> w[i] in w;
  }
}
