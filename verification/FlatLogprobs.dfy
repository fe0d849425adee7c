/** Flattened log-probabilities (vllm/logprobs.py).

    FlatLogprobs stores the dictionaries of all positions in four parallel lists, with a start
    and an end index per position.  It must read like a plain list of dictionaries.  A Python
    dictionary is modelled with its insertion order, as a sequence of entries with distinct
    keys. */
module FlatLogprobs {
  import opened Common

  datatype Result<T> = Ok(value: T) | IndexError

  datatype Logprob = Logprob(logprob: real, rank: Option<int>, decodedToken: Option<string>)

  datatype Entry = Entry(token: int, info: Logprob)

  type Dict = seq<Entry>

  // ----- dictionaries

  ghost predicate IsDict(d: Dict) {
    forall i, j :: 0 <= i < j < |d| ==> d[i].token != d[j].token
  }

  /** d[e.token] = e.info: a known key keeps its place, a new one goes to the end. */
  function Put(d: Dict, e: Entry): Dict {
    if d == [] then [e]
    else if d[0].token == e.token then [e] + d[1..]
    else [d[0]] + Put(d[1..], e)
  }

  /** The dictionary built from entries inserted in order. */
  function DictOf(entries: seq<Entry>): Dict {
    if entries == [] then []
    else Put(DictOf(entries[..|entries| - 1]), entries[|entries| - 1])
  }

  lemma {:induction false} PutIs(d: Dict, e: Entry)
    requires IsDict(d)
    ensures IsDict(Put(d, e))
    ensures forall x :: x in Put(d, e) <==> x == e || (x in d && x.token != e.token)
  {
    if d != [] {
      var rest := d[1..];
      assert d == [d[0]] + rest;
      forall x | x in rest ensures x.token != d[0].token {
        var k :| 0 <= k < |rest| && rest[k] == x;
        assert d[k + 1] == x;
      }
      if d[0].token != e.token {
        PutIs(rest, e);
      } else {
      }
    }
  }

  /** A known key keeps its place. */
  lemma {:induction false} PutKnown(d: Dict, e: Entry, i: nat)
    requires IsDict(d) && i < |d| && d[i].token == e.token
    ensures Put(d, e) == d[i := e]
  {
    if i > 0 {
      assert d[0].token != d[i].token;
      PutKnown(d[1..], e, i - 1);
      assert d[i := e] == [d[0]] + d[1..][i - 1 := e];
    } else {
      assert d[0 := e] == [e] + d[1..];
    }
  }

  lemma {:induction false} PutNew(d: Dict, e: Entry)
    requires IsDict(d + [e])
    ensures Put(d, e) == d + [e]
  {
    if d != [] {
      var s, rest := d + [e], d[1..];
      assert s[0].token != s[|d|].token;
      assert s[1..] == rest + [e];
      forall i, j | 0 <= i < j < |s[1..]| ensures s[1..][i].token != s[1..][j].token {
        assert s[i + 1].token != s[j + 1].token;
      }
      PutNew(rest, e);
    }
  }

  /** The last entry for a token is the one the dictionary holds. */
  ghost predicate LastFor(entries: seq<Entry>, e: Entry) {
    exists i :: 0 <= i < |entries| && entries[i] == e &&
                forall j :: i < j < |entries| ==> entries[j].token != e.token
  }

  lemma {:induction false} DictOfIs(entries: seq<Entry>)
    ensures IsDict(DictOf(entries))
    ensures forall e :: e in DictOf(entries) <==> LastFor(entries, e)
  {
    if entries != [] {
      var init, last := entries[..|entries| - 1], entries[|entries| - 1];
      DictOfIs(init);
      PutIs(DictOf(init), last);
      forall e ensures LastFor(entries, e) <==> e == last || (LastFor(init, e) && e.token != last.token) {
        LastForSnoc(init, last, e);
        assert entries == init + [last];
      }
    }
  }

  lemma LastForSnoc(init: seq<Entry>, last: Entry, e: Entry)
    ensures LastFor(init + [last], e) <==> e == last || (LastFor(init, e) && e.token != last.token)
  {
    var entries := init + [last];
    assert entries[|init|] == last;
    if LastFor(entries, e) && e != last {
      var i :| 0 <= i < |entries| && entries[i] == e && forall j :: i < j < |entries| ==> entries[j].token != e.token;
      assert i < |init| && init[i] == e && forall j :: i < j < |init| ==> entries[j] == init[j];
    }
    if LastFor(init, e) && e.token != last.token {
      var i :| 0 <= i < |init| && init[i] == e && forall j :: i < j < |init| ==> init[j].token != e.token;
      assert entries[i] == e && forall j :: i < j < |init| ==> entries[j] == init[j];
    }
  }

  /** Reading back the entries of a dictionary gives that dictionary, order included. */
  lemma {:induction false} DictOfDict(d: Dict)
    requires IsDict(d)
    ensures DictOf(d) == d
  {
    if d != [] {
      var init, last := d[..|d| - 1], d[|d| - 1];
      DictOfDict(init);
      PutNew(init, last);
      assert d == init + [last];
    }
  }

  // ----- the flat structure as a value

  datatype Flat = Flat(startIndices: seq<int>, endIndices: seq<int>,
                       tokenIds: seq<int>, logprobs: seq<real>,
                       ranks: seq<Option<int>>, decodedTokens: seq<Option<string>>)

  ghost predicate SameLengths(f: Flat) {
    |f.tokenIds| == |f.logprobs| == |f.ranks| == |f.decodedTokens|
  }

  /** The index invariant: each position has its own range, and the ranges are in order. */
  ghost predicate Valid(f: Flat) {
    && SameLengths(f)
    && |f.startIndices| == |f.endIndices|
    && (forall p :: 0 <= p < |f.startIndices| ==> 0 <= f.startIndices[p] <= f.endIndices[p] <= |f.logprobs|)
    && (forall p, q :: 0 <= p < q < |f.startIndices| ==> f.endIndices[p] <= f.startIndices[q])
  }

  function RowAt(f: Flat, i: nat): Entry
    requires i < |f.tokenIds| && i < |f.logprobs| && i < |f.ranks| && i < |f.decodedTokens|
  {
    Entry(f.tokenIds[i], Logprob(f.logprobs[i], f.ranks[i], f.decodedTokens[i]))
  }

  function Rows(f: Flat): (rows: seq<Entry>)
    requires SameLengths(f)
    ensures |rows| == |f.logprobs| && forall i :: 0 <= i < |rows| ==> rows[i] == RowAt(f, i)
  {
    seq(|f.logprobs|, i requires 0 <= i < |f.logprobs| => RowAt(f, i))
  }

  ghost function Range(f: Flat, p: nat): seq<Entry>
    requires Valid(f) && p < |f.startIndices|
  {
    Rows(f)[f.startIndices[p]..f.endIndices[p]]
  }

  /** The list of dictionaries that the flat structure stands for. */
  ghost function Contents(f: Flat): (c: seq<Dict>)
    requires Valid(f)
    ensures |c| == |f.startIndices|
    ensures forall p :: 0 <= p < |c| ==> c[p] == DictOf(Range(f, p))
  {
    seq(|f.startIndices|, p requires 0 <= p < |f.startIndices| => DictOf(Range(f, p)))
  }

  // ----- appending

  function Tokens(rows: seq<Entry>): seq<int> {
    seq(|rows|, i requires 0 <= i < |rows| => rows[i].token)
  }

  function Logprobs(rows: seq<Entry>): seq<real> {
    seq(|rows|, i requires 0 <= i < |rows| => rows[i].info.logprob)
  }

  function Ranks(rows: seq<Entry>): seq<Option<int>> {
    seq(|rows|, i requires 0 <= i < |rows| => rows[i].info.rank)
  }

  function DecodedTokens(rows: seq<Entry>): seq<Option<string>> {
    seq(|rows|, i requires 0 <= i < |rows| => rows[i].info.decodedToken)
  }

  /** One more position, holding the given rows. */
  function AppendRows(f: Flat, rows: seq<Entry>): Flat {
    var n := |f.logprobs|;
    Flat(f.startIndices + [n], f.endIndices + [n + |rows|],
         f.tokenIds + Tokens(rows), f.logprobs + Logprobs(rows),
         f.ranks + Ranks(rows), f.decodedTokens + DecodedTokens(rows))
  }

  /** Appending a position adds the dictionary of its rows and changes no other position. */
  lemma AppendRowsContents(f: Flat, rows: seq<Entry>)
    requires Valid(f)
    ensures Valid(AppendRows(f, rows))
    ensures Contents(AppendRows(f, rows)) == Contents(f) + [DictOf(rows)]
  {
    hide DictOf;
    var g := AppendRows(f, rows);
    AppendRowsAre(f, rows);
    hide Rows;
    forall p | 0 <= p < |f.startIndices| ensures Range(g, p) == Range(f, p) {
      assert f.endIndices[p] <= |Rows(f)|;
    }
    assert Range(g, |f.startIndices|) == rows;
  }

  lemma AppendRowsAre(f: Flat, rows: seq<Entry>)
    requires Valid(f)
    ensures Valid(AppendRows(f, rows)) && Rows(AppendRows(f, rows)) == Rows(f) + rows
  {
  }

  // ----- reading

  /** Python list indexing: a negative index counts from the end. */
  function PyIndex(n: nat, i: int): Option<nat> {
    if 0 <= i < n then Some(i) else if i < 0 <= n + i then Some(n + i) else None
  }

  /** self[position]: every index from start to end is looked up in the lists. */
  function Read(f: Flat, p: nat): Result<Dict>
    requires SameLengths(f) && p < |f.startIndices| && p < |f.endIndices|
  {
    var lo, hi, n := f.startIndices[p], f.endIndices[p], |f.logprobs|;
    if hi <= lo then Ok([])
    else if n + lo < 0 || n < hi then IndexError
    else Ok(DictOf(RowsAt(f, lo, hi)))
  }

  function RowsAt(f: Flat, lo: int, hi: int): (rows: seq<Entry>)
    requires SameLengths(f) && 0 <= |f.logprobs| + lo && lo <= hi <= |f.logprobs|
    ensures |rows| == hi - lo
    ensures forall k :: 0 <= k < |rows| ==> rows[k] == RowAt(f, PyIndex(|f.logprobs|, lo + k).value)
  {
    seq(hi - lo, k requires 0 <= k < hi - lo => RowAt(f, PyIndex(|f.logprobs|, lo + k).value))
  }

  /** On a valid structure every position reads back as its dictionary. */
  lemma ReadIsContents(f: Flat, p: nat)
    requires Valid(f) && p < |f.startIndices|
    ensures Read(f, p) == Ok(Contents(f)[p])
  {
    var lo, hi, n := f.startIndices[p], f.endIndices[p], |f.logprobs|;
    if lo < hi {
      assert RowsAt(f, lo, hi) == Range(f, p);
    } else {
      assert Range(f, p) == [];
    }
  }

  // ----- slicing

  /** s[lo:hi] for indices inside the list. */
  function PySlice<T>(s: seq<T>, lo: int, hi: int): seq<T>
    requires 0 <= lo <= |s| && 0 <= hi <= |s|
  {
    if lo < hi then s[lo..hi] else []
  }

  /** self[slice], when the slice selects the positions idx. */
  function Slice(f: Flat, idx: seq<nat>): Flat
    requires Valid(f) && idx != [] && forall k :: 0 <= k < |idx| ==> idx[k] < |f.startIndices|
  {
    var lo, hi := f.startIndices[idx[0]], f.endIndices[idx[|idx| - 1]];
    Flat(seq(|idx|, k requires 0 <= k < |idx| => f.startIndices[idx[k]] - lo),
         seq(|idx|, k requires 0 <= k < |idx| => f.endIndices[idx[k]] - lo),
         PySlice(f.tokenIds, lo, hi), PySlice(f.logprobs, lo, hi),
         PySlice(f.ranks, lo, hi), PySlice(f.decodedTokens, lo, hi))
  }

  ghost predicate Selects(f: Flat, idx: seq<nat>)
    requires Valid(f)
  {
    idx != [] && forall k :: 0 <= k < |idx| ==> idx[k] < |f.startIndices|
  }

  ghost predicate Increasing(idx: seq<nat>) {
    forall i, j :: 0 <= i < j < |idx| ==> idx[i] < idx[j]
  }

  ghost predicate Decreasing(idx: seq<nat>) {
    forall i, j :: 0 <= i < j < |idx| ==> idx[j] < idx[i]
  }

  lemma SliceValid(f: Flat, idx: seq<nat>)
    requires Valid(f) && Selects(f, idx) && Increasing(idx)
    ensures Valid(Slice(f, idx))
  {
    var g, lo := Slice(f, idx), f.startIndices[idx[0]];
    forall p | 0 <= p < |idx| ensures 0 <= g.startIndices[p] <= g.endIndices[p] <= |g.logprobs| {
    }
    forall p, q | 0 <= p < q < |idx| ensures g.endIndices[p] <= g.startIndices[q] {
      assert f.endIndices[idx[p]] <= f.startIndices[idx[q]];
    }
  }

  /** A slice with a positive step holds exactly the selected positions. */
  lemma SliceContents(f: Flat, idx: seq<nat>)
    requires Valid(f) && Selects(f, idx) && Increasing(idx)
    ensures Valid(Slice(f, idx))
    ensures |Contents(Slice(f, idx))| == |idx|
    ensures forall k :: 0 <= k < |idx| ==> Contents(Slice(f, idx))[k] == Contents(f)[idx[k]]
  {
    hide Range, DictOf;
    SliceValid(f, idx);
    forall k | 0 <= k < |idx| ensures Range(Slice(f, idx), k) == Range(f, idx[k]) {
      SliceRange(f, idx, k);
    }
  }

  lemma SliceRange(f: Flat, idx: seq<nat>, k: nat)
    requires Valid(f) && Selects(f, idx) && Increasing(idx) && Valid(Slice(f, idx)) && k < |idx|
    ensures Range(Slice(f, idx), k) == Range(f, idx[k])
  {
    hide Rows;
    var lo, hi := f.startIndices[idx[0]], f.endIndices[idx[|idx| - 1]];
    SliceRows(f, idx);
    SubSlice(Rows(f), lo, hi, f.startIndices[idx[k]], f.endIndices[idx[k]]);
  }

  lemma SliceRows(f: Flat, idx: seq<nat>)
    requires Valid(f) && Selects(f, idx) && SameLengths(Slice(f, idx))
    requires f.startIndices[idx[0]] <= f.endIndices[idx[|idx| - 1]]
    ensures Rows(Slice(f, idx)) == Rows(f)[f.startIndices[idx[0]]..f.endIndices[idx[|idx| - 1]]]
  {
    var g, lo, hi := Slice(f, idx), f.startIndices[idx[0]], f.endIndices[idx[|idx| - 1]];
    assert |g.logprobs| == hi - lo;
    var part := Rows(f)[lo..hi];
    forall k | 0 <= k < hi - lo ensures Rows(g)[k] == part[k] {
      assert g.tokenIds[k] == f.tokenIds[lo + k] && g.logprobs[k] == f.logprobs[lo + k];
      assert g.ranks[k] == f.ranks[lo + k] && g.decodedTokens[k] == f.decodedTokens[lo + k];
    }
    assert Rows(g) == part;
  }

  lemma SubSlice<T>(s: seq<T>, lo: int, hi: int, a: int, b: int)
    requires 0 <= lo <= a <= b <= hi <= |s|
    ensures s[lo..hi][a - lo..b - lo] == s[a..b]
  {
    var part := s[lo..hi];
    forall k | 0 <= k < b - a ensures part[a - lo..b - lo][k] == s[a..b][k] {
      assert part[a - lo + k] == s[a + k];
    }
    assert part[a - lo..b - lo] == s[a..b];
  }

  /** A slice with a negative step over two or more positions reads back right exactly when
      none of the selected positions has an entry: the lists it takes along are empty. */
  lemma BackwardSlice(f: Flat, idx: seq<nat>)
    requires Valid(f) && Selects(f, idx) && Decreasing(idx) && |idx| > 1
    ensures SameLengths(Slice(f, idx))
    ensures (forall k :: 0 <= k < |idx| ==> Read(Slice(f, idx), k) == Ok(Contents(f)[idx[k]])) <==>
            (forall k :: 0 <= k < |idx| ==> f.startIndices[idx[k]] == f.endIndices[idx[k]])
  {
    var g := Slice(f, idx);
    assert idx[|idx| - 1] < idx[0];
    assert f.endIndices[idx[|idx| - 1]] <= f.startIndices[idx[0]];
    assert g.logprobs == [];
    forall k | 0 <= k < |idx|
      ensures Read(g, k) == if f.startIndices[idx[k]] == f.endIndices[idx[k]] then Ok([]) else IndexError
      ensures f.startIndices[idx[k]] == f.endIndices[idx[k]] ==> Contents(f)[idx[k]] == []
    {
      assert g.endIndices[k] - g.startIndices[k] == f.endIndices[idx[k]] - f.startIndices[idx[k]];
      assert f.startIndices[idx[k]] == f.endIndices[idx[k]] ==> Range(f, idx[k]) == [];
    }
  }

  // ----- whole runs

  datatype Op =
    | Append(position: Option<Dict>)
    | AppendFast(rows: seq<Entry>)
    | Extend(positions: seq<Option<Dict>>)
    | TakeSlice(idx: seq<nat>)

  /** None reads back as the empty dictionary. */
  function Readable(d: Option<Dict>): Dict {
    if d.None? then [] else d.value
  }

  function Readables(ds: seq<Option<Dict>>): seq<Dict> {
    seq(|ds|, p requires 0 <= p < |ds| => Readable(ds[p]))
  }

  function ExtendFlat(f: Flat, ds: seq<Option<Dict>>): Flat {
    if ds == [] then f else AppendRows(ExtendFlat(f, ds[..|ds| - 1]), Readable(ds[|ds| - 1]))
  }

  /** What the flat structure becomes. */
  ghost predicate FlatStep(f: Flat, op: Op, g: Flat) {
    match op
    case Append(d) => g == AppendRows(f, Readable(d))
    case AppendFast(rows) => g == AppendRows(f, rows)
    case Extend(ds) => g == ExtendFlat(f, ds)
    case TakeSlice(idx) => Valid(f) && Selects(f, idx) && Increasing(idx) && g == Slice(f, idx)
  }

  /** What a plain list of dictionaries becomes under the same operation. */
  ghost predicate ListStep(l: seq<Option<Dict>>, op: Op, m: seq<Option<Dict>>) {
    match op
    case Append(d) => m == l + [d]
    case AppendFast(rows) => m == l + [Some(DictOf(rows))]
    case Extend(ds) => m == l + ds
    case TakeSlice(idx) =>
      |m| == |idx| && forall k :: 0 <= k < |idx| ==> idx[k] < |l| && m[k] == l[idx[k]]
  }

  ghost predicate ProperDicts(op: Op) {
    match op
    case Append(d) => IsDict(Readable(d))
    case AppendFast(_) => true
    case Extend(ds) => forall k :: 0 <= k < |ds| ==> IsDict(Readable(ds[k]))
    case TakeSlice(_) => true
  }

  /** The flat structure stands for the list. */
  ghost predicate Represents(f: Flat, l: seq<Option<Dict>>) {
    && Valid(f)
    && |f.startIndices| == |l|
    && forall p :: 0 <= p < |l| ==> Contents(f)[p] == Readable(l[p])
  }

  lemma {:induction false} ExtendRepresents(f: Flat, l: seq<Option<Dict>>, ds: seq<Option<Dict>>)
    requires Represents(f, l) && forall k :: 0 <= k < |ds| ==> IsDict(Readable(ds[k]))
    ensures Represents(ExtendFlat(f, ds), l + ds)
  {
    hide Represents, AppendRows, IsDict;
    if ds == [] {
      assert l + ds == l;
    } else {
      var init, d := ds[..|ds| - 1], ds[|ds| - 1];
      ExtendRepresents(f, l, init);
      AppendRepresents(ExtendFlat(f, init), l + init, Readable(d), d);
      assert l + ds == (l + init) + [d];
    }
  }

  lemma AppendRepresents(f: Flat, l: seq<Option<Dict>>, rows: seq<Entry>, d: Option<Dict>)
    requires Represents(f, l) && ((rows == Readable(d) && IsDict(rows)) || d == Some(DictOf(rows)))
    ensures Represents(AppendRows(f, rows), l + [d])
  {
    AppendRowsContents(f, rows);
    if rows == Readable(d) && IsDict(rows) {
      DictOfDict(rows);
    }
  }

  lemma StepRepresents(f: Flat, l: seq<Option<Dict>>, op: Op, g: Flat, m: seq<Option<Dict>>)
    requires Represents(f, l) && ProperDicts(op) && FlatStep(f, op, g) && ListStep(l, op, m)
    ensures Represents(g, m)
  {
    hide AppendRows, ExtendFlat, Slice, DictOf;
    match op
    case Append(d) => AppendRepresents(f, l, Readable(d), d);
    case AppendFast(rows) => AppendRepresents(f, l, rows, Some(DictOf(rows)));
    case Extend(ds) => ExtendRepresents(f, l, ds);
    case TakeSlice(idx) => SliceContents(f, idx);
  }

  ghost predicate Run(ops: seq<Op>, fs: seq<Flat>, ls: seq<seq<Option<Dict>>>) {
    && |fs| == |ls| == |ops| + 1
    && fs[0] == Flat([], [], [], [], [], []) && ls[0] == []
    && forall i :: 0 <= i < |ops| ==>
         ProperDicts(ops[i]) && FlatStep(fs[i], ops[i], fs[i + 1]) && ListStep(ls[i], ops[i], ls[i + 1])
  }

  /** Over every run of appends, fast appends, extends and positive-step slices, the flat
      structure reads exactly as the plain list does. */
  lemma {:induction false} RunRepresents(ops: seq<Op>, fs: seq<Flat>, ls: seq<seq<Option<Dict>>>, i: nat)
    requires Run(ops, fs, ls) && i <= |ops|
    ensures Represents(fs[i], ls[i])
  {
    hide FlatStep, ListStep, ProperDicts;
    if i > 0 {
      RunRepresents(ops, fs, ls, i - 1);
      assert FlatStep(fs[i - 1], ops[i - 1], fs[i - 1 + 1]);
      StepRepresents(fs[i - 1], ls[i - 1], ops[i - 1], fs[i], ls[i]);
    }
  }

  // ----- the classes

  /** zip of four sequences: as long as the shortest. */
  function Zip(tokenIds: seq<int>, logprobs: seq<real>, ranks: seq<int>, decoded: seq<Option<string>>): seq<Entry> {
    var n := Min(Min(|tokenIds|, |logprobs|), Min(|ranks|, |decoded|));
    seq(n, i requires 0 <= i < n => Entry(tokenIds[i], Logprob(logprobs[i], Some(ranks[i]), decoded[i])))
  }

  function Min(a: nat, b: nat): nat { if a < b then a else b }

  class FlatLogprobs {
    var startIndices: seq<int>
    var endIndices: seq<int>
    var tokenIds: seq<int>
    var logprobs: seq<real>
    var ranks: seq<Option<int>>
    var decodedTokens: seq<Option<string>>

    function State(): Flat
      reads this
    {
      Flat(startIndices, endIndices, tokenIds, logprobs, ranks, decodedTokens)
    }

    constructor ()
      ensures State() == Flat([], [], [], [], [], [])
    {
      startIndices, endIndices, tokenIds, logprobs, ranks, decodedTokens := [], [], [], [], [], [];
    }

    /** append: an absent or empty dictionary adds an empty position. */
    method Append(position: Option<Dict>)
      modifies this
      ensures State() == AppendRows(old(State()), Readable(position))
    {
      var rows := Readable(position);
      AddRows(rows);
    }

    /** The common shape of append and append_fast: open the position, add its rows, close it. */
    method AddRows(rows: seq<Entry>)
      modifies this
      ensures State() == AppendRows(old(State()), rows)
    {
      startIndices := startIndices + [|logprobs|];
      ghost var f := old(State());
      for i := 0 to |rows|
        invariant startIndices == f.startIndices + [|f.logprobs|] && endIndices == f.endIndices
        invariant tokenIds == f.tokenIds + Tokens(rows[..i]) && logprobs == f.logprobs + Logprobs(rows[..i])
        invariant ranks == f.ranks + Ranks(rows[..i]) && decodedTokens == f.decodedTokens + DecodedTokens(rows[..i])
      {
        assert rows[..i + 1] == rows[..i] + [rows[i]];
        tokenIds := tokenIds + [rows[i].token];
        logprobs := logprobs + [rows[i].info.logprob];
        ranks := ranks + [rows[i].info.rank];
        decodedTokens := decodedTokens + [rows[i].info.decodedToken];
      }
      assert rows[..|rows|] == rows;
      endIndices := endIndices + [|logprobs|];
    }

    /** append_fast: no intermediate dictionary is built. */
    method AppendFast(tokens: seq<int>, probs: seq<real>, rankList: seq<int>, decoded: seq<Option<string>>)
      modifies this
      ensures State() == AppendRows(old(State()), Zip(tokens, probs, rankList, decoded))
    {
      AddRows(Zip(tokens, probs, rankList, decoded));
    }

    method Extend(positions: seq<Option<Dict>>)
      modifies this
      ensures State() == ExtendFlat(old(State()), positions)
    {
      for i := 0 to |positions|
        invariant State() == ExtendFlat(old(State()), positions[..i])
      {
        assert positions[..i + 1][..i] == positions[..i];
        Append(positions[i]);
      }
      assert positions[..|positions|] == positions;
    }

    /** self[position], with Python's negative indices. */
    method GetItem(position: int) returns (r: Result<Dict>)
      requires Valid(State())
      ensures r.Ok? <==> -|startIndices| <= position < |startIndices|
      ensures r.Ok? ==> r.value == Contents(State())[if position < 0 then |startIndices| + position else position]
    {
      var p := PyIndex(|startIndices|, position);
      if p.None? {
        return IndexError;
      }
      ReadIsContents(State(), p.value);
      return Read(State(), p.value);
    }

    /** self[slice]: an empty selection fails at line 122. */
    method GetSlice(idx: seq<nat>) returns (r: Result<FlatLogprobs>)
      requires Valid(State()) && forall k :: 0 <= k < |idx| ==> idx[k] < |startIndices|
      ensures r.Ok? <==> idx != []
      ensures r.Ok? ==> fresh(r.value) && r.value.State() == Slice(State(), idx)
      ensures r.Ok? && Increasing(idx) ==>
                && Valid(r.value.State()) && |Contents(r.value.State())| == |idx|
                && forall k :: 0 <= k < |idx| ==> Contents(r.value.State())[k] == Contents(State())[idx[k]]
    {
      hide Contents, Valid, Slice;
      if idx == [] {
        return IndexError;
      }
      var g := Slice(State(), idx);
      if Increasing(idx) {
        SliceContents(State(), idx);
      }
      var s := new FlatLogprobs();
      s.startIndices, s.endIndices := g.startIndices, g.endIndices;
      s.tokenIds, s.logprobs, s.ranks, s.decodedTokens := g.tokenIds, g.logprobs, g.ranks, g.decodedTokens;
      return Ok(s);
    }

    /** Iteration yields every position in order. */
    method Iterate() returns (all: seq<Dict>)
      requires Valid(State())
      ensures all == Contents(State())
    {
      all := [];
      for i := 0 to |startIndices|
        invariant all == Contents(State())[..i]
      {
        var d := GetItem(i);
        all := all + [d.value];
      }
    }
  }

  /** The plain container. */
  class ListLogprobs {
    var positions: seq<Option<Dict>>

    constructor ()
      ensures positions == []
    {
      positions := [];
    }
  }

  datatype Container = FlatOf(flat: FlatLogprobs) | ListOf(list: ListLogprobs)

  ghost predicate ContainerValid(c: Container)
    reads if c.FlatOf? then {c.flat as object} else {c.list as object}
  {
    c.FlatOf? ==> Valid(c.flat.State())
  }

  /** What a reader of the container sees. */
  ghost function Seen(c: Container): seq<Dict>
    reads if c.FlatOf? then {c.flat as object} else {c.list as object}
    requires ContainerValid(c)
  {
    if c.FlatOf? then Contents(c.flat.State())
    else Readables(c.list.positions)
  }

  /** The ranks of a position: the sampled token's rank, then 1, 2, ..., num. */
  function RankChain(rank: int, num: int): seq<int> {
    [rank] + seq(if num < 0 then 0 else num, i => i + 1)
  }

  /** The rows of a position: the given lists side by side as far as all of them reach, with the
      sampled token's rank first and the others ranked 1, 2, ..., num. */
  ghost predicate IsPosition(rows: seq<Entry>, tokenIds: seq<int>, logprobs: seq<real>, decoded: seq<Option<string>>,
                             rank: int, num: int)
  {
    && |rows| <= |tokenIds| && |rows| <= |logprobs| && |rows| <= |decoded| && |rows| - 1 <= (if num < 0 then 0 else num)
    && (|rows| in {|tokenIds|, |logprobs|, |decoded|} || |rows| - 1 == if num < 0 then 0 else num)
    && forall i :: 0 <= i < |rows| ==>
         rows[i] == Entry(tokenIds[i], Logprob(logprobs[i], Some(if i == 0 then rank else i), decoded[i]))
  }

  lemma ZipIsPosition(tokenIds: seq<int>, logprobs: seq<real>, decoded: seq<Option<string>>, rank: int, num: int)
    ensures IsPosition(Zip(tokenIds, logprobs, RankChain(rank, num), decoded), tokenIds, logprobs, decoded, rank, num)
  {
  }

  /** append_logprobs_for_next_position: both containers show the same new dictionary, the
      last entry winning when a token is repeated. */
  method AppendLogprobsForNextPosition(c: Container, tokenIds: seq<int>, logprobs: seq<real>,
                                       decoded: seq<Option<string>>, rank: int, numLogprobs: int)
    returns (ghost added: seq<Entry>)
    requires ContainerValid(c)
    modifies if c.FlatOf? then {c.flat as object} else {c.list as object}
    ensures ContainerValid(c)
    ensures IsPosition(added, tokenIds, logprobs, decoded, rank,
                       if numLogprobs == -1 then |logprobs| else numLogprobs)
    ensures Seen(c) == old(Seen(c)) + [DictOf(added)]
  {
    hide DictOf, Zip, RankChain, IsPosition;
    var num := numLogprobs;
    if num == -1 {
      num := |logprobs|;
    }
    var ranks := RankChain(rank, num);
    var rows := Zip(tokenIds, logprobs, ranks, decoded);
    added := rows;
    ZipIsPosition(tokenIds, logprobs, decoded, rank, num);
    match c
    case FlatOf(flat) =>
      AppendRowsContents(flat.State(), rows);
      flat.AppendFast(tokenIds, logprobs, ranks, decoded);
    case ListOf(list) =>
      list.positions := list.positions + [Some(DictOf(rows))];
  }
}
