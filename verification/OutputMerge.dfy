/** Merging streamed outputs (RequestOutput.add in vllm/outputs.py), on values.

    A stream delivers pieces of several completions, told apart by their index.  Merging with
    aggregation must give, for each index, the concatenation of its pieces, however the pieces
    were grouped on the way. */
module OutputMerge {
  import opened Common
  import opened FlatLogprobs

  /** `extras` stands for the fields that merging never touches. */
  datatype Completion = Completion(
    index: int, text: string, tokenIds: seq<int>, cumulativeLogprob: Option<real>,
    logprobs: Option<seq<Dict>>, finishReason: Option<string>, stopReason: Option<string>, extras: string)

  datatype Merged<T> = Done(value: T) | AssertionError

  function LogprobsOf(c: Completion): seq<Dict> {
    if c.logprobs.Some? then c.logprobs.value else []
  }

  /** The assertion of line 165 fails: there are log-probabilities to add and no place for them. */
  predicate Clash(c: Completion, next: Completion) {
    LogprobsOf(next) != [] && c.logprobs.None?
  }

  /** Lines 160-171. */
  function Absorb(c: Completion, next: Completion): Completion {
    c.(text := c.text + next.text,
       tokenIds := c.tokenIds + next.tokenIds,
       logprobs := if LogprobsOf(next) != [] && c.logprobs.Some?
                   then Some(c.logprobs.value + LogprobsOf(next)) else c.logprobs,
       cumulativeLogprob := next.cumulativeLogprob,
       finishReason := next.finishReason,
       stopReason := next.stopReason)
  }

  /** The loop of lines 156-177 for one incoming completion: the first with the same index
      absorbs it or is replaced by it; otherwise it is appended. */
  function MergeOne(outs: seq<Completion>, next: Completion, aggregate: bool): Merged<seq<Completion>> {
    if outs == [] then Done([next])
    else if outs[0].index == next.index then
      if !aggregate then Done([next] + outs[1..])
      else if Clash(outs[0], next) then AssertionError
      else Done([Absorb(outs[0], next)] + outs[1..])
    else
      var r := MergeOne(outs[1..], next, aggregate);
      if r.Done? then Done([outs[0]] + r.value) else AssertionError
  }

  function Merge(outs: seq<Completion>, nexts: seq<Completion>, aggregate: bool): Merged<seq<Completion>> {
    if nexts == [] then Done(outs)
    else
      var r := Merge(outs, nexts[..|nexts| - 1], aggregate);
      if r.Done? then MergeOne(r.value, nexts[|nexts| - 1], aggregate) else r
  }

  // ----- the declarative result

  function Texts(cs: seq<Completion>): string {
    if cs == [] then "" else Texts(cs[..|cs| - 1]) + cs[|cs| - 1].text
  }

  function Tokens(cs: seq<Completion>): seq<int> {
    if cs == [] then [] else Tokens(cs[..|cs| - 1]) + cs[|cs| - 1].tokenIds
  }

  function AllLogprobs(cs: seq<Completion>): seq<Dict> {
    if cs == [] then [] else AllLogprobs(cs[..|cs| - 1]) + LogprobsOf(cs[|cs| - 1])
  }

  /** One completion from its pieces: everything concatenated, the reasons and the cumulative
      log-probability of the last piece, the rest from the first. */
  function Combine(cs: seq<Completion>): Completion
    requires cs != []
  {
    var last := cs[|cs| - 1];
    cs[0].(text := Texts(cs), tokenIds := Tokens(cs),
           logprobs := if cs[0].logprobs.Some? then Some(AllLogprobs(cs)) else None,
           cumulativeLogprob := last.cumulativeLogprob,
           finishReason := last.finishReason, stopReason := last.stopReason)
  }

  /** The indices, in order of first appearance. */
  function Keys(cs: seq<Completion>): seq<int> {
    if cs == [] then []
    else
      var keys, k := Keys(cs[..|cs| - 1]), cs[|cs| - 1].index;
      if k in keys then keys else keys + [k]
  }

  /** The pieces of one index, in stream order. */
  function Select(cs: seq<Completion>, k: int): seq<Completion> {
    if cs == [] then []
    else Select(cs[..|cs| - 1], k) + if cs[|cs| - 1].index == k then [cs[|cs| - 1]] else []
  }

  lemma {:induction false} SelectIs(cs: seq<Completion>, k: int)
    ensures Select(cs, k) != [] <==> k in Keys(cs)
    ensures forall c :: c in Select(cs, k) ==> c.index == k && c in cs
  {
    if cs != [] {
      SelectIs(cs[..|cs| - 1], k);
    }
  }

  /** The outputs that a stream of pieces amounts to. */
  function Aggregate(cs: seq<Completion>): (r: seq<Completion>)
    ensures |r| == |Keys(cs)|
    ensures forall i :: 0 <= i < |r| ==> Select(cs, Keys(cs)[i]) != [] && r[i] == Combine(Select(cs, Keys(cs)[i]))
  {
    var keys := Keys(cs);
    assert forall i :: 0 <= i < |keys| ==> Select(cs, keys[i]) != [] by {
      forall i | 0 <= i < |keys| ensures Select(cs, keys[i]) != [] { SelectIs(cs, keys[i]); }
    }
    seq(|keys|, i requires 0 <= i < |keys| && Select(cs, keys[i]) != [] => Combine(Select(cs, keys[i])))
  }

  /** The piece at i does not bring log-probabilities to an index whose first piece has none. */
  ghost predicate FitsAt(cs: seq<Completion>, i: nat)
    requires i < |cs|
  {
    LogprobsOf(cs[i]) != [] ==>
      Select(cs, cs[i].index) != [] && Select(cs, cs[i].index)[0].logprobs.Some?
  }

  ghost predicate Compatible(cs: seq<Completion>, from: nat := 0) {
    forall i :: from <= i < |cs| ==> FitsAt(cs, i)
  }

  // ----- absorbing one piece

  lemma CombineIndex(cs: seq<Completion>)
    requires cs != []
    ensures Combine(cs).index == cs[0].index && Combine(cs).extras == cs[0].extras
    ensures Combine(cs).logprobs.Some? <==> cs[0].logprobs.Some?
    ensures cs[0].logprobs.Some? ==> LogprobsOf(Combine(cs)) == AllLogprobs(cs)
  {
  }

  lemma CombineSnoc(cs: seq<Completion>, c: Completion)
    requires cs != []
    ensures Combine(cs + [c]) == Absorb(Combine(cs), c)
  {
    var all := cs + [c];
    assert all[..|cs|] == cs;
    assert AllLogprobs(all) == AllLogprobs(cs) + LogprobsOf(c);
    if LogprobsOf(c) == [] {
      assert AllLogprobs(all) == AllLogprobs(cs);
    }
  }

  lemma CombineOne(c: Completion)
    ensures Combine([c]) == c
  {
    SingleFacts(c);
  }

  lemma KeysDistinct(cs: seq<Completion>)
    ensures forall i, j :: 0 <= i < j < |Keys(cs)| ==> Keys(cs)[i] != Keys(cs)[j]
  {
    if cs != [] {
      KeysDistinct(cs[..|cs| - 1]);
    }
  }

  lemma SnocFacts(cs: seq<Completion>, c: Completion)
    ensures Keys(cs + [c]) == if c.index in Keys(cs) then Keys(cs) else Keys(cs) + [c.index]
    ensures forall k :: Select(cs + [c], k) == if c.index == k then Select(cs, k) + [c] else Select(cs, k)
  {
    assert (cs + [c])[..|cs|] == cs;
    forall k ensures Select(cs + [c], k) == if c.index == k then Select(cs, k) + [c] else Select(cs, k) {
      assert Select(cs, k) + [] == Select(cs, k);
    }
  }

  lemma {:induction false} MergeOneAt(outs: seq<Completion>, next: Completion, i: nat)
    requires i < |outs| && outs[i].index == next.index
    requires forall j :: 0 <= j < i ==> outs[j].index != next.index
    ensures MergeOne(outs, next, true) ==
            if Clash(outs[i], next) then AssertionError else Done(outs[i := Absorb(outs[i], next)])
  {
    if i == 0 {
      assert outs[0 := Absorb(outs[0], next)] == [Absorb(outs[0], next)] + outs[1..];
    } else {
      MergeOneAt(outs[1..], next, i - 1);
      assert outs[i := Absorb(outs[i], next)] == [outs[0]] + outs[1..][i - 1 := Absorb(outs[i], next)];
    }
  }

  lemma {:induction false} MergeOneNew(outs: seq<Completion>, next: Completion, aggregate: bool)
    requires forall j :: 0 <= j < |outs| ==> outs[j].index != next.index
    ensures MergeOne(outs, next, aggregate) == Done(outs + [next])
  {
    if outs != [] {
      MergeOneNew(outs[1..], next, aggregate);
      assert outs + [next] == [outs[0]] + (outs[1..] + [next]);
    } else {
      assert outs + [next] == [next];
    }
  }

  lemma AggregateAt(cs: seq<Completion>, i: nat)
    requires i < |Keys(cs)|
    ensures Aggregate(cs)[i].index == Keys(cs)[i]
    ensures Aggregate(cs)[i].logprobs.Some? <==> Select(cs, Keys(cs)[i])[0].logprobs.Some?
  {
    var sel := Select(cs, Keys(cs)[i]);
    SelectIs(cs, Keys(cs)[i]);
    CombineIndex(sel);
    assert sel[0] in sel;
  }

  /** Merging one more piece into the aggregate of a stream is the aggregate of the longer
      stream; it fails exactly on a clash with the first piece of that index. */
  lemma AggregateSnoc(cs: seq<Completion>, c: Completion)
    ensures var clash := LogprobsOf(c) != [] && c.index in Keys(cs) &&
                         Select(cs, c.index) != [] && Select(cs, c.index)[0].logprobs.None?;
            MergeOne(Aggregate(cs), c, true) ==
            if clash then AssertionError else Done(Aggregate(cs + [c]))
  {
    hide Combine, Select, Keys, MergeOne;
    var outs, keys := Aggregate(cs), Keys(cs);
    KeysDistinct(cs);
    SnocFacts(cs, c);
    SelectIs(cs, c.index);
    forall j | 0 <= j < |keys| ensures outs[j].index == keys[j] {
      AggregateAt(cs, j);
    }
    if c.index in keys {
      var i :| 0 <= i < |keys| && keys[i] == c.index;
      AggregateAt(cs, i);
      MergeOneAt(outs, c, i);
      if !Clash(outs[i], c) {
        AggregateGrows(cs, c, i);
      }
    } else {
      MergeOneNew(outs, c, true);
      CombineOne(c);
      assert Select(cs, c.index) == [] && Select(cs + [c], c.index) == [c];
      assert Aggregate(cs + [c]) == outs + [c];
    }
  }

  lemma AggregateGrows(cs: seq<Completion>, c: Completion, i: nat)
    requires i < |Keys(cs)| && Keys(cs)[i] == c.index && !Clash(Aggregate(cs)[i], c)
    ensures Aggregate(cs + [c]) == Aggregate(cs)[i := Absorb(Aggregate(cs)[i], c)]
  {
    hide Combine, Select, Keys;
    KeysDistinct(cs);
    SnocFacts(cs, c);
    CombineSnoc(Select(cs, c.index), c);
    var outs, more := Aggregate(cs), Aggregate(cs + [c]);
    forall j | 0 <= j < |outs| ensures more[j] == if j == i then Absorb(outs[i], c) else outs[j] {
      assert j != i ==> Keys(cs)[j] != c.index;
    }
  }

  // ----- streams

  lemma FitsSnoc(cs: seq<Completion>, c: Completion, from: nat)
    requires from <= |cs|
    ensures Compatible(cs + [c], from) <==> Compatible(cs, from) && FitsAt(cs + [c], |cs|)
  {
    hide Select, Keys;
    var all := cs + [c];
    SnocFacts(cs, c);
    forall i | 0 <= i < |cs| ensures FitsAt(all, i) <==> FitsAt(cs, i) {
      SelectIs(cs, cs[i].index);
      KeysComplete(cs, i);
    }
  }

  lemma {:induction false} KeysComplete(cs: seq<Completion>, i: nat)
    requires i < |cs|
    ensures cs[i].index in Keys(cs)
  {
    if i < |cs| - 1 {
      KeysComplete(cs[..|cs| - 1], i);
    }
  }

  /** Merging a stream of pieces into an aggregate: the exact condition for success, and the
      result. */
  lemma {:induction false} MergeStream(s: seq<Completion>, t: seq<Completion>)
    ensures Merge(Aggregate(s), t, true) ==
            if Compatible(s + t, |s|) then Done(Aggregate(s + t)) else AssertionError
  {
    hide Aggregate, MergeOne, FitsAt;
    if t == [] {
      assert s + t == s;
    } else {
      var init, c := t[..|t| - 1], t[|t| - 1];
      MergeStream(s, init);
      assert s + t == (s + init) + [c];
      FitsSnoc(s + init, c, |s|);
      AggregateSnoc(s + init, c);
      LastFits(s + init, c);
    }
  }

  lemma LastFits(cs: seq<Completion>, c: Completion)
    ensures FitsAt(cs + [c], |cs|) <==>
            !(LogprobsOf(c) != [] && c.index in Keys(cs) && Select(cs, c.index) != [] &&
                Select(cs, c.index)[0].logprobs.None?)
  {
    SnocFacts(cs, c);
    SelectIs(cs, c.index);
  }

  // ----- aggregates of aggregates

  lemma AssocLast<T>(a: seq<T>, b: seq<T>)
    requires b != []
    ensures b == b[..|b| - 1] + [b[|b| - 1]] && a + b == a + b[..|b| - 1] + [b[|b| - 1]]
  {
  }

  lemma TextsSnoc(cs: seq<Completion>, c: Completion)
    ensures Texts(cs + [c]) == Texts(cs) + c.text
  {
    assert (cs + [c])[..|cs|] == cs;
  }

  lemma {:induction false} TextsConcat(a: seq<Completion>, b: seq<Completion>)
    ensures Texts(a + b) == Texts(a) + Texts(b)
  {
    if b == [] {
      assert a + b == a;
    } else {
      hide Texts;
      var init, c := b[..|b| - 1], b[|b| - 1];
      AssocLast(a, b);
      TextsConcat(a, init);
      TextsSnoc(a + init, c);
      TextsSnoc(init, c);
    }
  }

  lemma TokensSnoc(cs: seq<Completion>, c: Completion)
    ensures Tokens(cs + [c]) == Tokens(cs) + c.tokenIds
  {
    assert (cs + [c])[..|cs|] == cs;
  }

  lemma {:induction false} TokensConcat(a: seq<Completion>, b: seq<Completion>)
    ensures Tokens(a + b) == Tokens(a) + Tokens(b)
  {
    if b == [] {
      assert a + b == a;
    } else {
      hide Tokens;
      var init, c := b[..|b| - 1], b[|b| - 1];
      AssocLast(a, b);
      TokensConcat(a, init);
      TokensSnoc(a + init, c);
      TokensSnoc(init, c);
    }
  }

  lemma AllLogprobsSnoc(cs: seq<Completion>, c: Completion)
    ensures AllLogprobs(cs + [c]) == AllLogprobs(cs) + LogprobsOf(c)
  {
    assert (cs + [c])[..|cs|] == cs;
  }

  lemma {:induction false} LogprobsConcat(a: seq<Completion>, b: seq<Completion>)
    ensures AllLogprobs(a + b) == AllLogprobs(a) + AllLogprobs(b)
  {
    if b == [] {
      assert a + b == a;
    } else {
      hide AllLogprobs;
      var init, c := b[..|b| - 1], b[|b| - 1];
      AssocLast(a, b);
      LogprobsConcat(a, init);
      AllLogprobsSnoc(a + init, c);
      AllLogprobsSnoc(init, c);
    }
  }

  lemma ConcatFacts(a: seq<Completion>, b: seq<Completion>)
    ensures Texts(a + b) == Texts(a) + Texts(b)
    ensures Tokens(a + b) == Tokens(a) + Tokens(b)
    ensures AllLogprobs(a + b) == AllLogprobs(a) + AllLogprobs(b)
  {
    TextsConcat(a, b);
    TokensConcat(a, b);
    LogprobsConcat(a, b);
  }

  lemma {:induction false} SelectConcat(a: seq<Completion>, b: seq<Completion>, k: int)
    ensures Select(a + b, k) == Select(a, k) + Select(b, k)
  {
    if b == [] {
      assert a + b == a;
    } else {
      var init := b[..|b| - 1];
      assert (a + b)[..|a + b| - 1] == a + init;
      SelectConcat(a, init, k);
    }
  }

  /** The keys of a concatenation depend on the second part only through its keys. */
  lemma {:induction false} KeysConcat(a: seq<Completion>, b: seq<Completion>)
    ensures Keys(a + b) == AddKeys(Keys(a), Keys(b))
  {
    if b == [] {
      assert a + b == a;
    } else {
      var init, c := b[..|b| - 1], b[|b| - 1];
      assert (a + b)[..|a + b| - 1] == a + init;
      KeysConcat(a, init);
      if c.index in Keys(init) {
        AddKeysMembers(Keys(a), Keys(init), c.index);
      } else {
        assert (Keys(init) + [c.index])[..|Keys(init)|] == Keys(init);
      }
    }
  }

  function AddKeys(keys: seq<int>, more: seq<int>): seq<int> {
    if more == [] then keys
    else
      var r, k := AddKeys(keys, more[..|more| - 1]), more[|more| - 1];
      if k in r then r else r + [k]
  }

  lemma {:induction false} AddKeysMembers(keys: seq<int>, more: seq<int>, k: int)
    ensures k in AddKeys(keys, more) <==> k in keys || k in more
  {
    if more != [] {
      AddKeysMembers(keys, more[..|more| - 1], k);
      assert more == more[..|more| - 1] + [more[|more| - 1]];
    }
  }

  /** A list with one completion per index is its own aggregate. */
  ghost predicate UniqueIndices(cs: seq<Completion>) {
    forall i, j :: 0 <= i < j < |cs| ==> cs[i].index != cs[j].index
  }

  ghost predicate KeysAreIndices(cs: seq<Completion>) {
    |Keys(cs)| == |cs| && forall i :: 0 <= i < |cs| ==> Keys(cs)[i] == cs[i].index
  }

  ghost predicate SelectsItself(cs: seq<Completion>) {
    forall i :: 0 <= i < |cs| ==> Select(cs, cs[i].index) == [cs[i]]
  }

  lemma {:induction false} UniqueFacts(cs: seq<Completion>)
    requires UniqueIndices(cs)
    ensures KeysAreIndices(cs) && SelectsItself(cs)
  {
    hide KeysAreIndices, SelectsItself;
    if cs == [] {
      NoneUnique();
    } else {
      var init, c := cs[..|cs| - 1], cs[|cs| - 1];
      forall i | 0 <= i < |init| ensures init[i].index != c.index { assert init[i] == cs[i]; }
      UniqueFacts(init);
      UniqueStep(init, c);
      assert cs == init + [c];
    }
  }

  lemma NoneUnique()
    ensures KeysAreIndices([]) && SelectsItself([])
  {
  }

  lemma UniqueStep(init: seq<Completion>, c: Completion)
    requires KeysAreIndices(init) && SelectsItself(init)
    requires forall i :: 0 <= i < |init| ==> init[i].index != c.index
    ensures KeysAreIndices(init + [c]) && SelectsItself(init + [c])
  {
    hide Keys, Select;
    SnocFacts(init, c);
    SelectIs(init, c.index);
    assert c.index !in Keys(init);
    assert Select(init, c.index) == [] && [] + [c] == [c];
  }

  lemma AggregateUnique(cs: seq<Completion>)
    requires UniqueIndices(cs)
    ensures Aggregate(cs) == cs
  {
    UniqueFacts(cs);
    forall i | 0 <= i < |cs| ensures Aggregate(cs)[i] == cs[i] {
      CombineOne(cs[i]);
    }
  }

  lemma AggregateIsUnique(cs: seq<Completion>)
    ensures UniqueIndices(Aggregate(cs))
  {
    KeysDistinct(cs);
    forall i | 0 <= i < |Keys(cs)| ensures Aggregate(cs)[i].index == Keys(cs)[i] {
      AggregateAt(cs, i);
    }
  }

  lemma AggregateKeys(cs: seq<Completion>)
    ensures Keys(Aggregate(cs)) == Keys(cs)
  {
    AggregateIsUnique(cs);
    UniqueFacts(Aggregate(cs));
    forall i | 0 <= i < |Keys(cs)| ensures Aggregate(cs)[i].index == Keys(cs)[i] {
      AggregateAt(cs, i);
    }
  }

  lemma AggregateSelect(cs: seq<Completion>, k: int)
    ensures Select(Aggregate(cs), k) == if Select(cs, k) == [] then [] else [Combine(Select(cs, k))]
  {
    hide Combine;
    var r := Aggregate(cs);
    SelectIs(cs, k);
    SelectIs(r, k);
    AggregateKeys(cs);
    if k in Keys(cs) {
      var i :| 0 <= i < |Keys(cs)| && Keys(cs)[i] == k;
      AggregateAt(cs, i);
      AggregateIsUnique(cs);
      UniqueFacts(r);
    }
  }

  lemma SingleFacts(c: Completion)
    ensures Texts([c]) == c.text && Tokens([c]) == c.tokenIds && AllLogprobs([c]) == LogprobsOf(c)
  {
    var cs := [c];
    assert cs[..|cs| - 1] == [];
    assert Texts(cs) == "" + c.text;
    assert Tokens(cs) == [] + c.tokenIds;
    assert AllLogprobs(cs) == [] + LogprobsOf(c);
  }

  lemma CombineNested(a: seq<Completion>, b: seq<Completion>)
    requires b != [] && (b[0].logprobs.None? ==> AllLogprobs(b) == [])
    ensures Combine(a + [Combine(b)]) == Combine(a + b)
  {
    hide Texts, Tokens, AllLogprobs;
    var c := Combine(b);
    ConcatFacts(a, b);
    ConcatFacts(a, [c]);
    SingleFacts(c);
    assert (a + b)[|a + b| - 1] == b[|b| - 1];
  }

  lemma {:induction false} EmptyLogprobs(cs: seq<Completion>)
    requires forall c :: c in cs ==> LogprobsOf(c) == []
    ensures AllLogprobs(cs) == []
  {
    if cs != [] {
      EmptyLogprobs(cs[..|cs| - 1]);
    }
  }

  /** A compatible stream in which an index starts without log-probabilities has none for it. */
  lemma FirstNone(cs: seq<Completion>, k: int)
    requires Compatible(cs) && Select(cs, k) != [] && Select(cs, k)[0].logprobs.None?
    ensures AllLogprobs(Select(cs, k)) == []
  {
    forall c | c in Select(cs, k) ensures LogprobsOf(c) == [] {
      SelectIs(cs, k);
      var i :| 0 <= i < |cs| && cs[i] == c;
      assert FitsAt(cs, i);
    }
    EmptyLogprobs(Select(cs, k));
  }

  /** Aggregating a part of a stream first makes no difference. */
  lemma AggregateNested(s: seq<Completion>, t: seq<Completion>)
    requires Compatible(t)
    ensures Aggregate(s + Aggregate(t)) == Aggregate(s + t)
  {
    hide Combine;
    var u, v := s + Aggregate(t), s + t;
    KeysConcat(s, Aggregate(t));
    KeysConcat(s, t);
    AggregateKeys(t);
    forall i | 0 <= i < |Keys(v)| ensures Aggregate(u)[i] == Aggregate(v)[i] {
      var k := Keys(v)[i];
      SelectConcat(s, Aggregate(t), k);
      SelectConcat(s, t, k);
      AggregateSelect(t, k);
      if Select(t, k) != [] {
        if Select(t, k)[0].logprobs.None? {
          FirstNone(t, k);
        }
        CombineNested(Select(s, k), Select(t, k));
      }
    }
  }

  // ----- what an aggregate holds

  /** The piece at p is the first with its index. */
  ghost predicate FirstAt(cs: seq<Completion>, p: nat) {
    p < |cs| && forall q :: 0 <= q < p ==> cs[q].index != cs[p].index
  }

  /** The piece at p is the last with its index. */
  ghost predicate LastAt(cs: seq<Completion>, p: nat) {
    p < |cs| && forall q :: p < q < |cs| ==> cs[q].index != cs[p].index
  }

  lemma {:induction false} SelectEnds(cs: seq<Completion>, k: int) returns (first: nat, last: nat)
    requires Select(cs, k) != []
    ensures FirstAt(cs, first) && LastAt(cs, last) && cs[first].index == cs[last].index == k
    ensures Select(cs, k)[0] == cs[first] && Select(cs, k)[|Select(cs, k)| - 1] == cs[last]
  {
    var n := |cs| - 1;
    var init := cs[..n];
    if Select(init, k) == [] {
      SelectIs(init, k);
      forall q | 0 <= q < n ensures cs[q].index != k {
        KeysComplete(init, q);
      }
      first, last := n, n;
    } else {
      first, last := SelectEnds(init, k);
      assert FirstAt(cs, first) by {
        forall q | 0 <= q < first ensures cs[q].index != cs[first].index {
          assert init[q] == cs[q];
        }
      }
      if cs[n].index == k {
        last := n;
      } else {
        forall q | last < q < |cs| ensures cs[q].index != cs[last].index {
          assert q < n ==> init[q] == cs[q];
        }
      }
    }
  }

  /** Every output has the index and the untouched fields of the first piece of its index, and the
      reasons and the cumulative log-probability of the last one. */
  lemma AggregateEnds(cs: seq<Completion>, i: nat) returns (first: nat, last: nat)
    requires i < |Aggregate(cs)|
    ensures FirstAt(cs, first) && LastAt(cs, last) && cs[first].index == cs[last].index == Aggregate(cs)[i].index
    ensures var c := Aggregate(cs)[i];
            && c.extras == cs[first].extras && (c.logprobs.Some? <==> cs[first].logprobs.Some?)
            && c.finishReason == cs[last].finishReason && c.stopReason == cs[last].stopReason
            && c.cumulativeLogprob == cs[last].cumulativeLogprob
  {
    AggregateAt(cs, i);
    first, last := SelectEnds(cs, Keys(cs)[i]);
    CombineIndex(Select(cs, Keys(cs)[i]));
  }

  /** The outputs come in the order in which their indices first appeared. */
  lemma {:induction false} AggregateOrder(cs: seq<Completion>, i: nat, j: nat) returns (p: nat)
    requires i < j < |Keys(cs)|
    ensures p < |cs| && cs[p].index == Keys(cs)[i] && forall q :: 0 <= q <= p ==> cs[q].index != Keys(cs)[j]
  {
    var n := |cs| - 1;
    var init, c := cs[..n], cs[n];
    if j < |Keys(init)| {
      p := AggregateOrder(init, i, j);
      assert forall q :: 0 <= q <= p ==> init[q] == cs[q];
    } else {
      var k := Keys(cs)[i];
      SelectIs(init, k);
      var last;
      p, last := SelectEnds(init, k);
      forall q | 0 <= q <= p ensures cs[q].index != c.index {
        KeysComplete(init, q);
        assert init[q] == cs[q];
      }
    }
  }

  // ----- replacing instead of aggregating

  ghost predicate Replaced(outs: seq<Completion>, next: Completion, r: seq<Completion>) {
    && |r| == |outs| + (if exists j :: 0 <= j < |outs| && outs[j].index == next.index then 0 else 1)
    && (forall j :: 0 <= j < |outs| ==> r[j] == if outs[j].index == next.index then next else outs[j])
    && (|r| > |outs| ==> r[|outs|] == next)
  }

  lemma ReplaceOne(outs: seq<Completion>, next: Completion)
    requires UniqueIndices(outs)
    ensures var r := MergeOne(outs, next, false); r.Done? && UniqueIndices(r.value) && Replaced(outs, next, r.value)
  {
    hide MergeOne;
    ReplaceIs(outs, next);
    var r := MergeOne(outs, next, false).value;
    forall i, j | 0 <= i < j < |r| ensures r[i].index != r[j].index {
      assert r[i].index == outs[i].index;
    }
  }

  lemma {:induction false} ReplaceIs(outs: seq<Completion>, next: Completion)
    requires UniqueIndices(outs)
    ensures MergeOne(outs, next, false).Done? && Replaced(outs, next, MergeOne(outs, next, false).value)
  {
    if outs != [] && outs[0].index != next.index {
      var rest := outs[1..];
      forall j | 0 <= j < |rest| ensures rest[j] == outs[j + 1] {}
      ReplaceIs(rest, next);
      ReplacedCons(outs, next, MergeOne(rest, next, false).value);
    } else if outs != [] {
      var r := MergeOne(outs, next, false).value;
      forall j | 0 < j < |outs| ensures r[j] == outs[j] && outs[j].index != next.index {}
    }
  }

  lemma ReplacedCons(outs: seq<Completion>, next: Completion, s: seq<Completion>)
    requires outs != [] && outs[0].index != next.index && Replaced(outs[1..], next, s)
    ensures Replaced(outs, next, [outs[0]] + s)
  {
    var rest, r := outs[1..], [outs[0]] + s;
    forall j | 0 <= j < |rest| ensures rest[j] == outs[j + 1] {}
    forall j | 0 < j < |outs| ensures r[j] == if outs[j].index == next.index then next else outs[j] {
      assert r[j] == s[j - 1] && rest[j - 1] == outs[j];
    }
    if j :| 0 <= j < |outs| && outs[j].index == next.index {
      assert rest[j - 1].index == next.index;
    }
  }

  /** With aggregate false, an index that arrives again holds only what arrived last, in the
      place where it first appeared; nothing fails. */
  lemma {:induction false} ReplaceKeepsLast(outs: seq<Completion>, nexts: seq<Completion>)
    requires UniqueIndices(outs)
    ensures var r := Merge(outs, nexts, false);
            r.Done? && UniqueIndices(r.value) && KeepsLast(outs, nexts, r.value)
  {
    if nexts != [] {
      hide MergeOne, UniqueIndices, Merge, LastOf, KeepsLast, Replaced;
      var init, c := nexts[..|nexts| - 1], nexts[|nexts| - 1];
      ReplaceKeepsLast(outs, init);
      var q := Merge(outs, init, false).value;
      ReplaceOne(q, c);
      MergeLast(outs, nexts);
      KeepsLastStep(outs, nexts, q, Merge(outs, nexts, false).value);
    }
  }

  /** Every index that arrived is there, each with what arrived last, the old ones in place. */
  ghost predicate KeepsLast(outs: seq<Completion>, nexts: seq<Completion>, r: seq<Completion>) {
    && |outs| <= |r|
    && (forall j :: 0 <= j < |outs| ==> r[j] == LastOf(nexts, outs[j]))
    && (forall j :: 0 <= j < |r| ==> r[j] == LastOf(nexts, r[j]))
    && (forall i :: 0 <= i < |nexts| ==> HasIndex(r, nexts[i].index))
  }

  ghost predicate HasIndex(r: seq<Completion>, k: int) {
    exists j :: 0 <= j < |r| && r[j].index == k
  }

  lemma KeepsLastStep(outs: seq<Completion>, nexts: seq<Completion>, q: seq<Completion>, r: seq<Completion>)
    requires nexts != [] && KeepsLast(outs, nexts[..|nexts| - 1], q) && Replaced(q, nexts[|nexts| - 1], r)
    ensures KeepsLast(outs, nexts, r)
  {
    hide LastOf, HasIndex;
    var init, c := nexts[..|nexts| - 1], nexts[|nexts| - 1];
    LastOfLast(nexts, c);
    forall j | 0 <= j < |q| ensures r[j] == LastOf(nexts, r[j]) && r[j].index == q[j].index {
      LastOfIndex(init, q[j]);
      LastOfLast(nexts, q[j]);
    }
    forall j | 0 <= j < |outs| ensures r[j] == LastOf(nexts, outs[j]) {
      LastOfIndex(init, outs[j]);
      LastOfLast(nexts, outs[j]);
    }
    forall i | 0 <= i < |nexts| ensures HasIndex(r, nexts[i].index) {
      if i < |init| {
        assert HasIndex(q, init[i].index);
      }
      StillThere(q, c, r, nexts[i].index);
    }
  }

  lemma StillThere(q: seq<Completion>, c: Completion, r: seq<Completion>, k: int)
    requires Replaced(q, c, r) && (HasIndex(q, k) || c.index == k)
    ensures HasIndex(r, k)
  {
    if j :| 0 <= j < |q| && q[j].index == k {
      assert r[j].index == k;
    } else {
      assert |r| > |q| && r[|q|].index == k;
    }
  }

  /** The last piece with the index of c, or c itself. */
  function LastOf(nexts: seq<Completion>, c: Completion): Completion {
    if nexts == [] then c
    else if nexts[|nexts| - 1].index == c.index then nexts[|nexts| - 1]
    else LastOf(nexts[..|nexts| - 1], c)
  }

  lemma {:induction false} LastOfAt(nexts: seq<Completion>, c: Completion, p: nat)
    requires LastAt(nexts, p) && nexts[p].index == c.index
    ensures LastOf(nexts, c) == nexts[p]
  {
    var n := |nexts| - 1;
    var init := nexts[..n];
    if p < n {
      assert nexts[n].index != c.index;
      forall q | p < q < n ensures init[q].index != init[p].index {
        assert init[q] == nexts[q];
      }
      LastOfAt(init, c, p);
    }
  }

  lemma {:induction false} LastOfNone(nexts: seq<Completion>, c: Completion)
    requires forall p :: 0 <= p < |nexts| ==> nexts[p].index != c.index
    ensures LastOf(nexts, c) == c
  {
    if nexts != [] {
      LastOfNone(nexts[..|nexts| - 1], c);
    }
  }

  lemma LastOfLast(nexts: seq<Completion>, c: Completion)
    requires nexts != []
    ensures LastOf(nexts, c) ==
            if nexts[|nexts| - 1].index == c.index then nexts[|nexts| - 1] else LastOf(nexts[..|nexts| - 1], c)
  {
  }

  lemma MergeLast(outs: seq<Completion>, nexts: seq<Completion>)
    requires nexts != []
    ensures var r := Merge(outs, nexts[..|nexts| - 1], false);
            Merge(outs, nexts, false) == if r.Done? then MergeOne(r.value, nexts[|nexts| - 1], false) else r
  {
  }

  lemma {:induction false} LastOfIndex(nexts: seq<Completion>, c: Completion)
    ensures LastOf(nexts, c).index == c.index
    ensures LastOf(nexts, LastOf(nexts, c)) == LastOf(nexts, c)
  {
    if nexts != [] && nexts[|nexts| - 1].index != c.index {
      LastOfIndex(nexts[..|nexts| - 1], c);
    }
  }

  // ----- whole responses, grouped in any way

  /** A response, or a delta of one; kv and experts stand for kv_transfer_params and
      prompt_routed_experts. */
  datatype Response = Response(outputs: seq<Completion>, finished: bool, kv: Option<string>, experts: Option<string>)

  /** RequestOutput.add on values. */
  function Add(r: Response, next: Response, aggregate: bool): Merged<Response> {
    var outs := Merge(r.outputs, next.outputs, aggregate);
    if outs.Done? then
      Done(Response(outs.value, r.finished || next.finished, next.kv,
                    if next.experts.Some? then next.experts else r.experts))
    else AssertionError
  }

  /** A way of merging deltas: each is merged on its own, or after other merges. */
  datatype Grouping = One(delta: Response) | Both(left: Grouping, right: Grouping)

  function Eval(g: Grouping): Merged<Response> {
    match g
    case One(d) => Done(d)
    case Both(l, r) =>
      var a, b := Eval(l), Eval(r);
      if a.Done? && b.Done? then Add(a.value, b.value, true) else AssertionError
  }

  function Deltas(g: Grouping): (ds: seq<Response>)
    ensures ds != []
  {
    match g
    case One(d) => [d]
    case Both(l, r) => Deltas(l) + Deltas(r)
  }

  function Pieces(ds: seq<Response>): seq<Completion> {
    if ds == [] then [] else ds[0].outputs + Pieces(ds[1..])
  }

  function AnyFinished(ds: seq<Response>): bool {
    ds != [] && (ds[0].finished || AnyFinished(ds[1..]))
  }

  function LastExperts(ds: seq<Response>): Option<string> {
    if ds == [] then None
    else
      var rest := LastExperts(ds[1..]);
      if rest.Some? then rest else ds[0].experts
  }

  /** The response a sequence of deltas amounts to, however they are merged. */
  function Whole(ds: seq<Response>): Response
    requires ds != []
  {
    Response(Aggregate(Pieces(ds)), AnyFinished(ds), ds[|ds| - 1].kv, LastExperts(ds))
  }

  lemma {:induction false} DeltasConcat(a: seq<Response>, b: seq<Response>)
    ensures Pieces(a + b) == Pieces(a) + Pieces(b)
    ensures AnyFinished(a + b) == (AnyFinished(a) || AnyFinished(b))
    ensures LastExperts(a + b) == if LastExperts(b).Some? then LastExperts(b) else LastExperts(a)
  {
    if a == [] {
      assert a + b == b;
      assert Pieces(a) + Pieces(b) == Pieces(b);
    } else {
      assert (a + b)[1..] == a[1..] + b;
      DeltasConcat(a[1..], b);
      assert a[0].outputs + (Pieces(a[1..]) + Pieces(b)) == a[0].outputs + Pieces(a[1..]) + Pieces(b);
    }
  }

  lemma WholeOne(d: Response)
    ensures Pieces([d]) == d.outputs && AnyFinished([d]) == d.finished && LastExperts([d]) == d.experts
  {
    assert [d][1..] == [];
    assert d.outputs + [] == d.outputs;
  }

  /** The request is finished when any delta says so, the transfer parameters are those of the last
      delta, and the experts those of the last delta that has any. */
  lemma {:induction false} WholeFields(ds: seq<Response>)
    requires ds != []
    ensures Whole(ds).finished <==> exists i :: 0 <= i < |ds| && ds[i].finished
    ensures Whole(ds).kv == ds[|ds| - 1].kv
    ensures if exists i :: 0 <= i < |ds| && ds[i].experts.Some?
            then exists i :: && 0 <= i < |ds| && ds[i].experts.Some? && ds[i].experts == Whole(ds).experts
                             && forall j :: i < j < |ds| ==> ds[j].experts.None?
            else Whole(ds).experts == None
  {
    if |ds| == 1 {
      WholeOne(ds[0]);
    } else {
      hide Aggregate;
      var rest := ds[1..];
      WholeFields(rest);
      assert forall i :: 0 <= i < |rest| ==> rest[i] == ds[i + 1];
      assert forall i :: 0 < i < |ds| ==> ds[i] == rest[i - 1];
    }
  }

  /** What is not an output is merged alike in both modes; without aggregation nothing fails. */
  lemma AddFields(r: Response, next: Response, aggregate: bool)
    ensures Add(r, next, aggregate).Done? ==>
              var sum, whole := Add(r, next, aggregate).value, Whole([r, next]);
              sum.finished == whole.finished && sum.kv == whole.kv && sum.experts == whole.experts
    ensures UniqueIndices(r.outputs) && !aggregate ==>
              Add(r, next, aggregate).Done? && KeepsLast(r.outputs, next.outputs, Add(r, next, aggregate).value.outputs)
  {
    hide Aggregate, Merge, KeepsLast;
    WholeOne(next);
    assert [r, next][1..] == [next];
    if UniqueIndices(r.outputs) {
      ReplaceKeepsLast(r.outputs, next.outputs);
    }
  }

  ghost predicate UniqueDeltas(g: Grouping) {
    match g
    case One(d) => UniqueIndices(d.outputs)
    case Both(l, r) => UniqueDeltas(l) && UniqueDeltas(r)
  }

  lemma UniqueCompatible(cs: seq<Completion>)
    requires UniqueIndices(cs)
    ensures Compatible(cs)
  {
    UniqueFacts(cs);
  }

  /** Whenever a grouping succeeds, its result is the response of the whole stream. */
  lemma {:induction false} GroupingIrrelevant(g: Grouping)
    requires UniqueDeltas(g)
    ensures Eval(g).Done? ==> Eval(g).value == Whole(Deltas(g)) && Compatible(Pieces(Deltas(g)))
  {
    hide Aggregate, Merge, FitsAt;
    match g
    case One(d) =>
      WholeOne(d);
      AggregateUnique(d.outputs);
      UniqueCompatible(d.outputs);
    case Both(l, r) =>
      GroupingIrrelevant(l);
      GroupingIrrelevant(r);
      if Eval(g).Done? {
        var s, t := Pieces(Deltas(l)), Pieces(Deltas(r));
        DeltasConcat(Deltas(l), Deltas(r));
        MergeStream(s, Aggregate(t));
        AggregateNested(s, t);
        CompatibleConcat(s, t);
      }
  }

  lemma CompatibleConcat(s: seq<Completion>, t: seq<Completion>)
    requires Compatible(s) && Compatible(t)
    ensures Compatible(s + Aggregate(t), |s|) ==> Compatible(s + t)
  {
    hide Combine;
    if Compatible(s + Aggregate(t), |s|) {
      forall i | 0 <= i < |s + t| ensures FitsAt(s + t, i) {
        var c := (s + t)[i];
        var k := c.index;
        SelectConcat(s, t, k);
        if i < |s| {
          assert FitsAt(s, i);
        } else {
          assert FitsAt(t, i - |s|);
          if LogprobsOf(c) != [] && Select(s, k) != [] {
            PieceThrough(s, t, i - |s|);
          }
        }
      }
    }
  }

  /** Log-probabilities of a piece of t show in the aggregate of t, so the first piece of that
      index in s must have a place for them. */
  lemma PieceThrough(s: seq<Completion>, t: seq<Completion>, j: nat)
    requires Compatible(t) && Compatible(s + Aggregate(t), |s|)
    requires j < |t| && LogprobsOf(t[j]) != [] && Select(s, t[j].index) != []
    ensures Select(s, t[j].index)[0].logprobs.Some?
  {
    var k, r := t[j].index, Aggregate(t);
    assert FitsAt(t, j);
    KeysComplete(t, j);
    var i :| 0 <= i < |Keys(t)| && Keys(t)[i] == k;
    AggregateAt(t, i);
    SelectIs(t, k);
    CombineIndex(Select(t, k));
    PieceLogprobs(t, j);
    assert FitsAt(s + r, |s| + i);
    SelectConcat(s, r, k);
  }

  lemma {:induction false} PieceLogprobs(t: seq<Completion>, j: nat)
    requires j < |t| && LogprobsOf(t[j]) != []
    ensures AllLogprobs(Select(t, t[j].index)) != []
  {
    hide Select, Keys, AllLogprobs, LogprobsOf;
    var init, c := t[..|t| - 1], t[|t| - 1];
    assert t == init + [c];
    SnocFacts(init, c);
    AllLogprobsSnoc(Select(init, t[j].index), c);
    if j < |t| - 1 {
      PieceLogprobs(init, j);
    }
  }

  /** No piece brings log-probabilities to an index of which an earlier piece has no place for
      them. */
  ghost predicate Steady(cs: seq<Completion>) {
    forall i, j :: 0 <= i < j < |cs| && cs[i].index == cs[j].index && LogprobsOf(cs[j]) != [] ==>
      cs[i].logprobs.Some?
  }

  lemma SteadyParts(s: seq<Completion>, t: seq<Completion>)
    requires Steady(s + t)
    ensures Steady(s) && Steady(t)
  {
    forall i, j | 0 <= i < j < |s| && s[i].index == s[j].index && LogprobsOf(s[j]) != []
      ensures s[i].logprobs.Some?
    {
      assert (s + t)[i] == s[i] && (s + t)[j] == s[j];
    }
    forall i, j | 0 <= i < j < |t| && t[i].index == t[j].index && LogprobsOf(t[j]) != []
      ensures t[i].logprobs.Some?
    {
      assert (s + t)[|s| + i] == t[i] && (s + t)[|s| + j] == t[j];
    }
  }

  /** The pieces that arrive first leave room for an aggregate of later ones. */
  lemma SteadyFits(s: seq<Completion>, t: seq<Completion>)
    requires Steady(s + t)
    ensures Compatible(s + Aggregate(t), |s|)
  {
    hide Combine, Steady, Keys;
    var r := Aggregate(t);
    var u := s + r;
    forall i | |s| <= i < |u| ensures FitsAt(u, i) {
      var k := Keys(t)[i - |s|];
      AggregateAt(t, i - |s|);
      SelectConcat(s, r, k);
      AggregateSelect(t, k);
      if LogprobsOf(u[i]) != [] && Select(s, k) != [] {
        SteadyFirst(s, t, k);
      }
    }
  }

  lemma SteadyFirst(s: seq<Completion>, t: seq<Completion>, k: int)
    requires Steady(s + t) && Select(s, k) != [] && Select(t, k) != []
    requires LogprobsOf(Combine(Select(t, k))) != []
    ensures Select(s, k)[0].logprobs.Some?
  {
    hide Select;
    var x := Select(s, k)[0];
    SelectIs(s, k);
    assert x in s;
    var i :| 0 <= i < |s| && s[i] == x;
    if forall c :: c in Select(t, k) ==> LogprobsOf(c) == [] {
      EmptyLogprobs(Select(t, k));
      assert false;
    }
    var c :| c in Select(t, k) && LogprobsOf(c) != [];
    SelectIs(t, k);
    var j :| 0 <= j < |t| && t[j] == c;
    assert (s + t)[i] == x && (s + t)[|s| + j] == c;
  }

  /** In a steady stream every grouping succeeds, so all groupings agree. */
  lemma {:induction false} SteadySucceeds(g: Grouping)
    requires UniqueDeltas(g) && Steady(Pieces(Deltas(g)))
    ensures Eval(g) == Done(Whole(Deltas(g)))
  {
    hide Aggregate, Merge, FitsAt, Steady;
    GroupingIrrelevant(g);
    match g
    case One(d) =>
    case Both(l, r) =>
      var s, t := Pieces(Deltas(l)), Pieces(Deltas(r));
      DeltasConcat(Deltas(l), Deltas(r));
      SteadyParts(s, t);
      SteadySucceeds(l);
      SteadySucceeds(r);
      SteadyFits(s, t);
      MergeStream(s, Aggregate(t));
  }

  /** Merging the deltas one after the other. */
  function InOrder(ds: seq<Response>): (g: Grouping)
    requires ds != []
    ensures Deltas(g) == ds
  {
    if |ds| == 1 then One(ds[0]) else Both(InOrder(ds[..|ds| - 1]), One(ds[|ds| - 1]))
  }

  lemma {:induction false} UniqueEach(g: Grouping)
    requires forall d :: d in Deltas(g) ==> UniqueIndices(d.outputs)
    ensures UniqueDeltas(g)
  {
    hide UniqueIndices;
    match g
    case One(d) => assert d in Deltas(g);
    case Both(l, r) =>
      UniqueEach(l);
      UniqueEach(r);
  }

  /** A piece of the first delta is the first of its index in the stream. */
  lemma FirstPiece(ds: seq<Response>, i: nat)
    requires ds != [] && UniqueIndices(ds[0].outputs) && i < |ds[0].outputs|
    ensures i < |Pieces(ds)| && Pieces(ds)[i] == ds[0].outputs[i]
    ensures var sel := Select(Pieces(ds), Pieces(ds)[i].index); sel != [] && sel[0] == Pieces(ds)[i]
  {
    hide Select;
    UniqueFacts(ds[0].outputs);
    SelectConcat(ds[0].outputs, Pieces(ds[1..]), ds[0].outputs[i].index);
  }

  /** A pair of pieces that is not steady makes some grouping fail: the one that starts
      merging at the delta of the earlier piece. */
  lemma {:induction false} UnsteadyFails(ds: seq<Response>, i: nat, j: nat) returns (g: Grouping)
    requires forall d :: d in ds ==> UniqueIndices(d.outputs)
    requires i < j < |Pieces(ds)| && Pieces(ds)[i].index == Pieces(ds)[j].index
    requires LogprobsOf(Pieces(ds)[j]) != [] && Pieces(ds)[i].logprobs.None?
    ensures Deltas(g) == ds && Eval(g).AssertionError?
  {
    hide Select, UniqueIndices, Merge;
    var n := |ds[0].outputs|;
    if i < n {
      g := InOrder(ds);
      UniqueEach(g);
      GroupingIrrelevant(g);
      FirstPiece(ds, i);
      assert !FitsAt(Pieces(ds), j);
    } else {
      var inner := UnsteadyFails(ds[1..], i - n, j - n);
      g := Both(One(ds[0]), inner);
      assert ds == [ds[0]] + ds[1..];
    }
  }

  /** Exactly in a steady stream every grouping of its deltas succeeds; then all give the same
      response. */
  lemma EveryGroupingSucceeds(ds: seq<Response>)
    requires ds != [] && forall d :: d in ds ==> UniqueIndices(d.outputs)
    ensures (forall g :: Deltas(g) == ds ==> Eval(g).Done?) <==> Steady(Pieces(ds))
    ensures Steady(Pieces(ds)) ==> forall g :: Deltas(g) == ds ==> Eval(g) == Done(Whole(ds))
  {
    hide UniqueIndices, Eval, Deltas;
    if Steady(Pieces(ds)) {
      forall g | Deltas(g) == ds ensures Eval(g) == Done(Whole(ds)) {
        UniqueEach(g);
        SteadySucceeds(g);
      }
    } else {
      var ps := Pieces(ds);
      var i, j :| 0 <= i < j < |ps| && ps[i].index == ps[j].index && LogprobsOf(ps[j]) != [] && ps[i].logprobs.None?;
      var g := UnsteadyFails(ds, i, j);
      assert Deltas(g) == ds && !Eval(g).Done?;
    }
  }

  /** With three deltas of one index the two groupings differ in one case: a middle delta
      without log-probabilities makes the right grouping fail where the left one succeeds. */
  lemma MixedModesMatter(a: Response, b: Response, c: Response, x: Completion, y: Completion, z: Completion)
    requires a.outputs == [x] && b.outputs == [y] && c.outputs == [z] && x.index == y.index == z.index
    ensures Eval(Both(Both(One(a), One(b)), One(c))).Done? !=
            Eval(Both(One(a), Both(One(b), One(c)))).Done? <==>
            x.logprobs.Some? && y.logprobs.None? && LogprobsOf(z) != []
  {
    hide Merge;
    MergeSingle(x, y);
    MergeSingle(y, z);
    MergeSingle(Absorb(x, y), z);
    MergeSingle(x, Absorb(y, z));
    assert Eval(One(a)) == Done(a) && Eval(One(b)) == Done(b) && Eval(One(c)) == Done(c);
    assert Eval(Both(One(a), One(b))) == Add(a, b, true);
    assert Eval(Both(One(b), One(c))) == Add(b, c, true);
    var left, right := Eval(Both(Both(One(a), One(b)), One(c))), Eval(Both(One(a), Both(One(b), One(c))));
    assert left.Done? <==> !Clash(x, y) && !Clash(Absorb(x, y), z);
    assert right.Done? <==> !Clash(y, z) && !Clash(x, Absorb(y, z));
  }

  lemma MergeSingle(x: Completion, y: Completion)
    requires x.index == y.index
    ensures Merge([x], [y], true) == if Clash(x, y) then AssertionError else Done([Absorb(x, y)])
  {
    assert [y][..0] == [];
    assert [Absorb(x, y)] + [x][1..] == [Absorb(x, y)];
  }
}
