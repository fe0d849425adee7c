/** RequestOutput.add of vllm/outputs.py: merging a delta into a response in place. */
module RequestOutput {
  import opened Common
  import opened FlatLogprobs
  import opened OutputMerge

  /** What absorbing has done when the assertion fails: text and tokens are extended. */
  function Started(c: Completion, next: Completion): Completion {
    c.(text := c.text + next.text, tokenIds := c.tokenIds + next.tokenIds)
  }

  /** The merge of one completion failed: the first with its index was only started on. */
  ghost predicate StoppedAt(outs: seq<Completion>, next: Completion, after: seq<Completion>) {
    exists i :: 0 <= i < |outs| && outs[i].index == next.index &&
        (forall j :: 0 <= j < i ==> outs[j].index != next.index) &&
      Clash(outs[i], next) && after == outs[i := Started(outs[i], next)]
  }

  /** A merge failed: the completions before some k are merged, the k-th is only started on. */
  ghost predicate Stopped(outs: seq<Completion>, nexts: seq<Completion>, aggregate: bool, after: seq<Completion>) {
    exists k :: 0 <= k < |nexts| && Merge(outs, nexts[..k], aggregate).Done? &&
      StoppedAt(Merge(outs, nexts[..k], aggregate).value, nexts[k], after)
  }

  class CompletionOutput {
    const index: int
    const extras: string
    var text: string
    var tokenIds: seq<int>
    var cumulativeLogprob: Option<real>
    var logprobs: Option<seq<Dict>>
    var finishReason: Option<string>
    var stopReason: Option<string>

    constructor (c: Completion)
      ensures Value() == c
    {
      index, extras, text, tokenIds := c.index, c.extras, c.text, c.tokenIds;
      cumulativeLogprob, logprobs := c.cumulativeLogprob, c.logprobs;
      finishReason, stopReason := c.finishReason, c.stopReason;
    }

    function Value(): Completion
      reads this
    {
      Completion(index, text, tokenIds, cumulativeLogprob, logprobs, finishReason, stopReason, extras)
    }

    /** Lines 160-171; the text and the tokens are extended before the assertion is reached. */
    method AbsorbInPlace(next: CompletionOutput) returns (ok: bool)
      requires next != this
      modifies this
      ensures ok <==> !Clash(old(Value()), next.Value())
      ensures ok ==> Value() == Absorb(old(Value()), next.Value())
      ensures !ok ==> Value() == Started(old(Value()), next.Value())
    {
      text := text + next.text;
      tokenIds := tokenIds + next.tokenIds;
      if next.logprobs.Some? && next.logprobs.value != [] {
        if logprobs.None? {
          return false;
        }
        logprobs := Some(logprobs.value + next.logprobs.value);
      }
      cumulativeLogprob := next.cumulativeLogprob;
      finishReason := next.finishReason;
      stopReason := next.stopReason;
      return true;
    }
  }

  function Values(s: seq<CompletionOutput>): (r: seq<Completion>)
    reads s
    ensures |r| == |s|
    ensures forall i :: 0 <= i < |s| ==> r[i] == s[i].Value()
  {
    if s == [] then [] else [s[0].Value()] + Values(s[1..])
  }

  lemma {:induction false} MergeOneReplace(outs: seq<Completion>, next: Completion, i: nat)
    requires i < |outs| && outs[i].index == next.index
    requires forall j :: 0 <= j < i ==> outs[j].index != next.index
    ensures MergeOne(outs, next, false) == Done(outs[i := next])
  {
    if i == 0 {
      assert outs[0 := next] == [next] + outs[1..];
    } else {
      MergeOneReplace(outs[1..], next, i - 1);
      assert outs[i := next] == [outs[0]] + outs[1..][i - 1 := next];
    }
  }

  class RequestOutput {
    var outputs: seq<CompletionOutput>
    var finished: bool
    var kv: Option<string>
    var experts: Option<string>

    constructor (outputs: seq<CompletionOutput>, finished: bool, kv: Option<string>, experts: Option<string>)
      ensures this.outputs == outputs && this.finished == finished && this.kv == kv && this.experts == experts
    {
      this.outputs, this.finished, this.kv, this.experts := outputs, finished, kv, experts;
    }

    function Value(): Response
      reads this, outputs
    {
      Response(Values(outputs), finished, kv, experts)
    }

    /** The position of the first output with the given index, or the number of outputs. */
    method FindIndex(index: int) returns (i: nat)
      ensures i <= |outputs| && (i < |outputs| ==> outputs[i].index == index)
      ensures forall j :: 0 <= j < i ==> outputs[j].index != index
    {
      i := 0;
      while i < |outputs|
        invariant 0 <= i <= |outputs|
        invariant forall j :: 0 <= j < i ==> outputs[j].index != index
      {
        if outputs[i].index == index {
          return;
        }
        i := i + 1;
      }
    }

    /** Lines 156-177 for one incoming completion. */
    method MergeCompletion(next: CompletionOutput, aggregate: bool) returns (ok: bool)
      requires Distinct(outputs) && next !in outputs
      modifies this`outputs, outputs
      ensures var r := MergeOne(old(Values(outputs)), old(next.Value()), aggregate);
              (ok <==> r.Done?) && (ok ==> Values(outputs) == r.value)
      ensures !ok ==> StoppedAt(old(Values(outputs)), old(next.Value()), Values(outputs))
      ensures ok ==> Distinct(outputs) && forall c :: c in outputs ==> c in old(outputs) || c == next
    {
      hide MergeOne, Absorb, Clash, Values;
      ghost var before := Values(outputs);
      var i := FindIndex(next.index);
      if i == |outputs| {
        MergeOneNew(before, next.Value(), aggregate);
        outputs := outputs + [next];
        assert Values(outputs) == before + [next.Value()];
        return true;
      }
      if aggregate {
        MergeOneAt(before, next.Value(), i);
        ok := outputs[i].AbsorbInPlace(next);
        if ok {
          assert Values(outputs) == before[i := Absorb(before[i], next.Value())];
        } else {
          assert Values(outputs) == before[i := Started(before[i], next.Value())];
        }
      } else {
        MergeOneReplace(before, next.Value(), i);
        outputs := outputs[i := next];
        assert Values(outputs) == before[i := next.Value()];
        ok := true;
      }
    }

    /** Lines 155-177: merge the incoming completions one after the other. */
    method MergeAll(nexts: seq<CompletionOutput>, aggregate: bool) returns (ok: bool)
      requires Distinct(outputs) && Distinct(nexts) && forall c :: c in nexts ==> c !in outputs
      modifies this`outputs, outputs, nexts
      ensures var r := Merge(old(Values(outputs)), old(Values(nexts)), aggregate);
              (ok <==> r.Done?) && (ok ==> Values(outputs) == r.value)
      ensures !ok ==> Stopped(old(Values(outputs)), old(Values(nexts)), aggregate, Values(outputs))
      ensures ok ==> Distinct(outputs)
    {
      hide MergeOne, Merge, Distinct, Values, StoppedAt;
      ghost var mine, theirs := Values(outputs), Values(nexts);
      MergeNothing(mine, theirs, aggregate);
      for k := 0 to |nexts|
        invariant Merge(mine, theirs[..k], aggregate) == Done(Values(outputs))
        invariant Distinct(outputs)
        invariant forall c :: c in outputs ==> c in old(outputs) || c in nexts
        invariant forall j :: k <= j < |nexts| ==> nexts[j].Value() == theirs[j] && nexts[j] !in outputs
      {
        MergeStep(mine, theirs, k, aggregate);
        NotLater(nexts, k);
        assert nexts[k] in nexts;
        forall i | 0 <= i < |outputs| ensures outputs[i] in old(outputs) || outputs[i] in nexts {
          assert outputs[i] in outputs;
        }
        ok := MergeCompletion(nexts[k], aggregate);
        if !ok {
          MergeFails(mine, theirs, k + 1, aggregate);
          return;
        }
      }
      assert theirs[..|theirs|] == theirs;
      ok := true;
    }

    /** add.  The response becomes the merge of the two values; the call fails exactly when the
        merge does, with the request's own fields overwritten and the outputs merged up to there. */
    method Add(next: RequestOutput, aggregate: bool) returns (ok: bool)
      requires next != this && Distinct(outputs) && Distinct(next.outputs)
      requires forall c :: c in next.outputs ==> c !in outputs
      modifies this, outputs, next.outputs
      ensures var r := OutputMerge.Add(old(Value()), old(next.Value()), aggregate);
              (ok <==> r.Done?) && (ok ==> Value() == r.value)
      ensures !ok ==>
                && Stopped(old(Values(outputs)), old(Values(next.outputs)), aggregate, Values(outputs))
                && finished == (old(finished) || next.finished) && kv == next.kv
                && experts == if next.experts.Some? then next.experts else old(experts)
      ensures ok ==> Distinct(outputs)
    {
      hide Merge, Values, Stopped;
      finished := finished || next.finished;
      kv := next.kv;
      if next.experts.Some? {
        experts := next.experts;
      }
      ok := MergeAll(next.outputs, aggregate);
    }
  }

  lemma NotLater(s: seq<CompletionOutput>, k: nat)
    requires k < |s| && Distinct(s)
    ensures s[..k + 1] == s[..k] + [s[k]]
    ensures forall j :: k < j < |s| ==> s[j] != s[k]
  {
  }

  lemma MergeNothing(outs: seq<Completion>, nexts: seq<Completion>, aggregate: bool)
    ensures Merge(outs, nexts[..0], aggregate) == Done(outs)
  {
  }

  lemma MergeStep(outs: seq<Completion>, nexts: seq<Completion>, k: nat, aggregate: bool)
    requires k < |nexts| && Merge(outs, nexts[..k], aggregate).Done?
    ensures Merge(outs, nexts[..k + 1], aggregate) ==
            MergeOne(Merge(outs, nexts[..k], aggregate).value, nexts[k], aggregate)
  {
    assert nexts[..k + 1][..k] == nexts[..k];
  }

  /** Once a merge has failed it stays failed. */
  lemma {:induction false} MergeFails(outs: seq<Completion>, nexts: seq<Completion>, k: nat, aggregate: bool)
    requires k <= |nexts| && Merge(outs, nexts[..k], aggregate).AssertionError?
    ensures Merge(outs, nexts, aggregate).AssertionError?
  {
    if k == |nexts| {
      assert nexts[..k] == nexts;
    } else {
      assert nexts[..|nexts| - 1][..k] == nexts[..k];
      MergeFails(outs, nexts[..|nexts| - 1], k, aggregate);
    }
  }
}
