/** Masking of bad words (NoBadWordsLogitsProcessor in vllm/logits_process.py). */
module BadWords {
  import opened Common

  /** A logit: a finite number or minus infinity. */
  datatype Logit = NegInf | Fin(value: real)

  function Plus(a: Logit, b: Logit): Logit {
    if a.NegInf? || b.NegInf? then NegInf else Fin(a.value + b.value)
  }

  const ZERO := Fin(0.0)

  datatype Result<T> = Ok(value: T) | ValueError(invalid: seq<int>) | IndexError | AssertionError

  type Word = seq<int>

  // ----- what is masked

  /** Token t after `past` completes word w. */
  predicate Completes(w: Word, past: seq<int>, t: int) {
    && w != [] && w[|w| - 1] == t
    && |w| - 1 <= |past|
    && past[|past| - (|w| - 1)..] == w[..|w| - 1]
  }

  ghost predicate Masked(words: seq<Word>, past: seq<int>, t: int) {
    exists i :: 0 <= i < |words| && Completes(words[i], past, t)
  }

  predicate InBounds(words: seq<Word>, vocab: nat) {
    forall i, j :: 0 <= i < |words| && 0 <= j < |words[i]| ==> 0 <= words[i][j] < vocab
  }

  predicate NoEmptyWord(words: seq<Word>) {
    forall i :: 0 <= i < |words| ==> words[i] != []
  }

  /** The ids of a word, or of all words, that lie outside the vocabulary, in order. */
  function InvalidIn(w: Word, vocab: nat): seq<int> {
    if w == [] then []
    else InvalidIn(w[..|w| - 1], vocab) + if 0 <= w[|w| - 1] < vocab then [] else [w[|w| - 1]]
  }

  function InvalidIds(words: seq<Word>, vocab: nat): seq<int> {
    if words == [] then []
    else InvalidIds(words[..|words| - 1], vocab) + InvalidIn(words[|words| - 1], vocab)
  }

  lemma {:induction false} InvalidInNone(w: Word, vocab: nat)
    ensures InvalidIn(w, vocab) == [] <==> forall j :: 0 <= j < |w| ==> 0 <= w[j] < vocab
  {
    if w != [] {
      InvalidInNone(w[..|w| - 1], vocab);
    }
  }

  lemma {:induction false} InvalidIdsNone(words: seq<Word>, vocab: nat)
    ensures InvalidIds(words, vocab) == [] <==> InBounds(words, vocab)
  {
    if words != [] {
      var n := |words| - 1;
      InvalidIdsNone(words[..n], vocab);
      InvalidInNone(words[n], vocab);
      hide InvalidIn;
      BoundsSnoc(words[..n], words[n], vocab);
      assert words == words[..n] + [words[n]];
    }
  }

  lemma BoundsSnoc(words: seq<Word>, w: Word, vocab: nat)
    ensures InBounds(words + [w], vocab) <==>
            InBounds(words, vocab) && forall j :: 0 <= j < |w| ==> 0 <= w[j] < vocab
  {
    var more := words + [w];
    assert more[|words|] == w && forall i :: 0 <= i < |words| ==> more[i] == words[i];
  }

  lemma InvalidInSnoc(w: Word, t: int, vocab: nat)
    ensures InvalidIn(w + [t], vocab) == InvalidIn(w, vocab) + if 0 <= t < vocab then [] else [t]
  {
    assert (w + [t])[..|w|] == w;
  }

  lemma InvalidIdsSnoc(words: seq<Word>, w: Word, vocab: nat)
    ensures InvalidIds(words + [w], vocab) == InvalidIds(words, vocab) + InvalidIn(w, vocab)
  {
    hide InvalidIn;
    assert (words + [w])[..|words|] == words;
  }

  /** The offending ids are listed in the order in which they stand. */
  lemma {:induction false} InvalidInOrder(v: Word, w: Word, vocab: nat)
    ensures InvalidIn(v + w, vocab) == InvalidIn(v, vocab) + InvalidIn(w, vocab)
  {
    if w == [] {
      assert v + w == v;
    } else {
      hide InvalidIn;
      var init, last := w[..|w| - 1], w[|w| - 1];
      InvalidInOrder(v, init, vocab);
      InvalidInSnoc(v + init, last, vocab);
      InvalidInSnoc(init, last, vocab);
      assert w == init + [last];
      ConcatAssoc(v, init, [last]);
      ConcatAssoc(InvalidIn(v, vocab), InvalidIn(init, vocab), if 0 <= last < vocab then [] else [last]);
    }
  }

  lemma {:induction false} InvalidIdsInOrder(a: seq<Word>, b: seq<Word>, vocab: nat)
    ensures InvalidIds(a + b, vocab) == InvalidIds(a, vocab) + InvalidIds(b, vocab)
  {
    if b == [] {
      assert a + b == a;
    } else {
      hide InvalidIds, InvalidIn;
      var init, last := b[..|b| - 1], b[|b| - 1];
      InvalidIdsInOrder(a, init, vocab);
      InvalidIdsSnoc(a + init, last, vocab);
      InvalidIdsSnoc(init, last, vocab);
      assert b == init + [last];
      ConcatAssoc(a, init, [last]);
      ConcatAssoc(InvalidIds(a, vocab), InvalidIds(init, vocab), InvalidIn(last, vocab));
    }
  }

  /** The processed logits: minus infinity exactly at the masked tokens. */
  ghost predicate Processed(words: seq<Word>, past: seq<int>, logits: seq<Logit>, out: seq<Logit>) {
    && |out| == |logits|
    && forall t :: 0 <= t < |logits| ==> out[t] == if Masked(words, past, t) then NegInf else logits[t]
  }

  // ----- the two biases

  /** A bias is minus infinity at the tokens masked by the one-token words, or by the longer
      ones, and 0 elsewhere. */
  ghost predicate IsBias(bias: seq<Logit>, vocab: nat, words: seq<Word>, past: seq<int>, single: bool) {
    && |bias| == vocab
    && forall t :: 0 <= t < vocab ==>
         bias[t] == if MaskedBy(words, past, single, t) then NegInf else ZERO
  }

  ghost predicate MaskedBy(words: seq<Word>, past: seq<int>, single: bool, t: int) {
    exists i :: 0 <= i < |words| && (single <==> |words[i]| == 1) && Completes(words[i], past, t)
  }

  lemma BiasesMask(words: seq<Word>, past: seq<int>, logits: seq<Logit>, wordBias: seq<Logit>, lastBias: seq<Logit>,
                   out: seq<Logit>)
    requires IsBias(wordBias, |logits|, words, [], true) && IsBias(lastBias, |logits|, words, past, false)
    requires |out| == |logits|
    requires forall t :: 0 <= t < |logits| ==> out[t] == Plus(Plus(logits[t], wordBias[t]), lastBias[t])
    ensures Processed(words, past, logits, out)
  {
    forall t | 0 <= t < |logits| ensures out[t] == if Masked(words, past, t) then NegInf else logits[t] {
      assert Masked(words, past, t) <==> MaskedBy(words, [], true, t) || MaskedBy(words, past, false, t) by {
        if Masked(words, past, t) {
          var i :| 0 <= i < |words| && Completes(words[i], past, t);
          if |words[i]| == 1 {
            assert Completes(words[i], [], t);
          }
        }
        if MaskedBy(words, [], true, t) {
          var i :| 0 <= i < |words| && |words[i]| == 1 && Completes(words[i], [], t);
          assert Completes(words[i], past, t);
        }
      }
    }
  }

  class NoBadWordsLogitsProcessor {
    const badWordsIds: seq<Word>
    var wordBias: Option<seq<Logit>>

    constructor (badWordsIds: seq<Word>)
      ensures this.badWordsIds == badWordsIds && wordBias == None
    {
      this.badWordsIds := badWordsIds;
      wordBias := None;
    }

    /** The lazily built bias, once built, marks the one-token words. */
    ghost predicate Valid()
      reads this
    {
      wordBias.Some? ==>
        && InBounds(badWordsIds, |wordBias.value|)
        && IsBias(wordBias.value, |wordBias.value|, badWordsIds, [], true)
    }

    /** _check_token_ids_bounds: lists the offending ids in order. */
    method CheckTokenIdsBounds(vocab: nat) returns (invalid: seq<int>)
      ensures invalid == InvalidIds(badWordsIds, vocab)
      ensures invalid == [] <==> InBounds(badWordsIds, vocab)
    {
      invalid := [];
      for i := 0 to |badWordsIds|
        invariant invalid == InvalidIds(badWordsIds[..i], vocab)
      {
        var w := badWordsIds[i];
        ghost var before := invalid;
        assert before + InvalidIn(w[..0], vocab) == before;
        for j := 0 to |w|
          invariant invalid == before + InvalidIn(w[..j], vocab)
        {
          assert w[..j + 1][..j] == w[..j];
          if w[j] < 0 || w[j] >= vocab {
            invalid := invalid + [w[j]];
          }
        }
        assert w[..|w|] == w && badWordsIds[..i + 1][..i] == badWordsIds[..i];
      }
      assert badWordsIds[..|badWordsIds|] == badWordsIds;
      InvalidIdsNone(badWordsIds, vocab);
    }

    /** _init_word_bias. */
    method InitWordBias(vocab: nat) returns (r: Result<()>)
      requires wordBias == None
      modifies this
      ensures r.Ok? <==> InBounds(badWordsIds, vocab)
      ensures r.Ok? ==> Valid() && wordBias.Some? && |wordBias.value| == vocab
      ensures !r.Ok? ==> r == ValueError(InvalidIds(badWordsIds, vocab)) && wordBias == None
    {
      hide IsBias, MaskedBy, InBounds;
      var invalid := CheckTokenIdsBounds(vocab);
      if invalid != [] {
        return ValueError(invalid);
      }
      var bias := seq(vocab, _ => ZERO);
      NoBias(bias, vocab, badWordsIds, [], true);
      for i := 0 to |badWordsIds|
        invariant IsBias(bias, vocab, badWordsIds[..i], [], true)
      {
        var w := badWordsIds[i];
        if |w| == 1 {
          IdInBounds(badWordsIds, vocab, i, 0);
          BiasSize(bias, vocab, badWordsIds[..i], [], true);
          SetBias(bias, vocab, badWordsIds, i, [], true);
          bias := bias[w[|w| - 1] := NegInf];
        } else {
          KeepBias(bias, vocab, badWordsIds, i, [], true);
        }
      }
      assert badWordsIds[..|badWordsIds|] == badWordsIds;
      BiasSize(bias, vocab, badWordsIds, [], true);
      wordBias := Some(bias);
      return Ok(());
    }

    /** The loop of lines 66-83: the bias on the last tokens of longer words. */
    method LastTokenBias(past: seq<int>, vocab: nat) returns (r: Result<seq<Logit>>)
      requires InBounds(badWordsIds, vocab)
      ensures r.Ok? <==> NoEmptyWord(badWordsIds)
      ensures !r.Ok? ==> r.IndexError?
      ensures r.Ok? ==> IsBias(r.value, vocab, badWordsIds, past, false)
    {
      hide IsBias, MaskedBy, InBounds;
      var bias := seq(vocab, _ => ZERO);
      NoBias(bias, vocab, badWordsIds, past, false);
      for i := 0 to |badWordsIds|
        invariant IsBias(bias, vocab, badWordsIds[..i], past, false)
        invariant NoEmptyWord(badWordsIds[..i])
      {
        var w := badWordsIds[i];
        assert badWordsIds[..i + 1] == badWordsIds[..i] + [w];
        if |w| == 1 || |w| > |past| + 1 {
          KeepBias(bias, vocab, badWordsIds, i, past, false);
          continue;
        }
        if w == [] {
          return IndexError;
        }
        var prefixLength := |w| - 1;
        var last := w[|w| - 1];
        var actual := past[|past| - prefixLength..];
        var expected := w[..prefixLength];
        if |actual| != |expected| {
          return AssertionError;
        }
        IdInBounds(badWordsIds, vocab, i, |w| - 1);
        BiasSize(bias, vocab, badWordsIds[..i], past, false);
        if actual == expected {
          SetBias(bias, vocab, badWordsIds, i, past, false);
          bias := bias[last := Plus(bias[last], NegInf)];
        } else {
          KeepBias(bias, vocab, badWordsIds, i, past, false);
          AddZero(bias, vocab, badWordsIds[..i], past, false, last);
          bias := bias[last := Plus(bias[last], ZERO)];
        }
      }
      assert badWordsIds[..|badWordsIds|] == badWordsIds;
      return Ok(bias);
    }

    /** __call__: exactly the tokens that complete a bad word are masked, all others keep their
        logit.  Out-of-range ids fail on the first call, an empty word on every call. */
    method Call(past: seq<int>, logits: seq<Logit>) returns (r: Result<seq<Logit>>)
      requires Valid() && (wordBias.Some? ==> |wordBias.value| == |logits|)
      modifies this
      ensures Valid() && (wordBias.Some? ==> |wordBias.value| == |logits|)
      ensures r.Ok? <==> InBounds(badWordsIds, |logits|) && NoEmptyWord(badWordsIds)
      ensures r.Ok? ==> Processed(badWordsIds, past, logits, r.value)
      ensures r.ValueError? <==> !InBounds(badWordsIds, |logits|)
      ensures r.ValueError? ==> r.invalid == InvalidIds(badWordsIds, |logits|)
      ensures !r.AssertionError?
    {
      hide IsBias, MaskedBy, Processed;
      if wordBias.None? {
        var init := InitWordBias(|logits|);
        if init.ValueError? {
          return ValueError(init.invalid);
        }
      }
      var last := LastTokenBias(past, |logits|);
      if !last.Ok? {
        return IndexError;
      }
      BiasSize(last.value, |logits|, badWordsIds, past, false);
      var bias := wordBias.value;
      var out := seq(|logits|, t requires 0 <= t < |logits| && |bias| == |last.value| == |logits| =>
                       Plus(Plus(logits[t], bias[t]), last.value[t]));
      BiasesMask(badWordsIds, past, logits, bias, last.value, out);
      return Ok(out);
    }
  }

  // ----- steps of the loops

  lemma IdInBounds(words: seq<Word>, vocab: nat, i: nat, j: nat)
    requires InBounds(words, vocab) && i < |words| && j < |words[i]|
    ensures 0 <= words[i][j] < vocab
  {
  }

  lemma NoBias(bias: seq<Logit>, vocab: nat, words: seq<Word>, past: seq<int>, single: bool)
    requires |bias| == vocab && forall t :: 0 <= t < vocab ==> bias[t] == ZERO
    ensures IsBias(bias, vocab, words[..0], past, single)
  {
  }

  lemma BiasSize(bias: seq<Logit>, vocab: nat, words: seq<Word>, past: seq<int>, single: bool)
    requires IsBias(bias, vocab, words, past, single)
    ensures |bias| == vocab
  {
  }

  /** A word that is skipped, or whose prefix does not match, changes nothing. */
  lemma KeepBias(bias: seq<Logit>, vocab: nat, words: seq<Word>, k: nat, past: seq<int>, single: bool)
    requires k < |words| && IsBias(bias, vocab, words[..k], past, single)
    requires (single <==> |words[k]| == 1) ==> forall t :: !Completes(words[k], past, t)
    ensures IsBias(bias, vocab, words[..k + 1], past, single)
  {
    forall t | 0 <= t < vocab
      ensures MaskedBy(words[..k + 1], past, single, t) <==> MaskedBy(words[..k], past, single, t)
    {
    }
  }

  /** A word whose prefix matches masks its last token. */
  lemma SetBias(bias: seq<Logit>, vocab: nat, words: seq<Word>, k: nat, past: seq<int>, single: bool)
    requires k < |words| && IsBias(bias, vocab, words[..k], past, single)
    requires words[k] != [] && 0 <= words[k][|words[k]| - 1] < vocab
    requires (single <==> |words[k]| == 1) && Completes(words[k], past, words[k][|words[k]| - 1])
    ensures IsBias(bias[words[k][|words[k]| - 1] := NegInf], vocab, words[..k + 1], past, single)
  {
    forall t | 0 <= t < vocab
      ensures MaskedBy(words[..k + 1], past, single, t) <==>
              MaskedBy(words[..k], past, single, t) || t == words[k][|words[k]| - 1]
    {
    }
  }

  lemma AddZero(bias: seq<Logit>, vocab: nat, words: seq<Word>, past: seq<int>, single: bool, t: int)
    requires IsBias(bias, vocab, words, past, single) && 0 <= t < vocab
    ensures bias[t := Plus(bias[t], ZERO)] == bias
  {
  }

  // ----- whole generations

  /** Word w appears in the tokens. */
  ghost predicate Occurs(w: Word, tokens: seq<int>) {
    exists k: nat :: OccursAt(w, tokens, k)
  }

  predicate OccursAt(w: Word, tokens: seq<int>, k: nat) {
    k + |w| <= |tokens| && tokens[k..k + |w|] == w
  }

  /** Every step picks a token whose processed logit is not minus infinity. */
  ghost predicate Generation(words: seq<Word>, tokens: seq<int>, logits: seq<seq<Logit>>, outs: seq<seq<Logit>>) {
    && |tokens| == |logits| == |outs|
    && forall i :: 0 <= i < |tokens| ==>
         && Processed(words, tokens[..i], logits[i], outs[i])
         && 0 <= tokens[i] < |outs[i]|
         && !outs[i][tokens[i]].NegInf?
  }

  lemma CompletesOccurs(w: Word, tokens: seq<int>, e: nat)
    requires e < |tokens| && Completes(w, tokens[..e], tokens[e])
    ensures Occurs(w, tokens)
  {
    var k := e - (|w| - 1);
    assert tokens[..e][k..] == tokens[k..e];
    assert tokens[k..k + |w|] == tokens[k..e] + [tokens[e]];
    assert w == w[..|w| - 1] + [w[|w| - 1]];
    assert OccursAt(w, tokens, k);
  }

  /** A sequence of tokens never picks a masked token exactly when it contains no bad word. */
  lemma UnmaskedIffClean(words: seq<Word>, tokens: seq<int>)
    ensures (forall i :: 0 <= i < |tokens| ==> !Masked(words, tokens[..i], tokens[i])) <==>
            (forall j :: 0 <= j < |words| && words[j] != [] ==> !Occurs(words[j], tokens))
  {
    if j :| 0 <= j < |words| && words[j] != [] && Occurs(words[j], tokens) {
      var w := words[j];
      var k: nat :| OccursAt(w, tokens, k);
      assert Masked(words, tokens[..k + |w| - 1], tokens[k + |w| - 1]);
    }
    if i :| 0 <= i < |tokens| && Masked(words, tokens[..i], tokens[i]) {
      var j :| 0 <= j < |words| && Completes(words[j], tokens[..i], tokens[i]);
      CompletesOccurs(words[j], tokens, i);
    }
  }

  /** Safety: no non-empty bad word ever appears in the generated tokens. */
  lemma GenerationIsClean(words: seq<Word>, tokens: seq<int>, logits: seq<seq<Logit>>, outs: seq<seq<Logit>>)
    requires Generation(words, tokens, logits, outs)
    ensures forall j :: 0 <= j < |words| && words[j] != [] ==> !Occurs(words[j], tokens)
  {
    forall i | 0 <= i < |tokens| ensures !Masked(words, tokens[..i], tokens[i]) {
      assert Processed(words, tokens[..i], logits[i], outs[i]);
    }
    UnmaskedIffClean(words, tokens);
  }

  /** Completeness: from finite logits, any tokens without a bad word can be generated. */
  lemma CleanIsGeneration(words: seq<Word>, tokens: seq<int>, logits: seq<seq<Logit>>, outs: seq<seq<Logit>>)
    requires |tokens| == |logits| == |outs|
    requires forall i :: 0 <= i < |tokens| ==> Processed(words, tokens[..i], logits[i], outs[i])
    requires forall i :: 0 <= i < |tokens| ==> 0 <= tokens[i] < |logits[i]| && logits[i][tokens[i]].Fin?
    requires forall j :: 0 <= j < |words| && words[j] != [] ==> !Occurs(words[j], tokens)
    ensures Generation(words, tokens, logits, outs)
  {
    UnmaskedIffClean(words, tokens);
    forall i | 0 <= i < |tokens| ensures !outs[i][tokens[i]].NegInf? && 0 <= tokens[i] < |outs[i]| {
      assert Processed(words, tokens[..i], logits[i], outs[i]);
    }
  }
}
