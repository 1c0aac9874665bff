/**
  `NoBadWordsLogitsProcessor`: tokens that would complete a listed word get logit
  minus infinity.  Logits are reals or minus infinity.
 */
module BadWords {
  import opened Collections

  datatype Logit = NegInf | Fin(v: real) {
    /** Addition with minus infinity absorbing. */
    function Plus(other: Logit): (r: Logit)
      ensures r.NegInf? <==> NegInf? || other.NegInf?
    {
      if NegInf? || other.NegInf? then NegInf else Fin(v + other.v)
    }
  }

  datatype Result = Ok(logits: seq<Logit>) | InvalidTokenIds | EmptyWord

  type Word = seq<int>

  ghost predicate InVocabulary(words: seq<Word>, size: int) {
    forall i, j :: 0 <= i < |words| && 0 <= j < |words[i]| ==> 0 <= words[i][j] < size
  }

  /** Appending `token` to `past` would complete `word`. */
  ghost predicate Completes(word: Word, past: seq<int>, token: int) {
    && word != [] && word[|word| - 1] == token && |word| - 1 <= |past|
    && past[|past| - (|word| - 1)..] == word[..|word| - 1]
  }

  ghost predicate Banned(words: seq<Word>, past: seq<int>, token: int) {
    exists w :: w in words && Completes(w, past, token)
  }

  /** Bias of the one-token words among the first `n`. */
  ghost predicate IsWordBias(words: seq<Word>, size: nat, bias: seq<Logit>) {
    && |bias| == size
    && forall t :: 0 <= t < size ==> bias[t] == if [t] in words then NegInf else Fin(0.0)
  }

  /** Some listed word of two or more tokens would be completed. */
  ghost predicate LongBanned(words: seq<Word>, past: seq<int>, token: int) {
    exists w :: w in words && |w| > 1 && Completes(w, past, token)
  }

  lemma LongBannedSnoc(words: seq<Word>, word: Word, past: seq<int>, token: int)
    ensures LongBanned(words + [word], past, token) <==>
            LongBanned(words, past, token) || (|word| > 1 && Completes(word, past, token))
  {
    var more := words + [word];
    assert forall w :: w in more <==> w in words || w == word;
    if LongBanned(more, past, token) {
      var w :| w in more && |w| > 1 && Completes(w, past, token);
    } else {
      assert word in more;
    }
  }

  ghost predicate IsLastTokenBias(words: seq<Word>, past: seq<int>, size: nat, bias: seq<Logit>) {
    && |bias| == size
    && forall t :: 0 <= t < size ==> bias[t] == if LongBanned(words, past, t) then NegInf else Fin(0.0)
  }

  class Processor {
    const badWords: seq<Word>
    var wordBias: Option<seq<Logit>>

    constructor (words: seq<Word>)
      ensures badWords == words && wordBias == None
    {
      badWords := words;
      wordBias := None;
    }

    /** Once set, the one-token bias is right for its vocabulary and the list is in bounds. */
    ghost predicate Valid()
      reads this
    {
      wordBias.Some? ==>
        IsWordBias(badWords, |wordBias.value|, wordBias.value) && InVocabulary(badWords, |wordBias.value|)
    }

    method CheckTokenIdsBounds(size: int) returns (ok: bool)
      ensures ok <==> InVocabulary(badWords, size)
    {
      ok := true;
      for i := 0 to |badWords|
        invariant ok <==> forall a, b :: 0 <= a < i && 0 <= b < |badWords[a]| ==> 0 <= badWords[a][b] < size
      {
        for j := 0 to |badWords[i]|
          invariant ok <==>
            (forall a, b :: 0 <= a < i && 0 <= b < |badWords[a]| ==> 0 <= badWords[a][b] < size) &&
            (forall b :: 0 <= b < j ==> 0 <= badWords[i][b] < size)
        {
          if badWords[i][j] < 0 || badWords[i][j] >= size {
            ok := false;
          }
        }
      }
    }

    /** `_init_word_bias`; ValueError leaves the field unset. */
    method InitWordBias(size: nat) returns (ok: bool)
      requires Valid() && wordBias == None
      modifies this`wordBias
      ensures Valid()
      ensures ok <==> InVocabulary(badWords, size)
      ensures ok ==> wordBias.Some? && |wordBias.value| == size
      ensures !ok ==> wordBias == None
    {
      ok := CheckTokenIdsBounds(size);
      if !ok {
        return;
      }
      var bias: seq<Logit> := seq(size, _ => Fin(0.0));
      for i := 0 to |badWords|
        invariant IsWordBias(badWords[..i], size, bias)
      {
        assert badWords[..i + 1] == badWords[..i] + [badWords[i]];
        if |badWords[i]| == 1 {
          assert badWords[i] == [badWords[i][0]];
          bias := bias[badWords[i][0] := NegInf];
        }
      }
      assert badWords[..|badWords|] == badWords;
      wordBias := Some(bias);
    }

    /** The loop over multi-token words. */
    method LastTokenBias(past: seq<int>, size: nat) returns (r: Option<seq<Logit>>)
      requires InVocabulary(badWords, size)
      ensures r.None? <==> [] in badWords
      ensures r.Some? ==> IsLastTokenBias(badWords, past, size, r.value)
    {
      var bias: seq<Logit> := seq(size, _ => Fin(0.0));
      for i := 0 to |badWords|
        invariant [] !in badWords[..i] && IsLastTokenBias(badWords[..i], past, size, bias)
      {
        var word := badWords[i];
        assert badWords[..i + 1] == badWords[..i] + [word];
        if word == [] {
          return None;
        }
        forall t
          ensures LongBanned(badWords[..i + 1], past, t) <==>
                  LongBanned(badWords[..i], past, t) || (|word| > 1 && Completes(word, past, t))
        {
          LongBannedSnoc(badWords[..i], word, past, t);
        }
        if |word| != 1 && |word| <= |past| + 1 {
          var prefixLength := |word| - 1;
          var last := word[prefixLength];
          var isMatch := past[|past| - prefixLength..] == word[..prefixLength];
          bias := bias[last := bias[last].Plus(if isMatch then NegInf else Fin(0.0))];
        }
      }
      assert badWords[..|badWords|] == badWords;
      r := Some(bias);
    }

    /** `__call__`: exactly the completing tokens are suppressed, everything else is untouched. */
    method Call(past: seq<int>, logits: seq<Logit>) returns (r: Result)
      requires Valid() && (wordBias.Some? ==> |wordBias.value| == |logits|)
      modifies this`wordBias
      ensures Valid() && (wordBias.Some? ==> |wordBias.value| == |logits|)
      ensures r.InvalidTokenIds? <==> !InVocabulary(badWords, |logits|)
      ensures r.EmptyWord? <==> InVocabulary(badWords, |logits|) && [] in badWords
      ensures r.Ok? ==> |r.logits| == |logits|
      ensures r.Ok? ==> forall t :: 0 <= t < |logits| ==>
                r.logits[t] == if Banned(badWords, past, t) then NegInf else logits[t]
    {
      if wordBias.None? {
        var ok := InitWordBias(|logits|);
        if !ok {
          return InvalidTokenIds;
        }
      }
      var size := |logits|;
      var lastBias := LastTokenBias(past, size);
      if lastBias.None? {
        return EmptyWord;
      }
      var bias, last := wordBias.value, lastBias.value;
      var out := seq(size, t requires 0 <= t < size => logits[t].Plus(bias[t]).Plus(last[t]));
      forall t | 0 <= t < size
        ensures out[t] == if Banned(badWords, past, t) then NegInf else logits[t]
      {
        BannedSplits(badWords, past, t);
      }
      r := Ok(out);
    }
  }

  /** A token is banned by a one-token word or by a longer one. */
  lemma BannedSplits(words: seq<Word>, past: seq<int>, t: int)
    ensures Banned(words, past, t) <==>
            [t] in words || LongBanned(words, past, t)
  {
    if [t] in words {
      assert past[|past|..] == [] && [t][..0] == [];
      assert Completes([t], past, t);
    }
    if Banned(words, past, t) {
      var w :| w in words && Completes(w, past, t);
      if |w| == 1 {
        assert w == [t];
      }
    }
  }

  // ---------------------------------------------------------------- whole generations

  /** Every token of `output` was sampled where its processed logit was above minus infinity. */
  ghost predicate Sampled(words: seq<Word>, output: seq<int>) {
    forall i :: 0 <= i < |output| ==> !Banned(words, output[..i], output[i])
  }

  ghost predicate ContainsAt(output: seq<int>, word: Word, at: nat) {
    at + |word| <= |output| && output[at..at + |word|] == word
  }

  /** Safety of whole runs, both ways: generating only unsuppressed tokens keeps every listed
      nonempty word out, and an output without listed words could have been generated. */
  lemma SampledIffClean(words: seq<Word>, output: seq<int>)
    ensures Sampled(words, output) <==>
            forall w, at: nat :: w in words && w != [] ==> !ContainsAt(output, w, at)
  {
    forall w, at: nat | w in words && w != [] && ContainsAt(output, w, at)
      ensures !Sampled(words, output)
    {
      var i := at + |w| - 1;
      OccurrenceCompletes(output, w, at);
      assert Banned(words, output[..i], output[i]);
    }
    forall i | 0 <= i < |output| && Banned(words, output[..i], output[i])
      ensures exists w, at: nat :: w in words && w != [] && ContainsAt(output, w, at)
    {
      var w :| w in words && Completes(w, output[..i], output[i]);
      CompletionOccurs(output, w, i);
      assert ContainsAt(output, w, i + 1 - |w|);
    }
  }

  lemma OccurrenceCompletes(output: seq<int>, w: Word, at: nat)
    requires w != [] && ContainsAt(output, w, at)
    ensures var i := at + |w| - 1; Completes(w, output[..i], output[i])
  {
    var i, n := at + |w| - 1, |w| - 1;
    assert output[at..at + |w|][n] == output[i];
    assert output[..i][|output[..i]| - n..] == output[at..i] == output[at..at + |w|][..n];
  }

  lemma CompletionOccurs(output: seq<int>, w: Word, i: nat)
    requires i < |output| && Completes(w, output[..i], output[i])
    ensures i + 1 - |w| >= 0 && ContainsAt(output, w, i + 1 - |w|)
  {
    var at, n := i + 1 - |w|, |w| - 1;
    assert output[..i][i - n..] == output[at..i];
    assert output[at..at + |w|] == output[at..i] + [output[i]];
    assert w == w[..n] + [w[n]];
  }

  /** Token `i` of `sample` may follow the ones before it: the processor accepts the word list,
      and the token has a logit above minus infinity and completes no listed word. */
  ghost predicate MayFollow(words: seq<Word>, steps: seq<seq<Logit>>, sample: seq<int>, size: nat, i: nat)
    requires i < |sample| == |steps| && |steps[i]| == size
  {
    && InVocabulary(words, size) && [] !in words
    && 0 <= sample[i] < size && steps[i][sample[i]] != NegInf
    && !Banned(words, sample[..i], sample[i])
  }

  /** A generation loop around the processor: it appends the sampled tokens as long as they are not
      suppressed, and stops exactly at the first one that may not follow. */
  method Generate(p: Processor, steps: seq<seq<Logit>>, sample: seq<int>, size: nat) returns (output: seq<int>)
    requires p.Valid() && (p.wordBias.Some? ==> |p.wordBias.value| == size)
    requires |steps| == |sample| && forall i :: 0 <= i < |steps| ==> |steps[i]| == size
    modifies p`wordBias
    ensures forall w, at: nat :: w in p.badWords && w != [] ==> !ContainsAt(output, w, at)
    ensures output <= sample
    ensures forall i :: 0 <= i < |output| ==> MayFollow(p.badWords, steps, sample, size, i)
    ensures |output| < |sample| ==> !MayFollow(p.badWords, steps, sample, size, |output|)
  {
    output := [];
    for i := 0 to |steps|
      invariant p.Valid() && (p.wordBias.Some? ==> |p.wordBias.value| == size)
      invariant output == sample[..i]
      invariant forall j :: 0 <= j < i ==> MayFollow(p.badWords, steps, sample, size, j)
    {
      var r := p.Call(output, steps[i]);
      if !r.Ok? || !(0 <= sample[i] < size) || r.logits[sample[i]] == NegInf {
        break;
      }
      output := output + [sample[i]];
    }
    forall j | 0 <= j < |output|
      ensures !Banned(p.badWords, output[..j], output[j])
    {
      assert MayFollow(p.badWords, steps, sample, size, j) && output[..j] == sample[..j];
    }
    SampledIffClean(p.badWords, output);
  }
}
