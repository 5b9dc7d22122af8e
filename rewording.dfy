/**
 * `reword`: replace each word of each sentence by its first WordNet
 * synonym unless that is the same word ignoring case, and join the words,
 * then the sentences, with single spaces.
 */
module Rewording {
  import opened Wrappers
  import opened Text
  import opened Nlp

  /** The text answered when the tokenizer or a lookup raises. */
  function ErrorText(message: string): string {
    "Rewording error: " + message
  }

  /**
   * The word written back for `word`, or the lookup's exception: it fails
   * exactly when the lookup raised, and otherwise gives the word or its synonym.
   */
  function ChooseWord(word: string, lookup: SynLookup): (r: Result<string, string>)
    ensures r.Failure? <==> lookup.LookupFailed?
    ensures r.Failure? ==> r.error == lookup.message
    ensures r.Success? ==> r.value == word || (lookup.FirstLemma? && r.value == ReplaceChar(lookup.name, '_', ' '))
  {
    match lookup
    case NoSynsets => Success(word)
    case FirstLemma(name) =>
      var synonym := ReplaceChar(name, '_', ' ');
      Success(if Lower(synonym) != Lower(word) then synonym else word)
    case LookupFailed(message) => Failure(message)
  }

  /**
   * A word is kept exactly when it has no synsets or its synonym equals it
   * ignoring case; otherwise it becomes the synonym, with no underscore left.
   */
  lemma ChooseWordKeepsIff(word: string, lookup: SynLookup)
    requires !lookup.LookupFailed?
    ensures ChooseWord(word, lookup).Success?
    ensures ChooseWord(word, lookup).value == word
            <==> lookup.NoSynsets? || Lower(ReplaceChar(lookup.name, '_', ' ')) == Lower(word)
    ensures ChooseWord(word, lookup).value != word
            ==> ChooseWord(word, lookup).value == ReplaceChar(lookup.name, '_', ' ')
                && '_' !in ChooseWord(word, lookup).value
  {
  }

  /** The words rewritten in order; the first lookup that raises ends the whole rewrite. */
  function RewordWords(words: seq<string>, synonyms: string -> SynLookup): Result<seq<string>, string> {
    if words == [] then Success([])
    else
      match RewordWords(words[..|words| - 1], synonyms)
      case Failure(e) => Failure(e)
      case Success(done) =>
        var word := words[|words| - 1];
        match ChooseWord(word, synonyms(word))
        case Failure(e) => Failure(e)
        case Success(w) => Success(done + [w])
  }

  /** One sentence rewritten: its `split()` words rewritten and joined with single spaces. */
  function RewordSentence(sentence: string, synonyms: string -> SynLookup): Result<string, string> {
    match RewordWords(Words(sentence), synonyms)
    case Failure(e) => Failure(e)
    case Success(ws) => Success(Join(" ", ws))
  }

  /** The sentences rewritten in order; the first lookup that raises ends the whole rewrite. */
  function RewordSentences(sentences: seq<string>, synonyms: string -> SynLookup): Result<seq<string>, string> {
    if sentences == [] then Success([])
    else
      match RewordSentences(sentences[..|sentences| - 1], synonyms)
      case Failure(e) => Failure(e)
      case Success(done) =>
        match RewordSentence(sentences[|sentences| - 1], synonyms)
        case Failure(e) => Failure(e)
        case Success(s) => Success(done + [s])
  }

  /**
   * What `reword` returns for `text`: when the tokenizer and every lookup
   * succeed, the rewritten sentences joined with single spaces, one per
   * sentence and in order; otherwise a "Rewording error: " text.
   */
  function RewordText(text: string, tokenize: string -> Tokenized, synonyms: string -> SynLookup): (r: string)
    ensures tokenize(text).Sentences? && (forall i :: 0 <= i < |tokenize(text).sentences| ==>
                                            RewordSentence(tokenize(text).sentences[i], synonyms).Success?)
            ==> var sentences := tokenize(text).sentences;
                r == Join(" ", seq(|sentences|, i requires 0 <= i < |sentences| => RewordSentence(sentences[i], synonyms).value))
    ensures (tokenize(text).TokenizeFailed? || exists i :: 0 <= i < |tokenize(text).sentences|
                                                   && RewordSentence(tokenize(text).sentences[i], synonyms).Failure?)
            ==> StartsWith(r, "Rewording error: ")
  {
    match tokenize(text)
    case TokenizeFailed(e) => ErrorText(e)
    case Sentences(sentences) =>
      RewordSentencesPointwise(sentences, synonyms);
      match RewordSentences(sentences, synonyms)
      case Failure(e) => ErrorText(e)
      case Success(rewritten) =>
        assert rewritten == seq(|sentences|, i requires 0 <= i < |sentences| => RewordSentence(sentences[i], synonyms).value);
        Join(" ", rewritten)
  }

  /** Once a prefix of the words has failed, the rewrite of all of them fails the same way. */
  lemma {:induction false} WordFailureSticks(words: seq<string>, k: nat, synonyms: string -> SynLookup)
    requires k <= |words|
    requires RewordWords(words[..k], synonyms).Failure?
    ensures RewordWords(words, synonyms) == RewordWords(words[..k], synonyms)
  {
    if k < |words| {
      var init := words[..|words| - 1];
      assert init[..k] == words[..k];
      WordFailureSticks(init, k, synonyms);
    } else {
      assert words[..k] == words;
    }
  }

  /** Once a prefix of the sentences has failed, the rewrite of all of them fails the same way. */
  lemma {:induction false} SentenceFailureSticks(sentences: seq<string>, k: nat, synonyms: string -> SynLookup)
    requires k <= |sentences|
    requires RewordSentences(sentences[..k], synonyms).Failure?
    ensures RewordSentences(sentences, synonyms) == RewordSentences(sentences[..k], synonyms)
  {
    if k < |sentences| {
      var init := sentences[..|sentences| - 1];
      assert init[..k] == sentences[..k];
      SentenceFailureSticks(init, k, synonyms);
    } else {
      assert sentences[..k] == sentences;
    }
  }

  /**
   * The rewrite succeeds exactly when no lookup raises; then it has one word
   * per input word, each chosen by ChooseWord; otherwise its error is that of
   * the first word whose lookup raised.
   */
  lemma {:induction false} RewordWordsPointwise(words: seq<string>, synonyms: string -> SynLookup)
    ensures RewordWords(words, synonyms).Success?
            <==> forall i :: 0 <= i < |words| ==> !synonyms(words[i]).LookupFailed?
    ensures RewordWords(words, synonyms).Success? ==>
              |RewordWords(words, synonyms).value| == |words|
              && forall i :: 0 <= i < |words| ==>
                   ChooseWord(words[i], synonyms(words[i])) == Success(RewordWords(words, synonyms).value[i])
    ensures RewordWords(words, synonyms).Failure? ==>
              exists i :: 0 <= i < |words| && synonyms(words[i]) == LookupFailed(RewordWords(words, synonyms).error)
                          && forall j :: 0 <= j < i ==> !synonyms(words[j]).LookupFailed?
  {
    if words != [] {
      var init := words[..|words| - 1];
      var n := |words| - 1;
      RewordWordsPointwise(init, synonyms);
      assert forall i :: 0 <= i < n ==> words[i] == init[i];
      match RewordWords(init, synonyms)
      case Failure(e) => {
        var i :| 0 <= i < |init| && synonyms(init[i]) == LookupFailed(e)
                 && forall j :: 0 <= j < i ==> !synonyms(init[j]).LookupFailed?;
        assert synonyms(words[i]) == LookupFailed(e);
      }
      case Success(done) => {
        if synonyms(words[n]).LookupFailed? {
          assert synonyms(words[n]) == LookupFailed(RewordWords(words, synonyms).error);
        }
      }
    }
  }

  /**
   * The sentence rewrite succeeds exactly when every sentence's does; then it
   * has one rewritten sentence per sentence, in order; otherwise its error is
   * that of the first sentence that failed.
   */
  lemma {:induction false} RewordSentencesPointwise(sentences: seq<string>, synonyms: string -> SynLookup)
    ensures RewordSentences(sentences, synonyms).Success?
            <==> forall i :: 0 <= i < |sentences| ==> RewordSentence(sentences[i], synonyms).Success?
    ensures RewordSentences(sentences, synonyms).Success? ==>
              |RewordSentences(sentences, synonyms).value| == |sentences|
              && forall i :: 0 <= i < |sentences| ==>
                   RewordSentence(sentences[i], synonyms) == Success(RewordSentences(sentences, synonyms).value[i])
    ensures RewordSentences(sentences, synonyms).Failure? ==>
              exists i :: 0 <= i < |sentences|
                          && RewordSentence(sentences[i], synonyms) == Failure(RewordSentences(sentences, synonyms).error)
                          && forall j :: 0 <= j < i ==> RewordSentence(sentences[j], synonyms).Success?
  {
    if sentences != [] {
      var init := sentences[..|sentences| - 1];
      var n := |sentences| - 1;
      RewordSentencesPointwise(init, synonyms);
      assert forall i :: 0 <= i < n ==> sentences[i] == init[i];
      match RewordSentences(init, synonyms)
      case Failure(e) => {
        var i :| 0 <= i < |init| && RewordSentence(init[i], synonyms) == Failure(e)
                 && forall j :: 0 <= j < i ==> RewordSentence(init[j], synonyms).Success?;
        assert RewordSentence(sentences[i], synonyms) == Failure(e);
      }
      case Success(done) => {
        if RewordSentence(sentences[n], synonyms).Failure? {
          assert RewordSentence(sentences[n], synonyms) == Failure(RewordSentences(sentences, synonyms).error);
        }
      }
    }
  }

  /** With no synonyms anywhere, a sentence only has its spacing normalised to single spaces. */
  lemma RewordWithoutSynonyms(sentence: string, synonyms: string -> SynLookup)
    requires forall w :: synonyms(w) == NoSynsets
    ensures RewordSentence(sentence, synonyms) == Success(Join(" ", Words(sentence)))
  {
    var words := Words(sentence);
    RewordWordsPointwise(words, synonyms);
    var out := RewordWords(words, synonyms).value;
    assert out == words;
  }

  /**
   * When every first synonym is a single word, the rewritten sentence splits
   * back into one word per original word, each the ChooseWord choice.
   */
  lemma RewordKeepsWordCount(sentence: string, synonyms: string -> SynLookup)
    requires forall w :: synonyms(w).FirstLemma? ==> IsWord(ReplaceChar(synonyms(w).name, '_', ' '))
    requires RewordSentence(sentence, synonyms).Success?
    ensures var out := Words(RewordSentence(sentence, synonyms).value);
            |out| == |Words(sentence)|
            && forall i :: 0 <= i < |out| ==>
                 ChooseWord(Words(sentence)[i], synonyms(Words(sentence)[i])) == Success(out[i])
  {
    var words := Words(sentence);
    RewordWordsPointwise(words, synonyms);
    var chosen := RewordWords(words, synonyms).value;
    forall i | 0 <= i < |chosen| ensures IsWord(chosen[i]) {
      ChooseWordKeepsIff(words[i], synonyms(words[i]));
    }
    WordsOfJoin(chosen);
  }

  /** The rewording loops of `reword`: one pass over the sentences, one over each sentence's words. */
  method Reword(text: string, tokenize: string -> Tokenized, synonyms: string -> SynLookup) returns (r: string)
    ensures r == RewordText(text, tokenize, synonyms)
  {
    var tokenized := tokenize(text);
    if tokenized.TokenizeFailed? {
      return ErrorText(tokenized.message);
    }
    var sentences := tokenized.sentences;
    var rewritten: seq<string> := [];
    for s := 0 to |sentences|
      invariant RewordSentences(sentences[..s], synonyms) == Success(rewritten)
    {
      assert sentences[..s + 1][..s] == sentences[..s];
      var words := Words(sentences[s]);
      var newWords: seq<string> := [];
      for w := 0 to |words|
        invariant RewordWords(words[..w], synonyms) == Success(newWords)
      {
        assert words[..w + 1][..w] == words[..w];
        var word := words[w];
        match synonyms(word) {
          case NoSynsets =>
            newWords := newWords + [word];
          case FirstLemma(name) =>
            var synonym := ReplaceChar(name, '_', ' ');
            newWords := newWords + [if Lower(synonym) != Lower(word) then synonym else word];
          case LookupFailed(message) =>
            WordFailureSticks(words, w + 1, synonyms);
            SentenceFailureSticks(sentences, s + 1, synonyms);
            return ErrorText(message);
        }
      }
      assert words[..|words|] == words;
      rewritten := rewritten + [Join(" ", newWords)];
    }
    assert sentences[..|sentences|] == sentences;
    r := Join(" ", rewritten);
  }
}
