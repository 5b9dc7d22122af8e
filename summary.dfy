/**
 * `summarize_bullets` and `explain_text`: one bullet line per summary
 * sentence, from the LexRank summariser or, when a language resource is
 * missing, from the first sentences of the text.
 */
module Summary {
  import opened Wrappers
  import opened Text
  import opened Nlp

  /**
   * How the LexRank summariser ended for a text and a sentence count: the
   * chosen sentences; any `LookupError` (a missing language resource, or an
   * `IndexError` or `KeyError` raised inside it), the one exception family
   * the function catches; or any other exception.
   */
  datatype RankOutcome = Ranked(sentences: seq<string>) | ResourceMissing | RankFailed(message: string)

  /** The sentence count `explain_text` asks for. */
  const ExplainSentences: nat := 5

  /** The bullet line of each sentence, in order. */
  function BulletLines(sentences: seq<string>): (lines: seq<string>)
    ensures |lines| == |sentences|
    ensures forall i :: 0 <= i < |sentences| ==> lines[i] == "- " + sentences[i]
  {
    if sentences == [] then []
    else BulletLines(sentences[..|sentences| - 1]) + ["- " + sentences[|sentences| - 1]]
  }

  /** The bullet lines joined with newlines, the format of both paths. */
  function Bullets(sentences: seq<string>): string {
    Join("\n", BulletLines(sentences))
  }

  /** The fallback's sentences: the first `n`, or all of them when there are fewer. */
  function FirstSentences(sentences: seq<string>, n: nat): seq<string> {
    Take(sentences, n)
  }

  /**
   * What `summarize_bullets(text, n)` returns, or the message of the
   * exception that escapes it (any LexRank failure other than a missing
   * resource, or a tokenizer failure inside the fallback).
   */
  function SummarizeBullets(text: string, n: nat, lexRank: (string, nat) -> RankOutcome, tokenize: string -> Tokenized)
    : (r: Result<string, string>)
    ensures r.Failure? <==> lexRank(text, n).RankFailed? || (lexRank(text, n).ResourceMissing? && tokenize(text).TokenizeFailed?)
    ensures lexRank(text, n).RankFailed? ==> r == Failure(lexRank(text, n).message)
  {
    match lexRank(text, n)
    case Ranked(summary) => Success(Bullets(summary))
    case RankFailed(message) => Failure(message)
    case ResourceMissing =>
      match tokenize(text)
      case TokenizeFailed(message) => Failure(message)
      case Sentences(sentences) => Success(Bullets(FirstSentences(sentences, n)))
  }

  /** `explain_text`: a summary of five sentences, failing only as `summarize_bullets` does. */
  function Explain(text: string, lexRank: (string, nat) -> RankOutcome, tokenize: string -> Tokenized)
    : (r: Result<string, string>)
    ensures r.Failure? <==> lexRank(text, ExplainSentences).RankFailed?
                            || (lexRank(text, ExplainSentences).ResourceMissing? && tokenize(text).TokenizeFailed?)
  {
    SummarizeBullets(text, ExplainSentences, lexRank, tokenize)
  }

  /**
   * Bullets read back line by line: splitting on newlines gives exactly one
   * "- "-prefixed line per sentence, in order, as long as no sentence holds a
   * newline itself; no sentences give the empty string.
   */
  lemma BulletsSplitIntoLines(sentences: seq<string>)
    requires forall i :: 0 <= i < |sentences| ==> '\n' !in sentences[i]
    ensures sentences == [] ==> Bullets(sentences) == ""
    ensures sentences != [] ==>
              var lines := SplitOn('\n', Bullets(sentences));
              |lines| == |sentences| && forall i :: 0 <= i < |lines| ==> lines[i] == "- " + sentences[i]
  {
    var lines := BulletLines(sentences);
    if sentences != [] {
      forall i | 0 <= i < |lines| ensures '\n' !in lines[i] {
        assert lines[i] == "- " + sentences[i];
      }
      SplitOnJoin('\n', lines);
    }
  }

  /**
   * The fallback: exactly min(n, number of sentences) bullet lines, line i
   * being sentence i; nothing at all when n is 0 or there are no sentences.
   */
  lemma FallbackTakesFirstSentences(text: string, n: nat, lexRank: (string, nat) -> RankOutcome, tokenize: string -> Tokenized)
    requires lexRank(text, n) == ResourceMissing && tokenize(text).Sentences?
    requires forall i :: 0 <= i < |tokenize(text).sentences| ==> '\n' !in tokenize(text).sentences[i]
    ensures SummarizeBullets(text, n, lexRank, tokenize).Success?
    ensures var sentences := tokenize(text).sentences;
            var summary := SummarizeBullets(text, n, lexRank, tokenize).value;
            && (n == 0 || sentences == [] ==> summary == "")
            && (n > 0 && sentences != [] ==>
                  var lines := SplitOn('\n', summary);
                  |lines| == Min(n, |sentences|)
                  && forall i :: 0 <= i < |lines| ==> lines[i] == "- " + sentences[i])
  {
    var sentences := tokenize(text).sentences;
    var first := FirstSentences(sentences, n);
    forall i | 0 <= i < |first| ensures '\n' !in first[i] {
      assert first[i] == sentences[i];
    }
    BulletsSplitIntoLines(first);
  }

  /**
   * Both paths format alike: each line of a summary is a bullet holding one
   * sentence, whichever path produced it, when no sentence holds a newline.
   */
  lemma EveryLineIsABullet(text: string, n: nat, lexRank: (string, nat) -> RankOutcome, tokenize: string -> Tokenized)
    requires lexRank(text, n).Ranked? ==> forall i :: 0 <= i < |lexRank(text, n).sentences| ==> '\n' !in lexRank(text, n).sentences[i]
    requires tokenize(text).Sentences? ==> forall i :: 0 <= i < |tokenize(text).sentences| ==> '\n' !in tokenize(text).sentences[i]
    requires SummarizeBullets(text, n, lexRank, tokenize).Success?
    requires SummarizeBullets(text, n, lexRank, tokenize).value != ""
    ensures forall line :: line in SplitOn('\n', SummarizeBullets(text, n, lexRank, tokenize).value) ==> StartsWith(line, "- ")
  {
    var chosen := if lexRank(text, n).Ranked? then lexRank(text, n).sentences
                  else FirstSentences(tokenize(text).sentences, n);
    forall i | 0 <= i < |chosen| ensures '\n' !in chosen[i] {
      if !lexRank(text, n).Ranked? {
        assert chosen[i] == tokenize(text).sentences[i];
      }
    }
    BulletsSplitIntoLines(chosen);
    var lines := SplitOn('\n', Bullets(chosen));
    forall line | line in lines ensures StartsWith(line, "- ") {
      var i :| 0 <= i < |lines| && lines[i] == line;
      assert line == "- " + chosen[i];
    }
  }

  /** An explanation that falls back never has more than five bullet lines. */
  lemma ExplainFallbackAtMostFive(text: string, lexRank: (string, nat) -> RankOutcome, tokenize: string -> Tokenized)
    requires lexRank(text, ExplainSentences) == ResourceMissing && tokenize(text).Sentences?
    requires forall i :: 0 <= i < |tokenize(text).sentences| ==> '\n' !in tokenize(text).sentences[i]
    requires Explain(text, lexRank, tokenize).Success? && Explain(text, lexRank, tokenize).value != ""
    ensures |SplitOn('\n', Explain(text, lexRank, tokenize).value)| <= ExplainSentences
  {
    FallbackTakesFirstSentences(text, ExplainSentences, lexRank, tokenize);
  }
}
