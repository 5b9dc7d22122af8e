/**
 * What the chatbot receives from its natural-language library: the
 * sentence tokenizer's split of a text and WordNet's first synonym of a word.
 * Both are given to the model as functions; these are their results.
 */
module Nlp {

  /** The sentence tokenizer's result: the sentences in order, or the message of the exception it raised. */
  datatype Tokenized = Sentences(sentences: seq<string>) | TokenizeFailed(message: string)

  /**
   * WordNet's answer for one word: no synsets; the name of the first lemma
   * of the first synset; or the message of the exception the lookup raised.
   */
  datatype SynLookup = NoSynsets | FirstLemma(name: string) | LookupFailed(message: string)
}
