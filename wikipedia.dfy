/**
 * `search_wikipedia`: the outcome of the encyclopedia lookup, mapped to the
 * text the chatbot answers with, or to `None` when no page exists.
 */
module Wikipedia {
  import opened Wrappers
  import opened Text

  /** How the library's two-sentence summary call ended for one query. */
  datatype WikiOutcome =
    | Summary(text: string)                 // the call returned a summary
    | Disambiguation(options: seq<string>)  // it raised DisambiguationError with these options
    | PageMissing                           // it raised PageError
    | Failed(message: string)               // it raised any other exception; `message` is str(e)

  /** The number of disambiguation options shown to the user. */
  const ShownOptions: nat := 5

  /** The disambiguation answer: it quotes each of the first five options, in Python's list notation. */
  function TooBroadMessage(options: seq<string>): (r: string)
    ensures forall i :: 0 <= i < Min(ShownOptions, |options|) ==> Contains(r, Repr(options[i]))
  {
    var lead := "Your query was too broad. Try being more specific. Options: ";
    var shown := ListRepr(Take(options, ShownOptions));
    forall i | 0 <= i < Min(ShownOptions, |options|)
      ensures Contains(lead + shown + "...", Repr(options[i]))
    {
      assert Take(options, ShownOptions)[i] == options[i];
      ContainsWithin(lead, shown, "...", Repr(options[i]));
    }
    lead + shown + "..."
  }

  /** The answer for one lookup outcome: `None` exactly for a missing page, otherwise a non-empty text. */
  function SearchWikipedia(outcome: WikiOutcome): (r: Option<string>)
    ensures r.None? <==> outcome.PageMissing?
    ensures r.Some? ==> r.value != ""
    ensures outcome.Summary? ==> r == Some("(From Wikipedia) " + outcome.text)
  {
    match outcome
    case Summary(text) => Some("(From Wikipedia) " + text)
    case Disambiguation(options) => Some(TooBroadMessage(options))
    case PageMissing => None
    case Failed(message) => Some("Wikipedia error: " + message)
  }

  /** Only the first five disambiguation options reach the answer: lists that agree on them give the same text. */
  lemma DisambiguationShowsFirstFive(a: seq<string>, b: seq<string>)
    requires Take(a, ShownOptions) == Take(b, ShownOptions)
    ensures SearchWikipedia(Disambiguation(a)) == SearchWikipedia(Disambiguation(b))
  {
  }
}
