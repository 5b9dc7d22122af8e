/**
 * The chatbot's conversation loop: one turn reads a line, ignores it when
 * blank, stops on `exit`/`quit`, rewords or explains the last response when
 * asked and one exists, and otherwise answers from Wikipedia, then from the
 * web, then with a fixed apology. The last response is the loop's only state.
 */
module Chat {
  import opened Text
  import opened Nlp
  import opened Wikipedia
  import opened WebSearch
  import opened Rewording
  import opened Summary
  import opened Wrappers

  /** The libraries the chatbot calls, each as a function of its input. */
  datatype Env = Env(
    wikipedia: string -> WikiOutcome,          // the two-sentence summary lookup, by query
    web: string -> WebPage,                    // the results page fetched for a query
    tokenize: string -> Tokenized,             // the sentence tokenizer
    synonyms: string -> SynLookup,             // WordNet's first lemma of a word
    lexRank: (string, nat) -> RankOutcome)     // the LexRank summariser

  /** Whether the loop goes on after a turn, and how it ended otherwise. */
  datatype Status =
    | Continue
    | Quit                  // the user typed exit or quit
    | Crashed(error: string) // an exception escaped summarize_bullets
    | EndOfInput            // input() found no further line

  /** What a turn (or a run of turns) printed, the last response afterwards, and the status. */
  datatype Step = Step(printed: seq<string>, last: string, status: Status)

  const Banner := ["=== Smart AI Chatbot (Local NLP + Wikipedia + Web) ===", "Type 'exit' or 'quit' to stop."]
  const Goodbye := "Assistant: Goodbye!"
  const Sorry := "Assistant: Sorry, I couldn't find an answer."

  predicate IsExitCommand(cmd: string) {
    cmd == "exit" || cmd == "quit"
  }

  predicate AsksReword(cmd: string) {
    Contains(cmd, "reword")
  }

  predicate AsksExplain(cmd: string) {
    Contains(cmd, "explain") || Contains(cmd, "expand") || Contains(cmd, "elaborate")
  }

  /** Neither keyword test can hold of `exit` or `quit`, both shorter than every keyword. */
  lemma KeywordIsNoExit(cmd: string)
    requires AsksReword(cmd) || AsksExplain(cmd)
    ensures cmd != "" && !IsExitCommand(cmd)
  {
    if AsksReword(cmd) {
      ContainsNoLonger(cmd, "reword");
    } else if Contains(cmd, "explain") {
      ContainsNoLonger(cmd, "explain");
    } else if Contains(cmd, "expand") {
      ContainsNoLonger(cmd, "expand");
    } else {
      ContainsNoLonger(cmd, "elaborate");
    }
  }

  function WebLine(idx: nat, result: string): string {
    "Assistant (Web " + NatToString(idx) + "): " + result
  }

  /** The lines printed for the web results, in order. */
  function WebLines(results: seq<string>): seq<string> {
    if results == [] then []
    else WebLines(results[..|results| - 1]) + [WebLine(|results|, results[|results| - 1])]
  }

  /** The web results are printed one per line, in order, numbered from 1. */
  lemma {:induction false} WebLinesNumbered(results: seq<string>)
    ensures |WebLines(results)| == |results|
    ensures forall i :: 0 <= i < |results| ==> WebLines(results)[i] == WebLine(i + 1, results[i])
  {
    if results != [] {
      var init := results[..|results| - 1];
      WebLinesNumbered(init);
      assert forall i :: 0 <= i < |init| ==> results[i] == init[i];
    }
  }

  /** A regular query: Wikipedia first, the web only if that gave nothing, then the apology. */
  function SearchChain(env: Env, query: string): (s: Step)
    ensures s.status == Continue && s.printed != []
  {
    var wiki := SearchWikipedia(env.wikipedia(query));
    if wiki.Some? && wiki.value != "" then
      Step(["Assistant: " + wiki.value], wiki.value, Continue)
    else
      var web := WebAnswer(env.web(query), DefaultMaxResults);
      if web.Some? && web.value != [] then
        Step(WebLines(web.value), web.value[0], Continue)
      else
        Step([Sorry], "", Continue)
  }

  /**
   * One pass of the loop body for the line read and the last response before
   * it. A turn never ends the input; quitting and crashing keep the last
   * response; and a turn prints nothing exactly when the line is blank or the
   * turn crashes.
   */
  function HandleTurn(env: Env, line: string, last: string): (r: Step)
    ensures r.status != EndOfInput
    ensures r.status == Quit ==> r.printed == [Goodbye] && r.last == last
    ensures r.status.Crashed? ==> r.last == last
    ensures r.printed == [] <==> Strip(line) == "" || r.status.Crashed?
  {
    var userInput := Strip(line);
    if userInput == "" then Step([], last, Continue)
    else
      var cmd := Lower(userInput);
      if IsExitCommand(cmd) then Step([Goodbye], last, Quit)
      else if AsksReword(cmd) && last != "" then
        var response := RewordText(last, env.tokenize, env.synonyms);
        Step(["Assistant (Reworded): " + response], response, Continue)
      else if AsksExplain(cmd) && last != "" then
        match Explain(last, env.lexRank, env.tokenize)
        case Failure(e) => Step([], last, Crashed(e))
        case Success(response) => Step(["Assistant (Explained): " + response], response, Continue)
      else
        SearchChain(env, userInput)
  }

  /** A line that is empty after stripping prints nothing and keeps the last response. */
  lemma BlankInputIsIgnored(env: Env, line: string, last: string)
    requires AllSpace(line)
    ensures HandleTurn(env, line, last) == Step([], last, Continue)
  {
    assert Strip(line) == [];
  }

  /** The loop stops exactly on `exit` or `quit` in any case, saying goodbye and keeping the last response. */
  lemma QuitExactlyOnExitCommand(env: Env, line: string, last: string)
    ensures HandleTurn(env, line, last).status == Quit <==> IsExitCommand(Lower(Strip(line)))
    ensures IsExitCommand(Lower(Strip(line))) ==> HandleTurn(env, line, last) == Step([Goodbye], last, Quit)
  {
    var userInput := Strip(line);
    var cmd := Lower(userInput);
    var step := HandleTurn(env, line, last);
    if userInput == "" {
      assert step == Step([], last, Continue);
      assert !IsExitCommand(cmd);
    } else if IsExitCommand(cmd) {
      assert step == Step([Goodbye], last, Quit);
    } else if AsksReword(cmd) && last != "" {
      assert step.status == Continue;
    } else if AsksExplain(cmd) && last != "" {
      assert step.status == Continue || step.status.Crashed?;
    } else {
      assert step == SearchChain(env, userInput);
    }
  }

  /** The exit test accepts `exit` and `quit` with each letter in either case, and nothing else. */
  lemma ExitInAnyCase(userInput: string)
    ensures IsExitCommand(Lower(userInput))
            <==> SameIgnoringAsciiCase(userInput, "exit") || SameIgnoringAsciiCase(userInput, "quit")
  {
    LowerToAsciiWord(userInput, "exit");
    LowerToAsciiWord(userInput, "quit");
  }

  /** The loop quits on `exit` or `quit` typed with each letter in either case, and on nothing else. */
  lemma QuitInAnyCase(env: Env, line: string, last: string)
    ensures HandleTurn(env, line, last).status == Quit
            <==> SameIgnoringAsciiCase(Strip(line), "exit") || SameIgnoringAsciiCase(Strip(line), "quit")
  {
    QuitExactlyOnExitCommand(env, line, last);
    ExitInAnyCase(Strip(line));
  }

  /**
   * With a last response, "reword" anywhere in the line rewords it, makes the
   * result the new last response, and neither searches nor summarises:
   * the turn is the same whatever Wikipedia, the web or LexRank would give,
   * and whatever other keyword the line holds.
   */
  lemma RewordTakesPrecedence(env: Env, line: string, last: string,
                              wiki: string -> WikiOutcome, web: string -> WebPage, lexRank: (string, nat) -> RankOutcome)
    requires AsksReword(Lower(Strip(line))) && last != ""
    ensures var response := RewordText(last, env.tokenize, env.synonyms);
            HandleTurn(env, line, last) == Step(["Assistant (Reworded): " + response], response, Continue)
    ensures HandleTurn(env.(wikipedia := wiki, web := web, lexRank := lexRank), line, last) == HandleTurn(env, line, last)
  {
    KeywordIsNoExit(Lower(Strip(line)));
  }

  /**
   * With a last response, an explain/expand/elaborate line without "reword"
   * answers with the five-sentence summary of the last response, which
   * becomes the new last response, and makes no search.
   */
  lemma ExplainSummarisesLastResponse(env: Env, line: string, last: string,
                                      wiki: string -> WikiOutcome, web: string -> WebPage)
    requires AsksExplain(Lower(Strip(line))) && !AsksReword(Lower(Strip(line))) && last != ""
    ensures Explain(last, env.lexRank, env.tokenize).Success? ==>
              var response := Explain(last, env.lexRank, env.tokenize).value;
              HandleTurn(env, line, last) == Step(["Assistant (Explained): " + response], response, Continue)
    ensures Explain(last, env.lexRank, env.tokenize).Failure? ==>
              HandleTurn(env, line, last).status == Crashed(Explain(last, env.lexRank, env.tokenize).error)
    ensures HandleTurn(env.(wikipedia := wiki, web := web), line, last) == HandleTurn(env, line, last)
  {
    KeywordIsNoExit(Lower(Strip(line)));
  }

  /** Without a last response the keywords do nothing: every non-blank, non-exit line is searched. */
  lemma EmptyLastResponseSearches(env: Env, line: string)
    requires Strip(line) != "" && !IsExitCommand(Lower(Strip(line)))
    ensures HandleTurn(env, line, "") == SearchChain(env, Strip(line))
  {
  }

  /**
   * A non-blank, non-exit line goes to the search chain whenever no keyword
   * applies: it holds no keyword, or there is no last response to work on.
   */
  lemma RegularQuerySearches(env: Env, line: string, last: string)
    requires Strip(line) != "" && !IsExitCommand(Lower(Strip(line)))
    requires (!AsksReword(Lower(Strip(line))) && !AsksExplain(Lower(Strip(line)))) || last == ""
    ensures HandleTurn(env, line, last) == SearchChain(env, Strip(line))
  {
  }

  /**
   * Any Wikipedia outcome but a missing page (a summary, a disambiguation
   * notice, an error text) is the answer and the new last response, and the
   * web is never consulted.
   */
  lemma WikipediaShortCircuits(env: Env, query: string, web: string -> WebPage)
    requires !env.wikipedia(query).PageMissing?
    ensures var answer := SearchWikipedia(env.wikipedia(query)).value;
            SearchChain(env, query) == Step(["Assistant: " + answer], answer, Continue)
    ensures SearchChain(env.(web := web), query) == SearchChain(env, query)
  {
  }

  /**
   * After a missing page, web entries are printed in order, numbered from 1,
   * and the first becomes the last response; with no entries the apology is
   * printed and the last response is cleared.
   */
  lemma WebAnswersAfterMissingPage(env: Env, query: string)
    requires env.wikipedia(query) == PageMissing
    ensures var web := WebAnswer(env.web(query), DefaultMaxResults);
            var step := SearchChain(env, query);
            && (web.Some? ==>
                  && |step.printed| == |web.value|
                  && (forall i :: 0 <= i < |web.value| ==> step.printed[i] == WebLine(i + 1, web.value[i]))
                  && step.last == web.value[0])
            && (web.None? ==> step == Step([Sorry], "", Continue))
  {
    var web := WebAnswer(env.web(query), DefaultMaxResults);
    if web.Some? {
      WebLinesNumbered(web.value);
    }
  }

  /** The last response is cleared exactly when neither Wikipedia nor the web had anything. */
  lemma LastClearedIffNothingFound(env: Env, query: string)
    ensures SearchChain(env, query).last == ""
            <==> env.wikipedia(query).PageMissing? && WebAnswer(env.web(query), DefaultMaxResults).None?
  {
    var web := WebAnswer(env.web(query), DefaultMaxResults);
    if web.Some? {
      assert web.value[0] != "";
    }
  }

  /** Printed lines of a run of turns: those of the earlier turns followed by those of `rest`. */
  function After(shown: seq<string>, rest: Step): Step {
    Step(shown + rest.printed, rest.last, rest.status)
  }

  /** The whole conversation over the lines the user types, from a given last response. */
  function Session(env: Env, inputs: seq<string>, last: string): (s: Step)
    ensures s.status != Continue
  {
    if inputs == [] then Step([], last, EndOfInput)
    else
      var step := HandleTurn(env, inputs[0], last);
      if step.status != Continue then step
      else After(step.printed, Session(env, inputs[1..], step.last))
  }

  /** Once the loop has stopped, later lines are never read. */
  lemma {:induction false} LinesAfterStopAreNotRead(env: Env, inputs: seq<string>, more: seq<string>, last: string)
    requires Session(env, inputs, last).status != EndOfInput
    ensures Session(env, inputs + more, last) == Session(env, inputs, last)
  {
    if inputs != [] {
      assert (inputs + more)[0] == inputs[0];
      assert (inputs + more)[1..] == inputs[1..] + more;
      var step := HandleTurn(env, inputs[0], last);
      if step.status == Continue {
        LinesAfterStopAreNotRead(env, inputs[1..], more, step.last);
      }
    }
  }

  /** One turn of a session: the turn's lines, then the rest of the session if the loop goes on. */
  lemma SessionStep(env: Env, inputs: seq<string>, i: nat, last: string, step: Step)
    requires i < |inputs| && step == HandleTurn(env, inputs[i], last)
    ensures Session(env, inputs[i..], last)
            == After(step.printed, if step.status == Continue then Session(env, inputs[i + 1..], step.last)
                                   else Step([], step.last, step.status))
  {
    assert inputs[i..][0] == inputs[i] && inputs[i..][1..] == inputs[i + 1..];
    if step.status != Continue {
      assert step.printed + [] == step.printed;
    }
  }

  /** Printing `a` and then a run that starts with `b` is printing `a + b` and then the rest of the run. */
  lemma AfterAfter(a: seq<string>, b: seq<string>, rest: Step)
    ensures After(a, After(b, rest)) == After(a + b, rest)
  {
    assert a + (b + rest.printed) == (a + b) + rest.printed;
  }

  /** The loop's account of the session stays right across one turn. */
  lemma SessionAdvance(env: Env, inputs: seq<string>, i: nat, shown: seq<string>, last: string, step: Step)
    requires i < |inputs| && step == HandleTurn(env, inputs[i], last)
    requires Session(env, inputs, "") == After(shown, Session(env, inputs[i..], last))
    ensures step.status == Continue ==>
              Session(env, inputs, "") == After(shown + step.printed, Session(env, inputs[i + 1..], step.last))
    ensures step.status != Continue ==>
              Session(env, inputs, "") == Step(shown + step.printed, step.last, step.status)
  {
    SessionStep(env, inputs, i, last, step);
    AfterAfter(shown, step.printed, if step.status == Continue then Session(env, inputs[i + 1..], step.last)
                                    else Step([], step.last, step.status));
  }

  /** The chatbot, holding the last response between turns. */
  class Chatbot {
    const env: Env
    var lastResponse: string

    constructor (env: Env)
      ensures this.env == env && lastResponse == ""
    {
      this.env := env;
      lastResponse := "";
    }

    /** One pass of the loop body of `main`. */
    method Turn(line: string) returns (printed: seq<string>, status: Status)
      modifies this
      ensures Step(printed, lastResponse, status) == HandleTurn(env, line, old(lastResponse))
    {
      var userInput := Strip(line);
      if userInput == "" {
        return [], Continue;
      }
      var cmd := Lower(userInput);
      if IsExitCommand(cmd) {
        return [Goodbye], Quit;
      }
      if AsksReword(cmd) && lastResponse != "" {
        var response := Reword(lastResponse, env.tokenize, env.synonyms);
        lastResponse := response;
        return ["Assistant (Reworded): " + response], Continue;
      }
      if AsksExplain(cmd) && lastResponse != "" {
        var explained := Explain(lastResponse, env.lexRank, env.tokenize);
        if explained.Failure? {
          return [], Crashed(explained.error);
        }
        lastResponse := explained.value;
        return ["Assistant (Explained): " + explained.value], Continue;
      }

      printed := AnswerQuery(userInput);
      status := Continue;
    }

    /** The regular-query part of the loop body: Wikipedia, then the web, then the apology. */
    method AnswerQuery(userInput: string) returns (printed: seq<string>)
      modifies this
      ensures Step(printed, lastResponse, Continue) == SearchChain(env, userInput)
    {
      var wikiResult := SearchWikipedia(env.wikipedia(userInput));
      if wikiResult.Some? && wikiResult.value != "" {
        lastResponse := wikiResult.value;
        return ["Assistant: " + wikiResult.value];
      }

      var webResults := SearchWeb(env.web(userInput), DefaultMaxResults);
      if webResults.Some? && webResults.value != [] {
        var results := webResults.value;
        printed := [];
        for idx := 0 to |results|
          invariant printed == WebLines(results[..idx])
        {
          assert results[..idx + 1][..idx] == results[..idx];
          printed := printed + [WebLine(idx + 1, results[idx])];
        }
        assert results[..|results|] == results;
        lastResponse := results[0];
        return printed;
      }

      lastResponse := "";
      return [Sorry];
    }
  }

  /**
   * `main`: print the banner, then run turns until one stops the loop or no
   * line is left to read.
   */
  method Converse(env: Env, inputs: seq<string>) returns (transcript: seq<string>, status: Status)
    ensures transcript == Banner + Session(env, inputs, "").printed
    ensures status == Session(env, inputs, "").status
  {
    var bot := new Chatbot(env);
    var shown: seq<string> := [];
    var i := 0;
    status := Continue;
    assert inputs[0..] == inputs;
    while i < |inputs| && status == Continue
      invariant 0 <= i <= |inputs|
      invariant bot.env == env
      invariant status == Continue ==> Session(env, inputs, "") == After(shown, Session(env, inputs[i..], bot.lastResponse))
      invariant status != Continue ==> Session(env, inputs, "") == Step(shown, bot.lastResponse, status)
      decreases |inputs| - i
    {
      ghost var before := bot.lastResponse;
      var printed, turnStatus := bot.Turn(inputs[i]);
      SessionAdvance(env, inputs, i, shown, before, Step(printed, bot.lastResponse, turnStatus));
      shown := shown + printed;
      i := i + 1;
      status := turnStatus;
    }
    if status == Continue {
      assert shown + [] == shown;
      status := EndOfInput;
    }
    transcript := Banner + shown;
  }
}
