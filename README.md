# A verified model of the local chatbot's turn loop

This project models `chat.py`, the console chatbot that answers a query from Wikipedia, then from a DuckDuckGo web search, and otherwise apologises. It can also reword or explain its last answer. The model is written in Dafny and covers these parts:

- **Text** (`text.dfy`): the Python string operations the chatbot uses: `strip()`, `lower()`, `in`, `join`, `split()`, `replace`, `str(int)` and `repr` of a list. It also defines `split(c)` on one character. The chatbot never calls that; the lemmas use it to read a bullet summary back line by line.
- **Wikipedia** (`wikipedia.dfy`): `search_wikipedia`. The outcome of the library call is a datatype: a summary, a disambiguation error with its options, a missing page, or any other error.
- **WebSearch** (`web_search.dfy`): the result selection of `search_web`. `SearchWeb` is the loop that appends entries. `WebAnswer` is the function that specifies it.
- **Rewording** (`rewording.dfy`): `reword`. `Reword` is the nested sentence and word loop. `RewordText` is its specification. The choice made for each word is `ChooseWord`.
- **Summary** (`summary.dfy`): `summarize_bullets` and `explain_text`. The LexRank path is an opaque outcome. The first-n-sentences fallback is modelled exactly.
- **Chat** (`chat.dfy`): the loop in `main`.
  - `HandleTurn` is one pass of the loop body, as a function of the line read and the last response.
  - The class `Chatbot` holds `lastResponse`. Its `Turn` method is the loop body, proved equal to `HandleTurn`.
  - `Converse` is the `while True` loop over the lines typed, proved equal to `Session`.

Every library the chatbot calls is a field of `Chat.Env`: the Wikipedia lookup, the fetched results page, the sentence tokenizer, WordNet's first lemma and the LexRank summariser. Each is a function of its input. An exception a library raises is a constructor of that library's outcome datatype. Where the chatbot uses the exception's `str`, the constructor carries it as its message. The others carry only what the chatbot reads: the options of a disambiguation error, or nothing at all for a missing page or a `LookupError` in LexRank.

The model follows the code as written: keyword tests, a Wikipedia → web → "Sorry, I couldn't find an answer." chain, and WordNet rewording.

A few details the code decides that a reader might expect otherwise:
- Only a missing Wikipedia page lets a query go on to the web. A disambiguation notice or a "Wikipedia error: …" text is truthy, so it becomes the answer.
- `summarize_bullets` catches only `LookupError`. Any other exception from LexRank, and a tokenizer failure inside the fallback, escapes and ends the program. The model gives these the status `Crashed`.
- Reading past the last input line raises `EOFError` in `main`. The model gives this the status `EndOfInput`.

## Model

| member | source | states |
|---|---|---|
| `Text.TrimStart` | chat.py:97 | `strip()` drops only leading whitespace; the rest is a suffix that does not start with whitespace |
| `Text.TrimEnd` | chat.py:97 | `strip()` drops only trailing whitespace; the rest is a prefix that does not end with whitespace |
| `Text.Strip` | chat.py:97-99 | `strip()` never lengthens a string; it gives "" exactly when all characters are whitespace, and otherwise a string that neither starts nor ends with whitespace |
| `Text.Lower` | chat.py:100-104 | lowers ASCII and Latin-1 capitals one character at a time; no ASCII capital is left |
| `Text.LowerToAsciiWord` | chat.py:100 | a string lowers to a lower-case ASCII word exactly when it spells that word with each letter in either case |
| `Text.ContainsIff` | chat.py:105-111 | `sub in s` holds exactly when `sub` starts at some position of `s` |
| `Text.ContainsNoLonger` | chat.py:105 | a keyword found by `in` is no longer than the command |
| `Text.Words` | chat.py:59 | `split()` yields only non-empty words without whitespace |
| `Text.WordsOfSpaceThen` | chat.py:59 | `split()` skips leading whitespace; with `WordsOfWordThen` this fixes the words of every string: its maximal runs of non-whitespace, in order |
| `Text.WordsOfWordThen` | chat.py:59 | a word followed by whitespace or nothing is split off whole |
| `Text.WordsOfJoin` | chat.py:59-68 | splitting words that were joined with single spaces gives back the same words |
| `Text.NormalizedWordsAreStable` | chat.py:59-68 | joining the `split()` words and splitting again changes nothing |
| `Text.Join` | chat.py:68-69 | `sep.join(parts)` starts with the first part (the same join builds the bullets at chat.py:80 and 84) |
| `Text.JoinLength` | chat.py:68-69 | a join is as long as its parts plus one separator between each two |
| `Text.SplitOnJoin` | chat.py:84 | splitting a newline-joined list of newline-free lines gives back the lines |
| `Text.JoinContainsParts` | chat.py:26 | every part of `sep.join(parts)` is a substring of it |
| `Text.ListRepr` | chat.py:26 | `str` of a list of strings contains the `repr` of each element |
| `Text.NatToString` | chat.py:128 | `str(idx)` is a non-empty string of decimal digits that reads back as `idx`, with no leading zero |
| `Text.ReplaceChar` | chat.py:64 | `replace('_', ' ')` keeps the length, changes only underscores, and leaves none |
| `Wikipedia.SearchWikipedia` | chat.py:21-30 | `None` exactly for a missing page; every other outcome gives a non-empty text; a summary gives "(From Wikipedia) " and the summary |
| `Wikipedia.TooBroadMessage` | chat.py:26 | the disambiguation answer quotes each of the first five options |
| `Wikipedia.DisambiguationShowsFirstFive` | chat.py:25-26 | only the first five disambiguation options reach the message |
| `WebSearch.EntryOf` | chat.py:43-48 | a block gives its stripped snippet if not blank, else its stripped title if not blank, else nothing; an entry carries "(From Web) " |
| `WebSearch.Stripped` | chat.py:45-48 | a snippet or title counts only when it is present and non-blank, and then as its stripped text |
| `WebSearch.EntryIsTrimmed` | chat.py:45-48 | an entry is "(From Web) " followed by a non-empty text that neither starts nor ends with whitespace |
| `WebSearch.Entries` | chat.py:41-48 | every entry is "(From Web) " followed by a non-empty text that neither starts nor ends with whitespace |
| `WebSearch.EntriesAtMostOnePerBlock` | chat.py:42-48 | there are no more entries than blocks examined |
| `WebSearch.ContributorsGiveEntries` | chat.py:42-48 | there is one contributing block per entry, and entry k is the one the block at the k-th contributing position gives |
| `WebSearch.ContributorsIncrease` | chat.py:42 | blocks are examined in document order, so the contributing positions increase strictly |
| `WebSearch.ContributorsComplete` | chat.py:43-48 | no block with a non-blank snippet or title is skipped |
| `WebSearch.EntriesComeFromBlocksInOrder` | chat.py:42-48 | entry k comes from a block at a strictly increasing position; every block with a non-blank snippet or title contributes |
| `WebSearch.WebAnswer` | chat.py:33-51 | a fetch or parse failure gives exactly one "Web search error: " entry; otherwise exactly the entries of the first `max_results` blocks, at most `max_results` of them and each prefixed; no entries becomes `None`; never an empty list |
| `WebSearch.LaterBlocksAreIgnored` | chat.py:40 | blocks after the first `max_results` do not affect the answer |
| `WebSearch.SearchWeb` | chat.py:40-51 | the appending loop returns exactly `WebAnswer` |
| `Rewording.ChooseWord` | chat.py:62-67 | the choice for one word fails exactly when its lookup raises, with that message; otherwise it is the word or its synonym with '_' turned into spaces |
| `Rewording.ChooseWordKeepsIff` | chat.py:62-67 | a word is kept exactly when it has no synsets or its first synonym equals it ignoring case; otherwise it becomes the synonym with '_' turned into spaces |
| `Rewording.RewordWordsPointwise` | chat.py:61-67 | the rewrite succeeds exactly when no lookup raises; it then holds one ChooseWord choice per word, in order; otherwise its error is the first raising lookup's |
| `Rewording.RewordSentencesPointwise` | chat.py:58-69 | the sentence loop succeeds exactly when every sentence's rewrite does; it then holds one rewritten sentence per sentence, in order; otherwise its error is the first failing sentence's |
| `Rewording.RewordText` | chat.py:54-71 | when tokenizing and every lookup succeed, the answer is the sentences' rewrites joined with single spaces, one per sentence in order; otherwise it starts with "Rewording error: " |
| `Rewording.WordFailureSticks` | chat.py:61-71 | a lookup that raises ends the whole word loop with its message |
| `Rewording.SentenceFailureSticks` | chat.py:58-71 | a sentence whose rewrite raises ends the whole sentence loop with its message |
| `Rewording.RewordWithoutSynonyms` | chat.py:59-68 | with no synsets anywhere, a sentence only has its spacing normalised to single spaces |
| `Rewording.RewordKeepsWordCount` | chat.py:59-68 | when synonyms are single words, the rewritten sentence splits into one word per original word, each the ChooseWord choice |
| `Rewording.Reword` | chat.py:54-71 | the nested loops return exactly `RewordText`, including the "Rewording error: " text of the first exception |
| `Summary.BulletLines` | chat.py:80 | one line per sentence, line i being "- " and sentence i |
| `Summary.BulletsSplitIntoLines` | chat.py:80 | no sentences give ""; when no sentence contains a newline, reading the bullets back line by line gives one "- " line per sentence, in order |
| `Summary.FallbackTakesFirstSentences` | chat.py:81-84 | n = 0 or no sentences give ""; when no sentence contains a newline, the fallback has exactly min(n, number of sentences) lines, line i holding sentence i |
| `Summary.SummarizeBullets` | chat.py:75-84 | the summary fails exactly when LexRank raises something other than a `LookupError`, or when it raises a `LookupError` and the tokenizer then fails; a LexRank failure carries LexRank's message |
| `Summary.Explain` | chat.py:87-88 | `explain_text` fails in exactly the same cases, for five sentences |
| `Summary.EveryLineIsABullet` | chat.py:75-84 | when no sentence contains a newline, both paths format alike: every line of a non-empty summary is a "- " bullet |
| `Summary.ExplainFallbackAtMostFive` | chat.py:87-88 | `explain_text` summarises with five sentences, so when no sentence contains a newline its fallback has at most five lines |
| `Chat.KeywordIsNoExit` | chat.py:100-105 | a line holding a reword or explain keyword is neither blank nor an exit command |
| `Chat.WebLinesNumbered` | chat.py:127-128 | web results are printed one per line, in order, numbered from 1 |
| `Chat.SearchChain` | chat.py:119-133 | a regular query always goes on with the loop and prints at least one line |
| `Chat.HandleTurn` | chat.py:96-117 | a turn never ends the input; quitting prints only goodbye and keeps the last response; a crash keeps it too; a turn prints nothing exactly when the line is blank or it crashes |
| `Chat.BlankInputIsIgnored` | chat.py:97-99 | a blank line prints nothing and keeps the last response |
| `Chat.QuitExactlyOnExitCommand` | chat.py:100-102 | the loop quits exactly on "exit"/"quit" in any case, printing goodbye and keeping the last response |
| `Chat.RewordTakesPrecedence` | chat.py:104-110 | with a last response, "reword" rewords it, makes the result the last response, and the turn does not depend on Wikipedia, the web or LexRank |
| `Chat.ExplainSummarisesLastResponse` | chat.py:111-116 | with a last response and no "reword", explain/expand/elaborate answers with the five-sentence summary and makes no search; an escaping exception crashes the loop |
| `Chat.ExitInAnyCase` | chat.py:100 | the exit test accepts "exit" and "quit" with each letter in either case, and nothing else |
| `Chat.QuitInAnyCase` | chat.py:97-102 | the loop quits exactly when the stripped line spells "exit" or "quit" in any mix of cases |
| `Chat.RegularQuerySearches` | chat.py:104-119 | a non-blank, non-exit line goes to the search chain when it has no keyword, or when there is no last response |
| `Chat.EmptyLastResponseSearches` | chat.py:104-119 | with no last response, every non-blank, non-exit line goes to the search chain |
| `Chat.WikipediaShortCircuits` | chat.py:119-123 | any Wikipedia outcome but a missing page is the answer and the new last response; the web is not consulted |
| `Chat.WebAnswersAfterMissingPage` | chat.py:125-133 | after a missing page, web entries are printed numbered from 1 and the first becomes the last response; with none, "Sorry" is printed and the last response is cleared |
| `Chat.LastClearedIffNothingFound` | chat.py:119-133 | the last response is cleared exactly when Wikipedia has no page and the web gives no entries |
| `Chat.Session` | chat.py:96-133 | a conversation always ends by quitting, crashing or running out of input |
| `Chat.LinesAfterStopAreNotRead` | chat.py:100-102 | once the loop has stopped, further lines do not change what was printed |
| `Chat.Chatbot.constructor` | chat.py:94 | the last response starts empty |
| `Chat.Chatbot.Turn` | chat.py:96-117 | the loop body prints and updates `lastResponse` exactly as `HandleTurn` says |
| `Chat.Chatbot.AnswerQuery` | chat.py:119-133 | the regular-query part prints and updates `lastResponse` exactly as `SearchChain` says |
| `Chat.Converse` | chat.py:91-133 | the loop prints the banner and then exactly what `Session` prints, and ends with its status |

## Left out

- Console I/O: `input` and `print` are modelled as the lines read and the lines printed. The prompt `"\nYou: "` that `input` writes is not in the transcript.
- The HTTP request and HTML parsing of `search_web` (chat.py:35-40) are not modelled. The fetched page is given as its result blocks, or as the message of the exception raised. The `User-Agent`, query parameters and 10-second timeout are not modelled.
- `WebSearch.WebAnswer`: BeautifulSoup's `limit` is modelled as "the first `max_results` blocks". BeautifulSoup reads a limit of 0 as "no limit"; that case is not modelled. The chatbot always passes 3.
- The `wikipedia` library (chat.py:23) is modelled only as its outcome datatype. Its `sentences=2` argument is part of that library's behaviour.
- NLTK is modelled as two oracles: `sent_tokenize` and the first lemma of `wordnet.synsets`. Tokenisation and WordNet data are external. The `nltk.download` calls (chat.py:17-18) are startup I/O and are not modelled.
- The LexRank summariser (chat.py:77-80) is a floating-point graph ranking in a foreign library. It is an oracle returning the chosen sentences, a missing resource, or another exception.
- Every oracle is a function of its input. WordNet and the sentence tokenizer are fixed local data, so this is exact for them, even though `reword` looks up WordNet once per word. Wikipedia, the web and LexRank may answer differently at different times. The model fixes one answer per input; each turn calls each of them at most once.
- `Text.Lower` lowers only ASCII and Latin-1 capitals.
  - For the keyword and exit tests this agrees with Python's full Unicode `lower()`. No keyword contains "k", and the Kelvin sign is the only other capital that lowers to a plain ASCII letter. The dotted capital I lowers to "i" followed by a combining mark, so it cannot complete a keyword.
  - The case-insensitive synonym comparison in `reword` does not model other scripts.
- `Text.Repr` escapes backslashes, the chosen quote, newlines, carriage returns and tabs. Python's `\xNN` and `\uNNNN` escapes for other non-printable characters are not modelled.
- Exceptions that `chat.py` does not catch, apart from those in `summarize_bullets` and the end of input, are not modelled. Examples are `KeyboardInterrupt` and errors inside `print`.
