/**
 * `search_web`: pick at most one text per result block of the fetched
 * results page, looking at no more than `maxResults` blocks.
 */
module WebSearch {
  import opened Wrappers
  import opened Text

  /** One result block of the page: the text of its snippet link and of its title link, when the block has them. */
  datatype ResultBlock = ResultBlock(snippet: Option<string>, title: Option<string>)

  /** The results page, its blocks in document order, or the message of the exception that fetching or parsing raised. */
  datatype WebPage = Fetched(blocks: seq<ResultBlock>) | FetchFailed(message: string)

  const WebPrefix := "(From Web) "

  /** The `max_results` the chatbot searches with. */
  const DefaultMaxResults: nat := 3

  /**
   * An entry as the chatbot builds it: the web prefix, then a text that is
   * not empty and neither starts nor ends with whitespace.
   */
  predicate Trimmed(entry: string) {
    && StartsWith(entry, WebPrefix)
    && |entry| > |WebPrefix|
    && !IsSpace(entry[|WebPrefix|])
    && !IsSpace(entry[|entry| - 1])
  }

  /** A text of the block, stripped; absent or blank texts give nothing. */
  function Stripped(text: Option<string>): (r: Option<string>)
    ensures r.Some? <==> text.Some? && !AllSpace(text.value)
    ensures r.Some? ==> r.value == Strip(text.value)
    ensures r.Some? ==> r.value != [] && !IsSpace(r.value[0]) && !IsSpace(r.value[|r.value| - 1])
  {
    if text.Some? && Strip(text.value) != "" then Some(Strip(text.value)) else None
  }

  /** Prefixing a stripped, non-empty text gives a well-formed entry. */
  lemma PrefixedIsTrimmed(text: string)
    requires text != [] && !IsSpace(text[0]) && !IsSpace(text[|text| - 1])
    ensures Trimmed(WebPrefix + text)
  {
    var entry := WebPrefix + text;
    assert entry[..|WebPrefix|] == WebPrefix;
    assert entry[|WebPrefix|] == text[0];
    assert entry[|entry| - 1] == text[|text| - 1];
  }

  /**
   * The entry one block contributes: its snippet if that is not blank,
   * otherwise its title if that is not blank, otherwise none.
   */
  function EntryOf(b: ResultBlock): (r: Option<string>)
    ensures r.None? <==> Stripped(b.snippet).None? && Stripped(b.title).None?
    ensures Stripped(b.snippet).Some? ==> r == Some(WebPrefix + Stripped(b.snippet).value)
    ensures Stripped(b.snippet).None? && Stripped(b.title).Some? ==> r == Some(WebPrefix + Stripped(b.title).value)
  {
    var snippet := Stripped(b.snippet);
    var title := Stripped(b.title);
    if snippet.Some? then Some(WebPrefix + snippet.value)
    else if title.Some? then Some(WebPrefix + title.value)
    else None
  }

  /** Every entry is the web prefix followed by a stripped, non-blank text. */
  lemma EntryIsTrimmed(b: ResultBlock)
    ensures EntryOf(b).Some? ==> Trimmed(EntryOf(b).value)
  {
    var snippet := Stripped(b.snippet);
    var title := Stripped(b.title);
    if snippet.Some? {
      PrefixedIsTrimmed(snippet.value);
    } else if title.Some? {
      PrefixedIsTrimmed(title.value);
    }
  }

  /** The entries of the blocks in order, skipping blocks that contribute none; each is prefixed and not blank. */
  function Entries(bs: seq<ResultBlock>): (r: seq<string>)
    ensures forall i :: 0 <= i < |r| ==> Trimmed(r[i])
  {
    if bs == [] then []
    else
      var last := EntryOf(bs[|bs| - 1]);
      EntryIsTrimmed(bs[|bs| - 1]);
      Entries(bs[..|bs| - 1]) + (if last.Some? then [last.value] else [])
  }

  /** Each block contributes at most one entry. */
  lemma {:induction false} EntriesAtMostOnePerBlock(bs: seq<ResultBlock>)
    ensures |Entries(bs)| <= |bs|
  {
    if bs != [] {
      EntriesAtMostOnePerBlock(bs[..|bs| - 1]);
    }
  }

  /** The positions of the blocks that contribute an entry, in increasing order. */
  function Contributors(bs: seq<ResultBlock>): seq<nat> {
    if bs == [] then []
    else Contributors(bs[..|bs| - 1]) + (if EntryOf(bs[|bs| - 1]).Some? then [|bs| - 1] else [])
  }

  /** Entry k comes from the block at position Contributors(bs)[k]. */
  lemma {:induction false} ContributorsGiveEntries(bs: seq<ResultBlock>)
    ensures |Contributors(bs)| == |Entries(bs)|
    ensures forall k :: 0 <= k < |Contributors(bs)| ==> Contributors(bs)[k] < |bs|
    ensures forall k :: 0 <= k < |Entries(bs)| ==>
              EntryOf(bs[Contributors(bs)[k]]) == Some(Entries(bs)[k])
  {
    if bs != [] {
      var init := bs[..|bs| - 1];
      var last := EntryOf(bs[|bs| - 1]);
      ContributorsGiveEntries(init);
      assert Contributors(bs) == Contributors(init) + (if last.Some? then [|bs| - 1] else []);
      assert Entries(bs) == Entries(init) + (if last.Some? then [last.value] else []);
      forall k | 0 <= k < |Entries(init)|
        ensures EntryOf(bs[Contributors(init)[k]]) == Some(Entries(init)[k])
      {
        assert bs[Contributors(init)[k]] == init[Contributors(init)[k]];
      }
    }
  }

  /** The contributing positions lie within the blocks and increase strictly. */
  lemma {:induction false} ContributorsIncrease(bs: seq<ResultBlock>)
    ensures forall k :: 0 <= k < |Contributors(bs)| ==> Contributors(bs)[k] < |bs|
    ensures forall k, l :: 0 <= k < l < |Contributors(bs)| ==> Contributors(bs)[k] < Contributors(bs)[l]
  {
    if bs != [] {
      var init := bs[..|bs| - 1];
      ContributorsIncrease(init);
      var before := Contributors(init);
      var added: seq<nat> := if EntryOf(bs[|bs| - 1]).Some? then [|bs| - 1] else [];
      assert Contributors(bs) == before + added;
      assert forall k :: 0 <= k < |before| ==> before[k] < |bs| - 1;
      assert forall k :: 0 <= k < |added| ==> added[k] == |bs| - 1;
    }
  }

  /** Every block that contributes an entry is among the contributing positions. */
  lemma {:induction false} ContributorsComplete(bs: seq<ResultBlock>)
    ensures forall i :: 0 <= i < |bs| && EntryOf(bs[i]).Some? ==> i in Contributors(bs)
  {
    if bs != [] {
      var init := bs[..|bs| - 1];
      ContributorsComplete(init);
      assert Contributors(bs) == Contributors(init) + (if EntryOf(bs[|bs| - 1]).Some? then [|bs| - 1] else []);
      forall i | 0 <= i < |bs| - 1 && EntryOf(bs[i]).Some?
        ensures i in Contributors(bs)
      {
        assert bs[i] == init[i];
      }
    }
  }

  /**
   * Entry k comes from block Contributors(bs)[k]; those positions increase
   * strictly, so the entries keep the blocks' order and no block gives two;
   * and every block with a non-blank snippet or title is among them.
   */
  lemma EntriesComeFromBlocksInOrder(bs: seq<ResultBlock>)
    ensures |Contributors(bs)| == |Entries(bs)|
    ensures forall k :: 0 <= k < |Contributors(bs)| ==> Contributors(bs)[k] < |bs|
    ensures forall k, l :: 0 <= k < l < |Contributors(bs)| ==> Contributors(bs)[k] < Contributors(bs)[l]
    ensures forall k :: 0 <= k < |Entries(bs)| ==>
              EntryOf(bs[Contributors(bs)[k]]) == Some(Entries(bs)[k])
    ensures forall i :: 0 <= i < |bs| && EntryOf(bs[i]).Some? ==> i in Contributors(bs)
  {
    ContributorsGiveEntries(bs);
    ContributorsIncrease(bs);
    ContributorsComplete(bs);
  }

  /**
   * What `search_web` returns: a fetch or parse failure gives one error
   * entry; otherwise the entries of the first `maxResults` blocks, never more
   * than `maxResults` of them, with no entries turned into `None`.
   */
  function WebAnswer(page: WebPage, maxResults: nat): (r: Option<seq<string>>)
    ensures r.Some? ==> r.value != [] && forall i :: 0 <= i < |r.value| ==> r.value[i] != ""
    ensures page.FetchFailed? ==> r == Some(["Web search error: " + page.message])
    ensures page.Fetched? && r.Some? ==> |r.value| <= maxResults
    ensures page.Fetched? && r.Some? ==> forall i :: 0 <= i < |r.value| ==> StartsWith(r.value[i], WebPrefix)
    ensures page.Fetched? ==> (r.None? <==> Entries(Take(page.blocks, maxResults)) == [])
    ensures page.Fetched? && r.Some? ==> r.value == Entries(Take(page.blocks, maxResults))
  {
    match page
    case FetchFailed(message) => Some(["Web search error: " + message])
    case Fetched(blocks) =>
      var entries := Entries(Take(blocks, maxResults));
      EntriesAtMostOnePerBlock(Take(blocks, maxResults));
      if entries == [] then None else Some(entries)
  }

  /** Blocks after the first `maxResults` are never looked at. */
  lemma LaterBlocksAreIgnored(a: seq<ResultBlock>, b: seq<ResultBlock>, maxResults: nat)
    requires Take(a, maxResults) == Take(b, maxResults)
    ensures WebAnswer(Fetched(a), maxResults) == WebAnswer(Fetched(b), maxResults)
  {
  }

  /** The selection loop of `search_web`, appending one entry per useful block. */
  method SearchWeb(page: WebPage, maxResults: nat) returns (r: Option<seq<string>>)
    ensures r == WebAnswer(page, maxResults)
  {
    if page.FetchFailed? {
      return Some(["Web search error: " + page.message]);
    }
    var results := Take(page.blocks, maxResults);
    var snippets: seq<string> := [];
    for i := 0 to |results|
      invariant snippets == Entries(results[..i])
    {
      assert results[..i + 1][..i] == results[..i];
      var block := results[i];
      if block.snippet.Some? && Strip(block.snippet.value) != "" {
        snippets := snippets + [WebPrefix + Strip(block.snippet.value)];
      } else if block.title.Some? && Strip(block.title.value) != "" {
        snippets := snippets + [WebPrefix + Strip(block.title.value)];
      }
    }
    assert results[..|results|] == results;
    r := if snippets != [] then Some(snippets) else None;
  }
}
