/**
  The research run as the command-line front end sequences it: extract and pack the pages of the
  search results, build one prompt per block, and summarise. The search itself is an input here.
*/
module Research {
  import opened Wrappers
  import opened Budget
  import opened Text
  import opened Prompts
  import opened Extraction
  import opened Summarize

  /** The whole run for `query` over the ranked result `urls`. */
  function ResearchQuery(query: string, urls: seq<string>, fetch: string -> Page, apiKey: Option<string>, llm: string -> string): (r: Result<Run, PipelineError>)
    ensures |urls| == 0 ==> r == Failure(EmptyPool)
    ensures |urls| > 0 && apiKey.None? ==> r == Failure(MissingKey(ApiKeyVariable))
    ensures r.Success? <==> |urls| > 0 && apiKey.Some?
    ensures r.Success? ==> 1 <= |r.value.calls| <= |urls| + 1
  {
    match ExtractContentFromUrls(query, urls, fetch)
    case Failure(e) => Failure(e)
    case Success(contents) => GenerateSummary(query, SummaryPrompts(query, contents), apiKey, llm)
  }

  /**
    The first model calls of a run are the prompts of the content blocks, in block order, each
    holding its block verbatim; the model sees no other content before the reduce call.
  */
  lemma ResearchCallsFollowBlocks(query: string, urls: seq<string>, fetch: string -> Page, apiKey: Option<string>, llm: string -> string)
    requires |urls| > 0 && apiKey.Some?
    ensures var contents := ExtractContentFromUrls(query, urls, fetch).value;
      var run := ResearchQuery(query, urls, fetch, apiKey, llm).value;
      && |contents| <= |run.calls|
      && forall i :: 0 <= i < |contents| ==> ContentOf(query, run.calls[i]) == Some(contents[i])
  {
    var contents := ExtractContentFromUrls(query, urls, fetch).value;
    var run := ResearchQuery(query, urls, fetch, apiKey, llm).value;
    SummaryPromptsRecoverContents(query, contents);
    assert run.calls[..|contents|] == SummaryPrompts(query, contents);
    forall i | 0 <= i < |contents|
      ensures ContentOf(query, run.calls[i]) == Some(contents[i])
    {
      assert run.calls[i] == run.calls[..|contents|][i];
    }
  }

  /** Two small pages for the query "test". */
  const PageA: Page := Page("hello world", Some("A"))
  const PageB: Page := Page("foo bar", Some("B"))

  /** Their fragments: each title and text after a blank line. */
  const FragmentA := "\n\nA\n\nhello world"
  const FragmentB := "\n\nB\n\nfoo bar"

  /** The fragments of the two scenario pages. */
  lemma ScenarioFragments()
    ensures Fragments("test", [PageA, PageB]) == [FragmentA, FragmentB]
  {
    var pages := [PageA, PageB];
    var fs := Fragments("test", pages);
    assert fs[0] == Fragment("test", pages[0]);
    assert Title("test", PageA) == "A";
    assert fs[0] == BlankLine + "A" + BlankLine + "hello world";
    assert fs[0] == FragmentA;
    assert fs[1] == Fragment("test", pages[1]);
    assert Title("test", PageB) == "B";
    assert fs[1] == FragmentB;
  }

  /** Both scenario fragments fit the extractor's budget together, so they share one block. */
  lemma ScenarioPackOne()
    ensures Pack("test", [PageA, PageB], MaxContentChars) == [FragmentA + FragmentB]
  {
    var fs := Fragments("test", [PageA, PageB]);
    ScenarioFragments();
    assert fs[..1][..0] == [];
    assert Concat(fs[..1]) == fs[0];
    assert Concat(fs) == FragmentA + FragmentB;
    MaxContentCharsValue();
    PackFits("test", [PageA, PageB], MaxContentChars);
  }

  /** With a budget that holds both pages, there is one block with both fragments in order, and one model call. */
  lemma ScenarioOneBlock(apiKey: string, llm: string -> string)
    ensures Pack("test", [PageA, PageB], MaxContentChars) == [FragmentA + FragmentB]
    ensures ResearchQuery("test", ["http://a.test", "http://b.test"],
      u => if u == "http://a.test" then PageA else PageB, Some(apiKey), llm)
      == Success(Run(llm(SummaryPrompt("test", FragmentA + FragmentB)),
                     [SummaryPrompt("test", FragmentA + FragmentB)]))
  {
    ScenarioPackOne();
    var fetch := (u: string) => if u == "http://a.test" then PageA else PageB;
    var urls := ["http://a.test", "http://b.test"];
    assert seq(|urls|, i requires 0 <= i < |urls| => fetch(urls[i])) == [PageA, PageB];
  }

  /** A budget that splits after the first page gives two blocks and three model calls. */
  lemma ScenarioSplit(apiKey: string, llm: string -> string)
    ensures Pack("test", [PageA, PageB], 20) == [FragmentA, FragmentB]
    ensures |GenerateSummary("test", SummaryPrompts("test", Pack("test", [PageA, PageB], 20)), Some(apiKey), llm).value.calls| == 3
  {
    var fs := Fragments("test", [PageA, PageB]);
    ScenarioFragments();
    assert fs[..1][..0] == [];
    assert Scan(fs[..1], 20) == Packing([], fs[0]);
    assert Scan(fs, 20) == Packing([fs[0]], fs[1]);
  }

  /**
    Greedy runs rule out a block that took a fragment which did not fit: with budget 10 and
    fragments of 4, 6 and 13 characters, the first two cannot share a block, even though
    together they equal the head of the third.
  */
  lemma ScenarioNoOverfullMerge()
    ensures var fs := ["\n\n\n\n", "\n\n\n\nab", "\n\n\n\n\n\n\n\nabXYZ"];
      !GreedyRuns(fs, [fs[0] + fs[1], Truncate(fs[2], 10)], [0, 2, 3], 10)
  {
    var fs := ["\n\n\n\n", "\n\n\n\nab", "\n\n\n\n\n\n\n\nabXYZ"];
    var blocks, cuts := [fs[0] + fs[1], Truncate(fs[2], 10)], [0, 2, 3];
    assert Span(fs, 0, 1, 10) == fs[0];
    assert !Joined(fs, cuts[0], cuts[1], 10);
    assert blocks[0] == fs[0] + fs[1];
  }
}
