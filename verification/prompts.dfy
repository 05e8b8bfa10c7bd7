/** The summary prompt: a fixed instruction template around the query and one block of content. */
module Prompts {
  import opened Wrappers
  import opened Text

  /** The template text before the query. */
  const Head: string := "\n    Below in triple quotes is the content extracted from the web for the query, '"

  /** The template text between the query and the content. */
  const Middle: string := "'.\n    \n    ```\n    "

  /** The template text after the content. */
  const Tail: string := "\n    ```\n    \n    Summarize the web results in 200 words.\n    "

  /** The prompt asking the model to summarise `content`, found on the web for `query`, in 200 words. */
  function SummaryPrompt(query: string, content: string): (p: string)
    ensures |p| == |Head| + |query| + |Middle| + |content| + |Tail|
  {
    Head + query + Middle + content + Tail
  }

  /**
    The content a prompt for `query` was built around, or None when `prompt` is not a summary
    prompt for `query`.
  */
  function ContentOf(query: string, prompt: string): Option<string>
  {
    var prefix := Head + query + Middle;
    if |prefix| + |Tail| <= |prompt| && prompt[..|prefix|] == prefix && prompt[|prompt| - |Tail|..] == Tail
    then Some(prompt[|prefix|..|prompt| - |Tail|])
    else None
  }

  /** The three parts of `a + b + c` are found back at their positions. */
  lemma ThreeParts(a: string, b: string, c: string)
    ensures (a + b + c)[..|a|] == a
    ensures (a + b + c)[|a|..|a| + |b|] == b
    ensures (a + b + c)[|a| + |b|..] == c
  {
  }

  /** A string is the sum of the three pieces cut at two positions. */
  lemma CutThree(s: string, i: nat, j: nat)
    requires i <= j <= |s|
    ensures s == s[..i] + s[i..j] + s[j..]
  {
  }

  /** Reading the content back out of a prompt recovers it. */
  lemma ContentOfSummaryPrompt(query: string, content: string)
    ensures ContentOf(query, SummaryPrompt(query, content)) == Some(content)
  {
    var prefix := Head + query + Middle;
    assert SummaryPrompt(query, content) == prefix + content + Tail;
    ThreeParts(prefix, content, Tail);
  }

  /** Only the prompt built from a content reads back as that content. */
  lemma SummaryPromptOfContent(query: string, prompt: string, content: string)
    requires ContentOf(query, prompt) == Some(content)
    ensures prompt == SummaryPrompt(query, content)
  {
    var prefix := Head + query + Middle;
    CutThree(prompt, |prefix|, |prompt| - |Tail|);
  }

  /** Different contents give different prompts for the same query. */
  lemma SummaryPromptInjective(query: string, c1: string, c2: string)
    requires SummaryPrompt(query, c1) == SummaryPrompt(query, c2)
    ensures c1 == c2
  {
    ContentOfSummaryPrompt(query, c1);
    ContentOfSummaryPrompt(query, c2);
  }

  /** A prompt holds both the query and the content verbatim. */
  lemma SummaryPromptMentions(query: string, content: string)
    ensures OccursAt(SummaryPrompt(query, content), query, |Head|)
    ensures OccursAt(SummaryPrompt(query, content), content, |Head| + |query| + |Middle|)
    ensures Contains(SummaryPrompt(query, content), query)
    ensures Contains(SummaryPrompt(query, content), content)
  {
    var p := SummaryPrompt(query, content);
    assert p[|Head|..|Head| + |query|] == query;
    var at := |Head| + |query| + |Middle|;
    assert p[at..at + |content|] == content;
    assert OccursAt(p, query, |Head|);
    assert OccursAt(p, content, at);
  }

  /** One prompt per content block, in block order. */
  function SummaryPrompts(query: string, contents: seq<string>): (ps: seq<string>)
    ensures |ps| == |contents|
    ensures forall i :: 0 <= i < |contents| ==> ps[i] == SummaryPrompt(query, contents[i])
    decreases |contents|
  {
    if |contents| == 0 then []
    else SummaryPrompts(query, contents[..|contents| - 1]) + [SummaryPrompt(query, contents[|contents| - 1])]
  }

  /** The blocks can be read back from their prompts, in order. */
  lemma SummaryPromptsRecoverContents(query: string, contents: seq<string>)
    ensures forall i :: 0 <= i < |contents| ==> ContentOf(query, SummaryPrompts(query, contents)[i]) == Some(contents[i])
  {
    forall i | 0 <= i < |contents|
      ensures ContentOf(query, SummaryPrompts(query, contents)[i]) == Some(contents[i])
    {
      ContentOfSummaryPrompt(query, contents[i]);
    }
  }
}
