/**
  Map-reduce summarisation. Every prompt is summarised by one model call; when there is more than
  one summary, the summaries are joined, cut to the budget, wrapped in a new prompt and summarised
  once more. The model is a function parameter `llm`, standing for one chat-completion call (its
  failures are the empty string, just another possible answer); every prompt sent to it is
  recorded, in order, so that calls can be counted.
*/
module Summarize {
  import opened Wrappers
  import opened Budget
  import opened Text
  import opened Prompts

  /** The environment variable holding the model credential. */
  const ApiKeyVariable: string := "OPENAI_API_KEY"

  /** What is placed between two per-block summaries before the reduce call. */
  const SummarySeparator: string := "\n\n"

  /** The answers of a stage of model calls, and the prompts sent to the model, in the order sent. */
  datatype Batch = Batch(summaries: seq<string>, calls: seq<string>)

  /** A whole summarisation: the final summary, and every prompt sent to the model. */
  datatype Run = Run(summary: string, calls: seq<string>)

  /** One model call on one prompt. */
  function Ask(llm: string -> string, prompt: string): Batch
  {
    Batch([llm(prompt)], [prompt])
  }

  /**
    The map stage: one model call per prompt. The source runs the calls in a worker pool whose
    `map` keeps the prompt order, so the stage is a sequential map here.
  */
  function SummarizeEach(prompts: seq<string>, llm: string -> string): (b: Batch)
    ensures |b.summaries| == |prompts|
    ensures forall i :: 0 <= i < |prompts| ==> b.summaries[i] == llm(prompts[i])
    ensures b.calls == prompts
    decreases |prompts|
  {
    if |prompts| == 0 then Batch([], [])
    else
      var done := SummarizeEach(prompts[..|prompts| - 1], llm);
      var last := Ask(llm, prompts[|prompts| - 1]);
      Batch(done.summaries + last.summaries, done.calls + last.calls)
  }

  /** The prompt of the reduce call: the joined summaries, cut to the budget, in the summary template. */
  function ReducePrompt(query: string, summaries: seq<string>): string
  {
    SummaryPrompt(query, Truncate(Join(SummarySeparator, summaries), MaxContentChars))
  }

  /**
    The reduce prompt's content is the join of the summaries in order, cut to the budget: the
    whole join when it fits, and exactly its first `MaxContentChars` characters otherwise.
  */
  lemma ReducePromptContent(query: string, summaries: seq<string>)
    ensures ContentOf(query, ReducePrompt(query, summaries)).Some?
    ensures |ContentOf(query, ReducePrompt(query, summaries)).value| <= MaxContentChars
    ensures ContentOf(query, ReducePrompt(query, summaries)).value
      == Join(SummarySeparator, summaries)[..|ContentOf(query, ReducePrompt(query, summaries)).value|]
    ensures |Join(SummarySeparator, summaries)| <= MaxContentChars ==>
      ContentOf(query, ReducePrompt(query, summaries)) == Some(Join(SummarySeparator, summaries))
    ensures |Join(SummarySeparator, summaries)| > MaxContentChars ==>
      |ContentOf(query, ReducePrompt(query, summaries)).value| == MaxContentChars
  {
    var content := Truncate(Join(SummarySeparator, summaries), MaxContentChars);
    ContentOfSummaryPrompt(query, content);
  }

  /**
    The summarisation of a non-empty list of prompts. With one prompt, its summary is the result
    after a single model call; with more, one call per prompt in order and then one reduce call
    on the joined summaries, whose answer is the result.
  */
  function Reduce(query: string, prompts: seq<string>, llm: string -> string): (run: Run)
    requires |prompts| > 0
    ensures |prompts| == 1 ==> run.summary == llm(prompts[0]) && run.calls == prompts
    ensures |prompts| > 1 ==>
      && |run.calls| == |prompts| + 1
      && run.calls[..|prompts|] == prompts
      && run.calls[|prompts|] == ReducePrompt(query, seq(|prompts|, i requires 0 <= i < |prompts| => llm(prompts[i])))
      && run.summary == llm(run.calls[|prompts|])
  {
    var mapped := SummarizeEach(prompts, llm);
    if |mapped.summaries| > 1 then
      var final := Ask(llm, ReducePrompt(query, mapped.summaries));
      assert mapped.summaries == seq(|prompts|, i requires 0 <= i < |prompts| => llm(prompts[i]));
      Run(final.summaries[0], mapped.calls + final.calls)
    else
      Run(mapped.summaries[0], mapped.calls)
  }

  /** The model is called once for a single prompt and N + 1 times for N > 1 prompts. */
  lemma ReduceCallCount(query: string, prompts: seq<string>, llm: string -> string)
    requires |prompts| > 0
    ensures |Reduce(query, prompts, llm).calls| == if |prompts| == 1 then 1 else |prompts| + 1
  {
  }

  /**
    The summariser's entry point. A missing credential fails before any model call, and an empty
    prompt list fails as the zero-sized worker pool does; otherwise the prompts are reduced.
  */
  function GenerateSummary(query: string, prompts: seq<string>, apiKey: Option<string>, llm: string -> string): (r: Result<Run, PipelineError>)
    ensures r.Failure? <==> apiKey.None? || |prompts| == 0
    ensures apiKey.None? ==> r == Failure(MissingKey(ApiKeyVariable))
    ensures apiKey.Some? && |prompts| == 0 ==> r == Failure(EmptyPool)
    ensures r.Success? ==> |prompts| <= |r.value.calls| <= |prompts| + 1 && r.value.calls[..|prompts|] == prompts
  {
    if apiKey.None? then Failure(MissingKey(ApiKeyVariable))
    else if |prompts| == 0 then Failure(EmptyPool)
    else Success(Reduce(query, prompts, llm))
  }
}
