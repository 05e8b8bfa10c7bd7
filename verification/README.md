# GPT-Researcher pipeline core, in Dafny

GPT-Researcher answers a free-text query in four stages. It searches the web, then extracts the
pages of the top results. It packs their text into content blocks that fit a model's context
window. It asks a language model to summarise each block, and then reduces the block summaries
into one final summary. This project models the pure logic of that pipeline, as found in
`utils.py`, and proves its properties:

- `Budget`: the character budget `B` of one content block, 4 × (4000 − 250 − 250) = 14000.
- `Text`: the Python string operations involved. These are slicing `s[:n]` (`Truncate`),
  concatenation (`Concat`) and `sep.join` (`Join`).
- `Extraction`: pages as `(text, optional title)`, the title fallback to the query, the
  fragment `"\n\n" + title + "\n\n" + text` and the greedy packing loop.
  - The loop is modelled twice. `Scan` is a fold carrying (sealed blocks, current block). The
    method `PackPages` follows the source statement by statement, and is proved to compute the fold.
  - `ExtractContentFromUrls` is the whole extractor. It takes the page fetcher as a function
    parameter.
- `Prompts`: the summary prompt template, and its inverse `ContentOf`, which reads the content
  back out of a prompt.
- `Summarize`: the map-reduce summarisation. The model is a function parameter `llm`. Every
  prompt sent to it is recorded, so that model calls can be counted.
- `Research`: the sequence the command-line front end runs, with the search result as an input.

The packing budget is a parameter `budget` of `Pack`, so any context size can be studied. The
source fixes it to `MaxContentChars` (14000), and `ExtractContentFromUrls` uses that value.

Behaviour of the code worth knowing:
- An empty URL list or an empty prompt list is an error (`EmptyPool`). The source creates a
  worker pool with zero processes, which raises. Packing alone, given no pages, returns the
  single empty block `[""]`.
- The budget constants are hard-coded in `utils.py`; `Budget` keeps them as constants.
- Blocks always concatenate to the page fragments in page order, each cut to `B` (`PackCovers`).
  A fragment longer than `B` always starts its own block, so it loses only its tail.
- Blocks are runs of whole fragments of consecutive pages. A fragment joins a block only when the
  block plus the fragment stays below `B`, and a block is closed only when the next page's
  fragment would take it to `B` or beyond (`PackSegments`). A block of exactly `B` characters is
  the head of one oversized page alone (`PackOversizedBlock`).

## Model

| member | source | states |
|---|---|---|
| `Budget.MaxContentCharsValue` | utils.py:18-30 | the content budget is 3500 tokens, i.e. 14000 characters |
| `Text.Truncate` | utils.py:127-129 | `s[:n]` is as long as the smaller of `n` and `len(s)` |
| `Text.TruncateIsPrefix` | utils.py:127-129 | `s[:n]` is a prefix of `s` |
| `Text.Join` | utils.py:268 | `sep.join(xs)` has the total length of `xs` plus one separator between each pair of neighbours; it is empty for no strings |
| `Text.JoinCons` | utils.py:268 | joining `[x] + xs` gives `x`, the separator, then the join of `xs`; the summaries appear in list order |
| `Extraction.Title` | utils.py:108-109 | the title a page is filed under: its own, or the query when it has none; its properties are stated by `TitleFallback` |
| `Extraction.Fragment` | utils.py:113-115 | a page's fragment is 4 characters longer than its title and text together |
| `Extraction.Fragments` | utils.py:107-115 | one fragment per page, in page order |
| `Extraction.TitleFallback` | utils.py:108-115 | a missing title is replaced by the query; the failure page `('', '')` keeps its empty title and contributes `"\n\n\n\n"` |
| `Extraction.Step` | utils.py:113-129 | one loop iteration seals at most one more block and leaves the current block within `B` |
| `Extraction.StepKeepsSealed` | utils.py:114-124 | one loop iteration never changes a sealed block; the only block it may seal is the current one, and only when that is non-empty |
| `Extraction.Scan` | utils.py:107-129 | after the loop has seen the fragments, there are no more sealed blocks than fragments and the current block is within `B`; the `Scan*` lemmas below carry its invariants |
| `Extraction.ScanWithinBudget` | utils.py:113-129 | after any number of pages, sealed blocks are non-empty, and every block is below `B` or is the `B`-long head of one oversized fragment |
| `Extraction.ScanCount` | utils.py:114-129 | each page adds at most one block; after at least one page, there are fewer sealed blocks than pages |
| `Extraction.ScanCovers` | utils.py:113-129 | the sealed blocks followed by the current block concatenate to the fragments seen so far, each cut to `B` |
| `Extraction.ScanFits` | utils.py:113-115 | while the fragments together stay below `B`, nothing is sealed and the current block is their concatenation |
| `Extraction.Pack` | utils.py:105-131 | the output has at least one block and at most one more than the pages, and its last block is within `B`; the `Pack*` lemmas below carry its properties |
| `Extraction.ScanSegments` | utils.py:113-129 | after any number of fragments, each block is a run of whole consecutive fragments (each cut to `B`) between block starts, and a block was sealed only when the fragment starting the next one would take it to `B` or beyond |
| `Extraction.ScanJoined` | utils.py:113-129 | after any number of fragments, each fragment after a block's first joined that block only because the block so far plus the fragment stayed below `B`, or the block so far was empty |
| `Extraction.JoinedStep` | utils.py:114-124 | one loop iteration appends a fragment to the block being built only when it fits below `B` or the block is empty, and otherwise closes that block as it was |
| `Extraction.JoinedBelowBudget` | utils.py:114-115 | a block of two or more fragments, the second-to-last not empty, that grew only by fragments that fit stays strictly below a positive `B` |
| `Extraction.SegmentsStep` | utils.py:113-129 | one loop iteration keeps every block a run of whole consecutive fragments, and a new block starts exactly at the fragment that did not fit a non-empty block |
| `Extraction.PackSegments` | utils.py:105-131 | the output blocks are greedy runs of whole page fragments: cut points 0 = k0 < … ≤ len(pages) with block i the fragments of pages k_i up to k_(i+1), each cut to `B`; each fragment after a block's first joined it only because the block so far plus that fragment stayed below `B`; and every block but the last plus the next page's fragment reaches `B` |
| `Extraction.PackOversizedBlock` | utils.py:114-129 | a block that reaches a positive `B` holds exactly one page: the next cut follows its own, that page's fragment alone reaches `B`, and the block is its `B`-long head; so blocks grown by appending stay below `B` |
| `Extraction.PackWithinBudget` | utils.py:105-131 | every output block has at most `B` characters; one of exactly `B` is the truncated head of a single oversized page |
| `Extraction.PackNoEmptyBlockBeforeLast` | utils.py:120-131 | no block before the last is empty; with a page and a positive budget, the last block is not empty either |
| `Extraction.PackCount` | utils.py:105-131 | packing returns at least one block, and at most one block per page when there is a page |
| `Extraction.PackCovers` | utils.py:105-131 | the blocks concatenate, in order, to the fragments each cut to `B`; when no fragment exceeds `B`, exactly to all fragments in page order |
| `Extraction.PackFits` | utils.py:111-115 | when all fragments together stay below `B`, there is exactly one block, holding them all in order |
| `Extraction.PackPages` | utils.py:105-131 | the packing loop as written computes the fold `Pack`, returns at least one block, and keeps every block within `B` |
| `Extraction.ExtractContentFromUrls` | utils.py:99-134 | fails exactly on an empty URL list (zero-sized pool); otherwise returns between 1 and `len(urls)` blocks, each within 14000 characters |
| `Prompts.SummaryPrompt` | utils.py:189-209 | a prompt is the fixed template text plus the query plus the content, in length |
| `Prompts.ContentOfSummaryPrompt` | utils.py:200-209 | reading the content back out of a prompt recovers it |
| `Prompts.SummaryPromptOfContent` | utils.py:200-209 | only the prompt built from a content reads back as that content |
| `Prompts.SummaryPromptInjective` | utils.py:200-209 | for one query, different contents give different prompts |
| `Prompts.SummaryPromptMentions` | utils.py:200-208 | every prompt contains the query and the content verbatim, at fixed positions |
| `Prompts.SummaryPrompts` | utils.py:172-186 | one prompt per content block, in block order, each the summary prompt of that block |
| `Prompts.SummaryPromptsRecoverContents` | utils.py:182-186 | every block can be read back from its prompt |
| `Summarize.SummarizeEach` | utils.py:258-261 | the map stage makes exactly one model call per prompt, in prompt order; summary `i` is the model's answer to prompt `i` |
| `Summarize.Ask` | utils.py:271 | one model call: the answer to the prompt, with the prompt recorded once |
| `Summarize.ReducePrompt` | utils.py:267-270 | the reduce prompt wraps the summaries joined by blank lines and cut to `B`; `ReducePromptContent` states what it contains |
| `Summarize.ReducePromptContent` | utils.py:265-270 | the reduce prompt's content is the summaries joined by blank lines in order, cut to `B`: the whole join when it fits, otherwise exactly its first `B` characters |
| `Summarize.Reduce` | utils.py:258-274 | one prompt gives its own summary after one call; N > 1 prompts give N calls in prompt order, then one reduce call on the joined, truncated summaries, whose answer is the result |
| `Summarize.ReduceCallCount` | utils.py:258-273 | the model is called once for one prompt and N + 1 times for N > 1 prompts |
| `Summarize.GenerateSummary` | utils.py:238-274 | a missing `OPENAI_API_KEY` fails before any call; an empty prompt list fails like the zero-sized pool; otherwise the calls start with the prompts, in order, and number at most one more |
| `Research.ResearchQuery` | main.py:44-53 | a run fails on no URLs, then on a missing key, and otherwise succeeds with between 1 and `len(urls) + 1` model calls |
| `Research.ResearchCallsFollowBlocks` | main.py:44-53 | the first model calls of a run are the prompts of the content blocks, in block order, each holding its block verbatim |
| `Research.ScenarioOneBlock` | main.py:44-53 | for the query "test" and pages ("hello world", "A") and ("foo bar", "B"), the 14000-character budget gives one block with both fragments in order, and the run makes one model call whose answer is the result |
| `Research.ScenarioSplit` | utils.py:105-273 | with a 20-character budget the same pages give two blocks, one per page, and summarising them makes three model calls |
| `Research.ScenarioNoOverfullMerge` | utils.py:114-124 | with `B` = 10 and fragments of 4, 6 and 13 characters, putting the first two into one block is not a greedy run, even though together they equal the 10-character head of the third |

## Left out

- `query_bing` (utils.py:35-80): an HTTP call to the web-search API and its credential check. Its
  result, the list of URLs, is an input of `ResearchQuery`.
- `extract_content_from_url` (utils.py:137-169): an HTTP fetch and HTML parsing. It is the
  function parameter `fetch`. Its failure result `('', '')` is `Extraction.FailedPage`.
- The worker pools (utils.py:100-102, 259-261): their concurrency is not modelled. `pool.map` keeps
  input order, so both stages are sequential maps. A zero-sized pool is the `EmptyPool` error.
  The recorded call order is the prompt order; the real calls of the map stage run concurrently.
- The chat-completion call (utils.py:223-235): a foreign network call. It is the function
  parameter `llm`. Its exception-to-`""` behaviour is just one of the strings `llm` may return.
- Page contents and model answers are functions of their inputs: a repeated URL or an identical
  prompt always gets the same answer in the model. The source fetches over the network and samples
  the model at temperature 0.6 (utils.py:228), so it may answer differently; no stated property
  depends on the difference.
- `Extraction.ScanWithinBudget`: its exactly-`B` case says only that the block is the head of some
  oversized fragment. That the block holds that one fragment alone is stated for the output by
  `Extraction.PackOversizedBlock`.
- Environment variables (utils.py:253-256): `OPENAI_API_KEY` is an `Option<string>` parameter.
  Only its presence matters, as in the source.
- Logging throughout, the web front end (`app.py`: routes, progress events, Redis), and the
  argument parsing, colours and printing of `main.py`.
- String lengths: Python's `len` counts code points. Dafny's `char` is a Unicode scalar value,
  so the two agree except on lone surrogates, which the model does not treat.
- The idempotence of a run with fixed fetcher and model answers needs no lemma. Every member is a
  pure function, so equal inputs give equal results.
