/**
  Content extraction: turning the pages fetched for a query into bounded content blocks.

  Each page contributes the fragment "\n\n" + title + "\n\n" + text. The fragments are packed
  greedily, in page order, into blocks of fewer than `budget` characters; a fragment that does
  not fit seals the block being built (when it is non-empty) and starts a new one, truncated to
  the budget.
*/
module Extraction {
  import opened Wrappers
  import opened Budget
  import opened Text

  /** What the page extractor returns for one URL: the text of its paragraphs and its title, if any. */
  datatype Page = Page(text: string, title: Option<string>)

  /** What the extractor returns when fetching or parsing a page fails: empty text and an EMPTY title. */
  const FailedPage: Page := Page("", Some(""))

  /** The blank line written before the title and before the text of every fragment. */
  const BlankLine: string := "\n\n"

  /** The title a page is filed under: its own, or the query when it declares none. */
  function Title(query: string, page: Page): string
  {
    match page.title
    case None => query
    case Some(t) => t
  }

  /** The fragment a page contributes to a content block. */
  function Fragment(query: string, page: Page): (f: string)
    ensures |f| == |BlankLine| + |Title(query, page)| + |BlankLine| + |page.text|
  {
    BlankLine + Title(query, page) + BlankLine + page.text
  }

  /** The fragments of a sequence of pages, one per page, in page order. */
  function Fragments(query: string, pages: seq<Page>): (fs: seq<string>)
    ensures |fs| == |pages|
    ensures forall i :: 0 <= i < |pages| ==> fs[i] == Fragment(query, pages[i])
    decreases |pages|
  {
    if |pages| == 0 then []
    else Fragments(query, pages[..|pages| - 1]) + [Fragment(query, pages[|pages| - 1])]
  }

  /** The state of the packing loop: the blocks sealed so far and the block being built. */
  datatype Packing = Packing(sealed: seq<string>, current: string)

  /** The state before any page is seen. */
  const Start: Packing := Packing([], "")

  /** The blocks a packing state stands for once the loop ends: the current block is always emitted. */
  function Blocks(p: Packing): seq<string>
  {
    p.sealed + [p.current]
  }

  /**
    One iteration of the packing loop over one fragment. At most one block is sealed, and the
    current block stays within the budget.
  */
  function Step(p: Packing, fragment: string, budget: nat): (q: Packing)
    ensures |p.sealed| <= |q.sealed| <= |p.sealed| + 1
    ensures |q.current| <= budget
  {
    if |p.current| + |fragment| < budget then
      Packing(p.sealed, p.current + fragment)
    else
      Packing(if |p.current| > 0 then p.sealed + [p.current] else p.sealed, Truncate(fragment, budget))
  }

  /** A loop iteration never changes a block already sealed; it only appends the current one. */
  lemma StepKeepsSealed(p: Packing, fragment: string, budget: nat)
    ensures Step(p, fragment, budget).sealed[..|p.sealed|] == p.sealed
    ensures |Step(p, fragment, budget).sealed| > |p.sealed| ==>
      Step(p, fragment, budget).sealed == p.sealed + [p.current] && |p.current| > 0
  {
  }

  /** The packing state after the loop has seen every fragment of `fs`, in order. */
  function Scan(fs: seq<string>, budget: nat): (p: Packing)
    ensures |p.sealed| <= |fs|
    ensures |p.current| <= budget
    decreases |fs|
  {
    if |fs| == 0 then Start else Step(Scan(fs[..|fs| - 1], budget), fs[|fs| - 1], budget)
  }

  /** The content blocks packed from `pages` under `budget`; the last one is the block being built. */
  function Pack(query: string, pages: seq<Page>, budget: nat): (blocks: seq<string>)
    ensures 1 <= |blocks| <= |pages| + 1
    ensures |blocks[|blocks| - 1]| <= budget
  {
    Blocks(Scan(Fragments(query, pages), budget))
  }

  /** Each fragment cut to the budget: what packing keeps of it. */
  function Clip(fs: seq<string>, budget: nat): (cs: seq<string>)
    ensures |cs| == |fs|
    ensures forall i :: 0 <= i < |fs| ==> cs[i] == Truncate(fs[i], budget)
  {
    seq(|fs|, i requires 0 <= i < |fs| => Truncate(fs[i], budget))
  }

  /** Cutting one more fragment and concatenating adds that fragment, cut, at the end. */
  lemma ConcatClipSnoc(xs: seq<string>, x: string, budget: nat)
    ensures Concat(Clip(xs + [x], budget)) == Concat(Clip(xs, budget)) + Truncate(x, budget)
  {
    assert Clip(xs + [x], budget) == Clip(xs, budget) + [Truncate(x, budget)];
    ConcatSnoc(Clip(xs, budget), Truncate(x, budget));
  }

  /** Clipping and concatenating a slice adds its last fragment, cut to the budget, to the slice without it. */
  lemma ConcatClipSlice(fs: seq<string>, a: nat, b: nat, budget: nat)
    requires a < b <= |fs|
    ensures Concat(Clip(fs[a..b], budget)) == Concat(Clip(fs[a..b - 1], budget)) + Truncate(fs[b - 1], budget)
  {
    assert fs[a..b] == fs[a..b - 1] + [fs[b - 1]];
    ConcatClipSnoc(fs[a..b - 1], fs[b - 1], budget);
  }

  /** `b` is the budget-long head of some fragment of `fs` that alone reaches the budget. */
  ghost predicate TruncatedHead(b: string, fs: seq<string>, budget: nat)
  {
    exists j :: 0 <= j < |fs| && budget <= |fs[j]| && b == fs[j][..budget]
  }

  /** A block is either strictly below the budget, or the truncated head of one oversized fragment. */
  ghost predicate WithinBudget(b: string, fs: seq<string>, budget: nat)
  {
    |b| < budget || (|b| == budget && TruncatedHead(b, fs, budget))
  }

  lemma TruncatedHeadExtends(b: string, fs: seq<string>, budget: nat)
    requires |fs| > 0
    requires TruncatedHead(b, fs[..|fs| - 1], budget)
    ensures TruncatedHead(b, fs, budget)
  {
    var j :| 0 <= j < |fs| - 1 && budget <= |fs[..|fs| - 1][j]| && b == fs[..|fs| - 1][j][..budget];
    assert fs[..|fs| - 1][j] == fs[j];
  }

  /** Every sealed block is non-empty, and every block, sealed or current, is within the budget. */
  lemma {:induction false} ScanWithinBudget(fs: seq<string>, budget: nat)
    ensures forall i :: 0 <= i < |Scan(fs, budget).sealed| ==> |Scan(fs, budget).sealed[i]| > 0
    ensures forall i :: 0 <= i < |Scan(fs, budget).sealed| ==> WithinBudget(Scan(fs, budget).sealed[i], fs, budget)
    ensures WithinBudget(Scan(fs, budget).current, fs, budget) || Scan(fs, budget).current == ""
    decreases |fs|
  {
    if |fs| > 0 {
      var init := fs[..|fs| - 1];
      var f := fs[|fs| - 1];
      var p := Scan(init, budget);
      ScanWithinBudget(init, budget);
      forall i | 0 <= i < |p.sealed|
        ensures WithinBudget(p.sealed[i], fs, budget)
      {
        if |p.sealed[i]| >= budget {
          TruncatedHeadExtends(p.sealed[i], fs, budget);
        }
      }
      if |p.current| > 0 && |p.current| >= budget {
        TruncatedHeadExtends(p.current, fs, budget);
      }
      if !(|p.current| + |f| < budget) && budget <= |f| {
        assert fs[|fs| - 1] == f;
      }
    }
  }

  /** Each fragment adds at most one block: sealed blocks plus a non-empty current one never outnumber the fragments. */
  lemma {:induction false} ScanCount(fs: seq<string>, budget: nat)
    ensures |Scan(fs, budget).sealed| + (if Scan(fs, budget).current == "" then 0 else 1) <= |fs|
    ensures |fs| > 0 ==> |Scan(fs, budget).sealed| < |fs|
    decreases |fs|
  {
    if |fs| > 0 {
      ScanCount(fs[..|fs| - 1], budget);
    }
  }

  /** Nothing is lost or reordered: the blocks concatenate to the fragments, each cut to the budget. */
  lemma {:induction false} ScanCovers(fs: seq<string>, budget: nat)
    ensures Concat(Scan(fs, budget).sealed) + Scan(fs, budget).current == Span(fs, 0, |fs|, budget)
    decreases |fs|
  {
    if |fs| > 0 {
      var init, f := fs[..|fs| - 1], fs[|fs| - 1];
      assert init + [f] == fs;
      var p := Scan(init, budget);
      ScanCovers(init, budget);
      SpanSnoc(init, f, 0, budget);
      if |p.current| + |f| < budget {
        TruncateFits(f, budget);
        assert Scan(fs, budget) == Packing(p.sealed, p.current + f);
      } else if |p.current| > 0 {
        ConcatSnoc(p.sealed, p.current);
        assert Scan(fs, budget) == Packing(p.sealed + [p.current], Truncate(f, budget));
      } else {
        assert Scan(fs, budget) == Packing(p.sealed, Truncate(f, budget));
      }
    }
  }

  /** When everything fits below the budget, packing yields the single block of all fragments. */
  lemma {:induction false} ScanFits(fs: seq<string>, budget: nat)
    requires |Concat(fs)| < budget
    ensures Scan(fs, budget) == Packing([], Concat(fs))
    decreases |fs|
  {
    if |fs| > 0 {
      ScanFits(fs[..|fs| - 1], budget);
    }
  }

  /**
    The title falls back to the query only when the page declares none; the extraction-failure
    page keeps its empty title, so its fragment is the four newlines alone.
  */
  lemma TitleFallback(query: string, text: string, title: string)
    ensures Fragment(query, Page(text, None)) == "\n\n" + query + "\n\n" + text
    ensures Fragment(query, Page(text, Some(title))) == "\n\n" + title + "\n\n" + text
    ensures Fragment(query, FailedPage) == "\n\n\n\n"
  {
  }

  /** Every block is within the budget: strictly below it, or exactly the budget-long head of one oversized fragment. */
  lemma PackWithinBudget(query: string, pages: seq<Page>, budget: nat)
    ensures forall i :: 0 <= i < |Pack(query, pages, budget)| ==> |Pack(query, pages, budget)[i]| <= budget
    ensures 0 < budget ==> forall i :: 0 <= i < |Pack(query, pages, budget)| ==>
      |Pack(query, pages, budget)[i]| < budget ||
      exists j :: 0 <= j < |pages| && budget <= |Fragment(query, pages[j])|
        && Pack(query, pages, budget)[i] == Fragment(query, pages[j])[..budget]
  {
    var fs := Fragments(query, pages);
    var p := Scan(fs, budget);
    ScanWithinBudget(fs, budget);
    forall i | 0 <= i < |Blocks(p)| && 0 < budget
      ensures |Blocks(p)[i]| < budget ||
        exists j :: 0 <= j < |pages| && budget <= |Fragment(query, pages[j])|
          && Blocks(p)[i] == Fragment(query, pages[j])[..budget]
    {
      var b := Blocks(p)[i];
      if i < |p.sealed| {
        assert b == p.sealed[i];
      }
      if |b| >= budget {
        var j :| 0 <= j < |fs| && budget <= |fs[j]| && b == fs[j][..budget];
        assert fs[j] == Fragment(query, pages[j]);
      }
    }
  }

  /** Only the last block may be empty: a block is sealed mid-loop only when it is non-empty. */
  lemma PackNoEmptyBlockBeforeLast(query: string, pages: seq<Page>, budget: nat)
    ensures forall i :: 0 <= i < |Pack(query, pages, budget)| - 1 ==> |Pack(query, pages, budget)[i]| > 0
    ensures |pages| > 0 && budget > 0 ==> |Pack(query, pages, budget)[|Pack(query, pages, budget)| - 1]| > 0
  {
    var fs := Fragments(query, pages);
    ScanWithinBudget(fs, budget);
  }

  /** Packing returns at least one block, and never more blocks than pages when there is a page. */
  lemma PackCount(query: string, pages: seq<Page>, budget: nat)
    ensures 1 <= |Pack(query, pages, budget)|
    ensures |pages| > 0 ==> |Pack(query, pages, budget)| <= |pages|
  {
    ScanCount(Fragments(query, pages), budget);
  }

  /**
    Order and coverage: the blocks concatenate to the page fragments in page order, each cut to the
    budget; when no fragment exceeds the budget, to the fragments themselves.
  */
  lemma PackCovers(query: string, pages: seq<Page>, budget: nat)
    ensures Concat(Pack(query, pages, budget)) == Concat(Clip(Fragments(query, pages), budget))
    ensures (forall i :: 0 <= i < |pages| ==> |Fragment(query, pages[i])| <= budget) ==>
      Concat(Pack(query, pages, budget)) == Concat(Fragments(query, pages))
  {
    var fs := Fragments(query, pages);
    var p := Scan(fs, budget);
    ScanCovers(fs, budget);
    ConcatSnoc(p.sealed, p.current);
    SpanIsConcatClip(fs, 0, |fs|, budget);
    assert fs[0..|fs|] == fs;
    if forall i :: 0 <= i < |pages| ==> |Fragment(query, pages[i])| <= budget {
      assert Clip(fs, budget) == fs;
    }
  }

  /**
    The index of the fragment each block starts at, in block order. A new block starts where a
    fragment does not fit and the block being built is sealed; when the block being built is
    empty it is not sealed, and the fragments it held (all empty once cut) stay with the next one.
  */
  function BlockStarts(fs: seq<string>, budget: nat): (ks: seq<nat>)
    ensures |ks| == |Scan(fs, budget).sealed| + 1
    decreases |fs|
  {
    if |fs| == 0 then [0]
    else NextStarts(BlockStarts(fs[..|fs| - 1], budget), Scan(fs[..|fs| - 1], budget), fs[|fs| - 1], |fs| - 1, budget)
  }

  /** The block starts after fragment number `n`, `f`, is packed into state `p`: it starts a block exactly when `Step` seals one. */
  function NextStarts(ks: seq<nat>, p: Packing, f: string, n: nat, budget: nat): (next: seq<nat>)
    ensures |next| == |ks| + |Step(p, f, budget).sealed| - |p.sealed|
  {
    if |p.current| + |f| >= budget && |p.current| > 0 then ks + [n] else ks
  }

  /** The fragments `fs[a..b]`, each cut to the budget, concatenated in order. */
  function Span(fs: seq<string>, a: nat, b: nat, budget: nat): string
    requires a <= b <= |fs|
    decreases b - a
  {
    if a == b then "" else Span(fs, a, b - 1, budget) + Truncate(fs[b - 1], budget)
  }

  /** A span is the concatenation of its fragments, each cut to the budget. */
  lemma {:induction false} SpanIsConcatClip(fs: seq<string>, a: nat, b: nat, budget: nat)
    requires a <= b <= |fs|
    ensures Span(fs, a, b, budget) == Concat(Clip(fs[a..b], budget))
    decreases b - a
  {
    if a == b {
      assert Clip(fs[a..b], budget) == [];
    } else {
      SpanIsConcatClip(fs, a, b - 1, budget);
      ConcatClipSlice(fs, a, b, budget);
    }
  }

  /** A span is unchanged by a fragment added after it. */
  lemma {:induction false} SpanExtend(fs: seq<string>, f: string, a: nat, b: nat, budget: nat)
    requires a <= b <= |fs|
    ensures Span(fs + [f], a, b, budget) == Span(fs, a, b, budget)
    decreases b - a
  {
    if a < b {
      SpanExtend(fs, f, a, b - 1, budget);
      assert (fs + [f])[b - 1] == fs[b - 1];
    }
  }

  /** A span reaching the end grows by the added fragment, cut to the budget. */
  lemma SpanSnoc(fs: seq<string>, f: string, a: nat, budget: nat)
    requires a <= |fs|
    ensures Span(fs + [f], a, |fs| + 1, budget) == Span(fs, a, |fs|, budget) + Truncate(f, budget)
  {
    SpanExtend(fs, f, a, |fs|, budget);
    assert (fs + [f])[|fs|] == f;
  }

  /**
    `ks` are the starts of the blocks of packing state `p` over fragments `fs`: block `i` is the
    fragments from start `i` up to the next start (or the end), each cut to the budget, and a
    sealed block took the budget or more together with the fragment that starts the next block.
  */
  ghost predicate Segments(fs: seq<string>, ks: seq<nat>, p: Packing, budget: nat)
  {
    && |ks| == |p.sealed| + 1
    && ks[0] == 0
    && (forall i :: 0 <= i < |ks| ==> ks[i] < |fs| || (|fs| == 0 && ks[i] == 0))
    && (forall i, j :: 0 <= i < j < |ks| ==> ks[i] < ks[j])
    && (forall i :: 0 <= i < |p.sealed| ==>
          && p.sealed[i] == Span(fs, ks[i], ks[i + 1], budget)
          && |p.sealed[i]| + |fs[ks[i + 1]]| >= budget)
    && p.current == Span(fs, ks[|ks| - 1], |fs|, budget)
  }

  /** The sealed blocks keep their spans when a fragment is added. */
  lemma SealedSpansExtend(fs: seq<string>, f: string, ks: seq<nat>, p: Packing, budget: nat)
    requires Segments(fs, ks, p, budget)
    ensures forall i :: 0 <= i < |p.sealed| ==>
      && p.sealed[i] == Span(fs + [f], ks[i], ks[i + 1], budget)
      && |p.sealed[i]| + |(fs + [f])[ks[i + 1]]| >= budget
  {
    forall i | 0 <= i < |p.sealed|
      ensures p.sealed[i] == Span(fs + [f], ks[i], ks[i + 1], budget)
      ensures |p.sealed[i]| + |(fs + [f])[ks[i + 1]]| >= budget
    {
      SpanExtend(fs, f, ks[i], ks[i + 1], budget);
    }
  }

  /** Appending a fragment that fits extends the current block's span. */
  lemma SegmentsAppend(fs: seq<string>, f: string, ks: seq<nat>, p: Packing, budget: nat)
    requires Segments(fs, ks, p, budget)
    requires |p.current| + |f| < budget
    ensures Segments(fs + [f], ks, Packing(p.sealed, p.current + f), budget)
  {
    SpanSnoc(fs, f, ks[|ks| - 1], budget);
    TruncateFits(f, budget);
    SealedSpansExtend(fs, f, ks, p, budget);
  }

  /** Sealing a non-empty block starts a new span at the fragment that did not fit. */
  lemma SegmentsSeal(fs: seq<string>, f: string, ks: seq<nat>, p: Packing, budget: nat)
    requires Segments(fs, ks, p, budget)
    requires |p.current| + |f| >= budget && |p.current| > 0
    ensures Segments(fs + [f], ks + [|fs|], Packing(p.sealed + [p.current], Truncate(f, budget)), budget)
  {
    var gs, ls := fs + [f], ks + [|fs|];
    var last := ks[|ks| - 1];
    SpanExtend(fs, f, last, |fs|, budget);
    SpanSnoc(fs, f, |fs|, budget);
    assert Truncate(f, budget) == Span(gs, ls[|ls| - 1], |gs|, budget);
    SealedSpansExtend(fs, f, ks, p, budget);
    assert p.current == Span(gs, ls[|ks| - 1], ls[|ks|], budget) && gs[ls[|ks|]] == f;
    assert 0 < |fs|;
    assert forall i :: 0 <= i < |ls| ==> ls[i] < |gs|;
    var sealed := p.sealed + [p.current];
    forall i | 0 <= i < |sealed|
      ensures sealed[i] == Span(gs, ls[i], ls[i + 1], budget)
      ensures |sealed[i]| + |gs[ls[i + 1]]| >= budget
    {
      if i < |p.sealed| {
        assert sealed[i] == p.sealed[i] && ls[i] == ks[i] && ls[i + 1] == ks[i + 1];
      } else {
        assert sealed[i] == p.current && ls[i] == last && ls[i + 1] == |fs|;
      }
    }
  }

  /** A fragment that does not fit an empty block restarts it, within the same span. */
  lemma SegmentsRestart(fs: seq<string>, f: string, ks: seq<nat>, p: Packing, budget: nat)
    requires Segments(fs, ks, p, budget)
    requires |p.current| + |f| >= budget && |p.current| == 0
    ensures Segments(fs + [f], ks, Packing(p.sealed, Truncate(f, budget)), budget)
  {
    var gs := fs + [f];
    var last := ks[|ks| - 1];
    SpanSnoc(fs, f, last, budget);
    assert p.current == "";
    assert Truncate(f, budget) == Span(gs, last, |gs|, budget);
    SealedSpansExtend(fs, f, ks, p, budget);
    assert forall i :: 0 <= i < |ks| ==> ks[i] < |gs|;
  }

  /** One packing step keeps the block starts a segmentation of the fragments seen. */
  lemma SegmentsStep(fs: seq<string>, f: string, gs: seq<string>, ks: seq<nat>, p: Packing, budget: nat)
    requires Segments(fs, ks, p, budget)
    requires gs == fs + [f]
    ensures Segments(gs, NextStarts(ks, p, f, |fs|, budget), Step(p, f, budget), budget)
  {
    if |p.current| + |f| < budget {
      SegmentsAppend(fs, f, ks, p, budget);
    } else if |p.current| > 0 {
      SegmentsSeal(fs, f, ks, p, budget);
    } else {
      SegmentsRestart(fs, f, ks, p, budget);
    }
  }

  /** The block starts are a segmentation of the fragments seen, for every fragment sequence. */
  lemma {:induction false} ScanSegments(fs: seq<string>, budget: nat)
    ensures Segments(fs, BlockStarts(fs, budget), Scan(fs, budget), budget)
    decreases |fs|
  {
    if |fs| > 0 {
      var init, f := fs[..|fs| - 1], fs[|fs| - 1];
      assert init + [f] == fs;
      ScanSegments(init, budget);
      var ks, p := BlockStarts(init, budget), Scan(init, budget);
      assert Scan(fs, budget) == Step(p, f, budget);
      assert BlockStarts(fs, budget) == NextStarts(ks, p, f, |init|, budget);
      SegmentsStep(init, f, fs, ks, p, budget);
    }
  }

  /**
    Every fragment of `fs[a..b]` after the first joined the run because it fit: the run so far,
    each fragment cut to the budget, plus the whole fragment stayed below the budget, or the run
    so far was empty.
  */
  ghost predicate Joined(fs: seq<string>, a: nat, b: nat, budget: nat)
  {
    && a <= b <= |fs|
    && forall j {:trigger Span(fs, a, j, budget)} :: a < j < b ==>
         |Span(fs, a, j, budget)| + |fs[j]| < budget || Span(fs, a, j, budget) == ""
  }

  /** Every block between the starts `ks`, and the last one up to the end of `fs`, was grown only by fragments that fit. */
  ghost predicate RunsJoined(fs: seq<string>, ks: seq<nat>, budget: nat)
  {
    && 0 < |ks|
    && (forall i :: 0 <= i < |ks| - 1 ==> Joined(fs, ks[i], ks[i + 1], budget))
    && Joined(fs, ks[|ks| - 1], |fs|, budget)
  }

  /** A run keeps its reasons for joining when a fragment is added after it. */
  lemma JoinedExtend(fs: seq<string>, f: string, a: nat, b: nat, budget: nat)
    requires Joined(fs, a, b, budget)
    ensures Joined(fs + [f], a, b, budget)
  {
    forall j | a < j < b
      ensures |Span(fs + [f], a, j, budget)| + |(fs + [f])[j]| < budget || Span(fs + [f], a, j, budget) == ""
    {
      SpanExtend(fs, f, a, j, budget);
    }
  }

  /** A run reaching the end may take the added fragment when the run plus the fragment fits, or the run is empty. */
  lemma JoinedSnoc(fs: seq<string>, f: string, a: nat, budget: nat)
    requires Joined(fs, a, |fs|, budget)
    requires |Span(fs, a, |fs|, budget)| + |f| < budget || Span(fs, a, |fs|, budget) == ""
    ensures Joined(fs + [f], a, |fs| + 1, budget)
  {
    var gs := fs + [f];
    forall j | a < j < |gs|
      ensures |Span(gs, a, j, budget)| + |gs[j]| < budget || Span(gs, a, j, budget) == ""
    {
      SpanExtend(fs, f, a, j, budget);
      if j == |fs| {
        assert gs[j] == f;
      } else {
        assert gs[j] == fs[j];
      }
    }
  }

  /** The closed runs keep their reasons for joining when a fragment is added. */
  lemma RunsJoinedExtend(fs: seq<string>, f: string, ks: seq<nat>, budget: nat)
    requires RunsJoined(fs, ks, budget)
    ensures forall i :: 0 <= i < |ks| - 1 ==> Joined(fs + [f], ks[i], ks[i + 1], budget)
  {
    forall i | 0 <= i < |ks| - 1
      ensures Joined(fs + [f], ks[i], ks[i + 1], budget)
    {
      JoinedExtend(fs, f, ks[i], ks[i + 1], budget);
    }
  }

  /** A fragment that fits, or that replaces an empty block, joins the last run. */
  lemma RunsJoinedKeep(fs: seq<string>, f: string, ks: seq<nat>, budget: nat)
    requires RunsJoined(fs, ks, budget)
    requires |Span(fs, ks[|ks| - 1], |fs|, budget)| + |f| < budget || Span(fs, ks[|ks| - 1], |fs|, budget) == ""
    ensures RunsJoined(fs + [f], ks, budget)
  {
    RunsJoinedExtend(fs, f, ks, budget);
    JoinedSnoc(fs, f, ks[|ks| - 1], budget);
  }

  /** A fragment that starts a new block closes the last run as it was. */
  lemma RunsJoinedSeal(fs: seq<string>, f: string, ks: seq<nat>, budget: nat)
    requires RunsJoined(fs, ks, budget)
    ensures RunsJoined(fs + [f], ks + [|fs|], budget)
  {
    var gs, ls := fs + [f], ks + [|fs|];
    var last := ks[|ks| - 1];
    RunsJoinedExtend(fs, f, ks, budget);
    JoinedExtend(fs, f, last, |fs|, budget);
    assert Joined(gs, ls[|ls| - 1], |gs|, budget);
    forall i | 0 <= i < |ls| - 1
      ensures Joined(gs, ls[i], ls[i + 1], budget)
    {
      if i < |ks| - 1 {
        assert ls[i] == ks[i] && ls[i + 1] == ks[i + 1];
      } else {
        assert ls[i] == last && ls[i + 1] == |fs|;
      }
    }
  }

  /** One packing step appends a fragment to the block being built only when it fits. */
  lemma JoinedStep(fs: seq<string>, f: string, gs: seq<string>, ks: seq<nat>, p: Packing, budget: nat)
    requires RunsJoined(fs, ks, budget) && p.current == Span(fs, ks[|ks| - 1], |fs|, budget)
    requires gs == fs + [f]
    ensures RunsJoined(gs, NextStarts(ks, p, f, |fs|, budget), budget)
  {
    if |p.current| + |f| >= budget && |p.current| > 0 {
      RunsJoinedSeal(fs, f, ks, budget);
    } else {
      RunsJoinedKeep(fs, f, ks, budget);
    }
  }

  /** In every block, each fragment after the first was appended because it fit, for every fragment sequence. */
  lemma {:induction false} ScanJoined(fs: seq<string>, budget: nat)
    ensures RunsJoined(fs, BlockStarts(fs, budget), budget)
    decreases |fs|
  {
    if |fs| > 0 {
      var init, f := fs[..|fs| - 1], fs[|fs| - 1];
      assert init + [f] == fs;
      ScanJoined(init, budget);
      var ks, p := BlockStarts(init, budget), Scan(init, budget);
      assert p.current == Span(init, ks[|ks| - 1], |init|, budget) by {
        ScanSegments(init, budget);
      }
      assert BlockStarts(fs, budget) == NextStarts(ks, p, f, |init|, budget);
      JoinedStep(init, f, fs, ks, p, budget);
    }
  }

  /** The cut points of the blocks: their starts, then the number of fragments. */
  function BlockCuts(fs: seq<string>, budget: nat): (cuts: seq<nat>)
    ensures |cuts| == |Scan(fs, budget).sealed| + 2
  {
    BlockStarts(fs, budget) + [|fs|]
  }

  /**
    `blocks` are greedy runs of the fragments `fs` at cut points `cuts`: block `i` is the
    fragments from cut `i` up to cut `i + 1`, each cut to the budget, in order; each fragment
    after a block's first joined it only because it fit; and every block but the last was closed
    only because the fragment after it would have taken it to the budget or beyond.
  */
  ghost predicate GreedyRuns(fs: seq<string>, blocks: seq<string>, cuts: seq<nat>, budget: nat)
  {
    && |cuts| == |blocks| + 1
    && cuts[0] == 0
    && cuts[|blocks|] == |fs|
    && (forall i {:trigger blocks[i]} :: 0 <= i < |blocks| ==>
          && cuts[i] <= cuts[i + 1] <= |fs|
          && blocks[i] == Span(fs, cuts[i], cuts[i + 1], budget)
          && Joined(fs, cuts[i], cuts[i + 1], budget))
    && (forall i {:trigger blocks[i]} :: 0 <= i < |blocks| - 1 ==>
          cuts[i] < cuts[i + 1] < |fs| && |blocks[i]| + |fs[cuts[i + 1]]| >= budget)
  }

  /**
    The blocks packed from `pages` are greedy runs of whole page fragments, in page order: each
    block holds the fragments of consecutive pages, a page's fragment joins a block only when the
    block plus the fragment stays below the budget, and a block is closed only when the next
    page's fragment would take it to the budget or beyond.
  */
  lemma PackSegments(query: string, pages: seq<Page>, budget: nat)
    ensures GreedyRuns(Fragments(query, pages), Pack(query, pages, budget), BlockCuts(Fragments(query, pages), budget), budget)
  {
    var fs := Fragments(query, pages);
    ScanSegments(fs, budget);
    ScanJoined(fs, budget);
    SegmentsAreGreedyRuns(fs, BlockStarts(fs, budget), Scan(fs, budget), budget);
  }

  /** A run of two or more fragments whose second-to-last one is not empty stays strictly below a positive budget. */
  lemma JoinedBelowBudget(fs: seq<string>, a: nat, b: nat, budget: nat)
    requires Joined(fs, a, b, budget) && a + 1 < b && 0 < budget && |fs[b - 2]| > 0
    ensures |Span(fs, a, b, budget)| < budget
  {
    SpanNotEmpty(fs, a, b - 1, budget);
    SpanGrowth(fs, a, b, budget);
  }

  /** A span whose last fragment is not empty is not empty under a positive budget. */
  lemma SpanNotEmpty(fs: seq<string>, a: nat, b: nat, budget: nat)
    requires a < b <= |fs| && 0 < budget && |fs[b - 1]| > 0
    ensures Span(fs, a, b, budget) != ""
  {
    assert |Truncate(fs[b - 1], budget)| > 0;
  }

  /** A span grows by at most its last fragment. */
  lemma SpanGrowth(fs: seq<string>, a: nat, b: nat, budget: nat)
    requires a < b <= |fs|
    ensures |Span(fs, a, b, budget)| <= |Span(fs, a, b - 1, budget)| + |fs[b - 1]|
  {
  }

  /** In greedy runs of non-empty fragments, a block that reaches a positive budget is the budget-long head of its one fragment. */
  lemma OversizedRun(fs: seq<string>, blocks: seq<string>, cuts: seq<nat>, budget: nat, i: nat)
    requires GreedyRuns(fs, blocks, cuts, budget)
    requires forall k :: 0 <= k < |fs| ==> |fs[k]| > 0
    requires i < |blocks| && 0 < budget <= |blocks[i]|
    ensures cuts[i] + 1 == cuts[i + 1] <= |fs|
    ensures budget <= |fs[cuts[i]]| && blocks[i] == fs[cuts[i]][..budget]
  {
    var a, b := cuts[i], cuts[i + 1];
    assert blocks[i] == Span(fs, a, b, budget) && Joined(fs, a, b, budget);
    assert a < b;
    if a + 1 < b {
      JoinedBelowBudget(fs, a, b, budget);
      assert false;
    }
    assert blocks[i] == Truncate(fs[a], budget);
    TruncateIsPrefix(fs[a], budget);
  }

  /**
    A block that reaches a positive budget holds exactly one page: it is the budget-long head of
    the fragment at its cut, and that fragment alone reaches the budget. Blocks grown by appending
    always stay strictly below the budget.
  */
  lemma PackOversizedBlock(query: string, pages: seq<Page>, budget: nat)
    ensures ReachedAlone(Fragments(query, pages), Pack(query, pages, budget), BlockCuts(Fragments(query, pages), budget), budget)
  {
    var fs := Fragments(query, pages);
    var blocks, cuts := Pack(query, pages, budget), BlockCuts(fs, budget);
    PackSegments(query, pages, budget);
    assert forall k :: 0 <= k < |fs| ==> |fs[k]| > 0;
    OversizedRuns(fs, blocks, cuts, budget);
  }

  /**
    Every block at cuts `cuts` that reaches a positive budget is a single fragment's budget-long
    head: the next cut follows its own, and that fragment alone reaches the budget.
  */
  ghost predicate ReachedAlone(fs: seq<string>, blocks: seq<string>, cuts: seq<nat>, budget: nat)
  {
    && |cuts| == |blocks| + 1
    && forall i :: 0 <= i < |blocks| && 0 < budget <= |blocks[i]| ==>
         cuts[i] + 1 == cuts[i + 1] <= |fs| && budget <= |fs[cuts[i]]| && blocks[i] == fs[cuts[i]][..budget]
  }

  /** `OversizedRun` for every block. */
  lemma OversizedRuns(fs: seq<string>, blocks: seq<string>, cuts: seq<nat>, budget: nat)
    requires GreedyRuns(fs, blocks, cuts, budget)
    requires forall k :: 0 <= k < |fs| ==> |fs[k]| > 0
    ensures ReachedAlone(fs, blocks, cuts, budget)
  {
    forall i | 0 <= i < |blocks| && 0 < budget <= |blocks[i]|
      ensures cuts[i] + 1 == cuts[i + 1] <= |fs| && budget <= |fs[cuts[i]]| && blocks[i] == fs[cuts[i]][..budget]
    {
      OversizedRun(fs, blocks, cuts, budget, i);
    }
  }

  /** A segmented packing state, once its current block is emitted, is greedy runs at its starts and the end. */
  lemma SegmentsAreGreedyRuns(fs: seq<string>, ks: seq<nat>, p: Packing, budget: nat)
    requires Segments(fs, ks, p, budget) && RunsJoined(fs, ks, budget)
    ensures GreedyRuns(fs, Blocks(p), ks + [|fs|], budget)
  {
    var blocks := Blocks(p);
    var cuts := ks + [|fs|];
    forall i {:trigger blocks[i]} | 0 <= i < |blocks|
      ensures && cuts[i] <= cuts[i + 1] <= |fs|
              && blocks[i] == Span(fs, cuts[i], cuts[i + 1], budget)
              && Joined(fs, cuts[i], cuts[i + 1], budget)
    {
      if i < |p.sealed| {
        assert blocks[i] == p.sealed[i];
        assert cuts[i] == ks[i] && cuts[i + 1] == ks[i + 1];
      } else {
        assert cuts[i] == ks[|ks| - 1] && cuts[i + 1] == |fs|;
      }
    }
    forall i {:trigger blocks[i]} | 0 <= i < |blocks| - 1
      ensures cuts[i] < cuts[i + 1] < |fs| && |blocks[i]| + |fs[cuts[i + 1]]| >= budget
    {
      assert blocks[i] == p.sealed[i];
    }
  }

  /** When all fragments together stay below the budget, packing yields exactly one block holding them all. */
  lemma PackFits(query: string, pages: seq<Page>, budget: nat)
    requires |Concat(Fragments(query, pages))| < budget
    ensures Pack(query, pages, budget) == [Concat(Fragments(query, pages))]
  {
    ScanFits(Fragments(query, pages), budget);
  }

  /** The fold over the first `k + 1` pages is one step past the fold over the first `k`. */
  lemma ScanNextPage(query: string, pages: seq<Page>, k: nat, budget: nat)
    requires k < |pages|
    ensures Fragments(query, pages[..k + 1])[k] == Fragment(query, pages[k])
    ensures Scan(Fragments(query, pages[..k + 1]), budget)
      == Step(Scan(Fragments(query, pages[..k]), budget), Fragment(query, pages[k]), budget)
  {
    var seen := Fragments(query, pages[..k + 1]);
    assert pages[..k + 1][..k] == pages[..k];
    assert seen[..k] == Fragments(query, pages[..k]);
  }

  /** The packing loop of the extractor, statement by statement; it computes `Pack`. */
  method PackPages(query: string, pages: seq<Page>, budget: nat) returns (contents: seq<string>)
    ensures contents == Pack(query, pages, budget)
    ensures 1 <= |contents|
    ensures forall i :: 0 <= i < |contents| ==> |contents[i]| <= budget
  {
    contents := [];
    var current := "";
    for k := 0 to |pages|
      invariant Packing(contents, current) == Scan(Fragments(query, pages[..k]), budget)
    {
      ghost var before := Packing(contents, current);
      ghost var fragment := Fragment(query, pages[k]);
      ScanNextPage(query, pages, k, budget);
      var text := pages[k].text;
      var title := if pages[k].title.None? then query else pages[k].title.value;
      assert BlankLine + title + BlankLine + text == fragment;
      var textLen := |BlankLine + title + BlankLine| + |text|;
      if |current| + textLen < budget {
        current := current + (BlankLine + title + BlankLine + text);
      } else {
        if |current| > 0 {
          contents := contents + [current];
        }
        current := BlankLine + title + BlankLine + text;
        current := Truncate(current, budget);
      }
      assert Packing(contents, current) == Step(before, fragment, budget);
    }
    assert pages[..|pages|] == pages;
    contents := contents + [current];
    PackCount(query, pages, budget);
    PackWithinBudget(query, pages, budget);
  }

  /**
    The extractor over a list of URLs, with `fetch` standing for the page extractor. Like the
    worker pool sized to the URL count, it fails on an empty list.
  */
  function ExtractContentFromUrls(query: string, urls: seq<string>, fetch: string -> Page): (r: Result<seq<string>, PipelineError>)
    ensures r.Failure? <==> |urls| == 0
    ensures r.Failure? ==> r.error == EmptyPool
    ensures r.Success? ==> 1 <= |r.value| <= |urls|
    ensures r.Success? ==> forall i :: 0 <= i < |r.value| ==> |r.value[i]| <= MaxContentChars
  {
    if |urls| == 0 then Failure(EmptyPool)
    else
      var pages := seq(|urls|, i requires 0 <= i < |urls| => fetch(urls[i]));
      PackCount(query, pages, MaxContentChars);
      PackWithinBudget(query, pages, MaxContentChars);
      Success(Pack(query, pages, MaxContentChars))
  }
}
