/**
 * The embedding step of document processing, on page values: which pages
 * are embedded, how their overviews are cut into provider requests of at
 * most 50 texts, and which vector and model each embedded page receives.
 */
module Embeddings {

  import opened Wrappers
  import opened Common
  import opened Documents
  import opened ExternalCalls

  /** `ERROR_VECTOR_MODEL`: the model name that marks a failed embedding. */
  const ErrorModel := "ERROR"

  /** `EmbeddingsConnector.MODEL_NAME`: the model a successful embedding records. */
  const ModelName := "Cohere"

  /** `pagesInBatch`: the most texts one provider request carries. */
  const BatchSize := 50

  /** The text sent for a page that has no overview. */
  const NoOverview := "An overview for this content is currently unavailable"

  /** The embedding provider: one vector per text it manages to embed, possibly fewer than asked for. */
  type Embedder = seq<string> -> seq<seq<real>>

  /** `IsPageEmbeddingValid` on a page's value: a vector is present and its model is not the error model. */
  predicate HasValidEmbedding(v: PageView)
  {
    v.embedding.Some? && v.embedding.value.model != ErrorModel
  }

  /** The filter of `GetEmbeddingsAsync`: no valid embedding yet, and an overview that is not blank. */
  predicate NeedsEmbedding(v: PageView)
  {
    !HasValidEmbedding(v) && !IsNullOrWhiteSpace(v.overview)
  }

  /** The positions of the pages to embed, in page order. */
  function Positions(views: seq<PageView>): (r: seq<nat>)
    ensures forall j :: 0 <= j < |r| ==> r[j] < |views| && NeedsEmbedding(views[r[j]])
    ensures forall j, l :: 0 <= j < l < |r| ==> r[j] < r[l]
    ensures forall i :: 0 <= i < |views| && NeedsEmbedding(views[i]) ==> i in r
  {
    if views == [] then []
    else
      var init := Positions(views[..|views| - 1]);
      if NeedsEmbedding(views[|views| - 1]) then init + [|views| - 1] else init
  }

  /** The texts sent for the pages at `positions`: their overviews, with the fallback text for a missing one. */
  function OverviewTexts(views: seq<PageView>, positions: seq<nat>): (r: seq<string>)
    requires forall j :: 0 <= j < |positions| ==> positions[j] < |views|
    ensures |r| == |positions|
  {
    seq(|positions|, j requires 0 <= j < |positions| =>
      match views[positions[j]].overview
      case Some(o) => o
      case None => NoOverview)
  }

  /** The texts to embed, one per page to embed, in page order. */
  function CandidateTexts(views: seq<PageView>): (r: seq<string>)
  {
    OverviewTexts(views, Positions(views))
  }

  /** `texts.Skip(from).Take(BatchSize)`. */
  function Batch(texts: seq<string>, from: nat): (r: seq<string>)
    requires from < |texts|
  {
    if from + BatchSize <= |texts| then texts[from..from + BatchSize] else texts[from..]
  }

  /** The provider requests of the batch loop, from text `from` on. */
  function BatchCalls(texts: seq<string>, from: nat): seq<Call>
    decreases |texts| - from
  {
    if from >= |texts| then [] else [Embed(Batch(texts, from))] + BatchCalls(texts, from + BatchSize)
  }

  /** The vectors the batch loop collects, from text `from` on, in request order. */
  function BatchVectors(texts: seq<string>, from: nat, embed: Embedder): seq<seq<real>>
    decreases |texts| - from
  {
    if from >= |texts| then [] else embed(Batch(texts, from)) + BatchVectors(texts, from + BatchSize, embed)
  }

  /** The texts a sequence of calls sends to the embedding provider, in order. */
  function SentTexts(calls: seq<Call>): seq<string>
  {
    if calls == [] then []
    else (if calls[0].Embed? then calls[0].texts else []) + SentTexts(calls[1..])
  }

  /**
   * The requests carry every text exactly once and in order, each request
   * holds between 1 and 50 texts, and there are ceil(n / 50) of them: none
   * when there is nothing to embed.
   */
  lemma {:induction false} BatchCallsShape(texts: seq<string>, from: nat)
    requires from <= |texts|
    ensures var calls := BatchCalls(texts, from);
      && |calls| == (|texts| - from + BatchSize - 1) / BatchSize
      && SentTexts(calls) == texts[from..]
      && forall c :: c in calls ==> c.Embed? && 1 <= |c.texts| <= BatchSize
    decreases |texts| - from
  {
    if from < |texts| {
      var batch := Batch(texts, from);
      var next := from + BatchSize;
      var calls := BatchCalls(texts, from);
      if next <= |texts| {
        BatchCallsShape(texts, next);
        assert texts[from..] == batch + texts[next..];
      } else {
        assert BatchCalls(texts, next) == [];
        assert texts[from..] == batch + [];
      }
      assert calls == [Embed(batch)] + BatchCalls(texts, next);
      assert calls[1..] == BatchCalls(texts, next);
    }
  }

  /**
   * What candidate `j` receives: the `j`-th collected vector with the
   * provider's model, or an empty vector with the error model when the
   * provider returned fewer vectors (or the page has no overview).
   */
  function Assigned(overview: Option<string>, all: seq<seq<real>>, j: nat): (r: EmbeddingView)
  {
    var model := if overview.None? || j >= |all| then ErrorModel else ModelName;
    EmbeddingView(model, if j < |all| then all[j] else [])
  }

  /** A page to embed has an overview, so it gets the provider's model exactly when a vector came back for it. */
  lemma AssignedToCandidate(v: PageView, all: seq<seq<real>>, j: nat)
    requires NeedsEmbedding(v)
    ensures Assigned(v.overview, all, j).model == ModelName <==> j < |all|
    ensures Assigned(v.overview, all, j).model == ErrorModel <==> j >= |all|
    ensures j < |all| ==> Assigned(v.overview, all, j).vector == all[j]
    ensures j >= |all| ==> Assigned(v.overview, all, j).vector == []
  {
  }

  /** Distinct positions within the views. */
  predicate ValidPositions(views: seq<PageView>, positions: seq<nat>)
  {
    && (forall j :: 0 <= j < |positions| ==> positions[j] < |views|)
    && (forall j, l :: 0 <= j < l < |positions| ==> positions[j] != positions[l])
  }

  /** The views after the assignment loop has handled the first `n` positions. */
  function EmbedFirst(views: seq<PageView>, positions: seq<nat>, all: seq<seq<real>>, n: nat): (r: seq<PageView>)
    requires n <= |positions| && ValidPositions(views, positions)
    ensures |r| == |views|
    ensures forall i :: 0 <= i < |views| ==> r[i] == views[i].(embedding := r[i].embedding)
  {
    if n == 0 then views
    else
      var k := positions[n - 1];
      WithEmbedding(EmbedFirst(views, positions, all, n - 1), k, Assigned(views[k].overview, all, n - 1))
  }

  /** The views after `GetEmbeddingsAsync`, given the vectors the provider returned. */
  function Embedded(views: seq<PageView>, all: seq<seq<real>>): (r: seq<PageView>)
    ensures |r| == |views|
    ensures forall i :: 0 <= i < |views| ==> r[i] == views[i].(embedding := r[i].embedding)
  {
    var positions := Positions(views);
    assert ValidPositions(views, positions);
    EmbedFirst(views, positions, all, |positions|)
  }

  /** After `n` steps, the first `n` positions carry their assignment and every other page is as before. */
  lemma EmbedFirstAt(views: seq<PageView>, positions: seq<nat>, all: seq<seq<real>>, n: nat)
    requires n <= |positions| && ValidPositions(views, positions)
    ensures var r := EmbedFirst(views, positions, all, n);
      && (forall j :: 0 <= j < n ==>
            r[positions[j]] == views[positions[j]].(embedding := Some(Assigned(views[positions[j]].overview, all, j))))
      && (forall i :: 0 <= i < |views| && i !in positions[..n] ==> r[i] == views[i])
  {
    forall j | 0 <= j < n
      ensures EmbedFirst(views, positions, all, n)[positions[j]]
                == views[positions[j]].(embedding := Some(Assigned(views[positions[j]].overview, all, j)))
    {
      EmbedFirstAssigned(views, positions, all, n, j);
    }
    forall i | 0 <= i < |views| && i !in positions[..n]
      ensures EmbedFirst(views, positions, all, n)[i] == views[i]
    {
      EmbedFirstKeeps(views, positions, all, n, i);
    }
  }

  /** The `j`-th position, once handled, carries assignment `j`: later steps touch other positions. */
  lemma {:induction false} EmbedFirstAssigned(views: seq<PageView>, positions: seq<nat>, all: seq<seq<real>>, n: nat, j: nat)
    requires j < n <= |positions| && ValidPositions(views, positions)
    ensures EmbedFirst(views, positions, all, n)[positions[j]]
              == views[positions[j]].(embedding := Some(Assigned(views[positions[j]].overview, all, j)))
  {
    var k := positions[n - 1];
    var prev := EmbedFirst(views, positions, all, n - 1);
    assert EmbedFirst(views, positions, all, n) == WithEmbedding(prev, k, Assigned(views[k].overview, all, n - 1));
    if j < n - 1 {
      assert positions[j] != k;
      EmbedFirstAssigned(views, positions, all, n - 1, j);
    } else {
      var r := EmbedFirst(views, positions, all, n);
      assert r[k] == views[k].(embedding := r[k].embedding);
      assert r[k].embedding == Some(Assigned(views[k].overview, all, j));
    }
  }

  /** A page at no handled position is unchanged. */
  lemma {:induction false} EmbedFirstKeeps(views: seq<PageView>, positions: seq<nat>, all: seq<seq<real>>, n: nat, i: nat)
    requires n <= |positions| && ValidPositions(views, positions) && i < |views| && i !in positions[..n]
    ensures EmbedFirst(views, positions, all, n)[i] == views[i]
  {
    if n > 0 {
      assert positions[..n] == positions[..n - 1] + [positions[n - 1]];
      EmbedFirstKeeps(views, positions, all, n - 1, i);
    }
  }

  /**
   * `GetEmbeddingsAsync` on page values: the `j`-th page to embed receives
   * `Assigned(.., j)`; every other page, the pages with a valid embedding and
   * the pages without an overview among them, is left exactly as it was.
   */
  lemma EmbeddedPages(views: seq<PageView>, all: seq<seq<real>>)
    ensures var r := Embedded(views, all);
      var positions := Positions(views);
      && |r| == |views|
      && (forall j :: 0 <= j < |positions| ==>
            r[positions[j]] == views[positions[j]].(embedding := Some(Assigned(views[positions[j]].overview, all, j))))
      && (forall i :: 0 <= i < |views| && !NeedsEmbedding(views[i]) ==> r[i] == views[i])
  {
    var positions := Positions(views);
    EmbedFirstAt(views, positions, all, |positions|);
    assert positions[..|positions|] == positions;
  }

  /** Without a page to embed there is nothing to send. */
  lemma {:induction false} NoPositions(views: seq<PageView>)
    requires forall i :: 0 <= i < |views| ==> !NeedsEmbedding(views[i])
    ensures Positions(views) == []
  {
    if views != [] {
      NoPositions(views[..|views| - 1]);
    }
  }

  /**
   * When the provider returns a vector for every text, no page is left
   * needing an embedding afterwards: running the step again sends nothing.
   */
  lemma EmbeddedComplete(views: seq<PageView>, all: seq<seq<real>>)
    requires |all| >= |Positions(views)|
    ensures Positions(Embedded(views, all)) == []
  {
    var r := Embedded(views, all);
    var positions := Positions(views);
    EmbeddedPages(views, all);
    forall i | 0 <= i < |r| ensures !NeedsEmbedding(r[i]) {
      if NeedsEmbedding(views[i]) {
        var j :| 0 <= j < |positions| && positions[j] == i;
        AssignedToCandidate(views[i], all, j);
      }
    }
    NoPositions(r);
  }
}
