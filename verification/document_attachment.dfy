/**
 * Attaching a document to the blocks of a workflow tree: the four
 * conditions under which one block takes the document, and the
 * children-first walk that offers it to the blocks of every workflow of the
 * tree (all blocks, or only the block with the requested order).
 */
module DocumentAttachment {

  import opened Wrappers
  import opened Common
  import opened Sorting
  import opened Documents
  import opened Workflows
  import opened DocumentInfos
  import opened ExternalCalls

  // ---------------------------------------------------------------------
  // Attaching one document to one block
  // ---------------------------------------------------------------------

  /** Whether some attached document has the given identifier. */
  predicate HasDocumentWithId(docs: seq<Document>, id: string)
  {
    exists d :: d in docs && d.Id == id
  }

  /** The four conditions under which a present document is attached to a block. */
  predicate Accepts(docs: seq<Document>, config: BlockConfig, info: DocumentInfo)
  {
    && Eligible(config.classes, info.DocumentClass)
    && config.usesDocuments
    && config.hasRagSettings
    && !HasDocumentWithId(docs, info.DocumentId)
  }

  /**
   * `LoadDocumentToBlock` on the block's document list: the document is
   * appended exactly when it is present and the four conditions hold, and
   * the list is otherwise unchanged.
   */
  function LoadOnce(docs: seq<Document>, config: BlockConfig, info: DocumentInfo): (r: seq<Document>)
  {
    if info.Document == null then docs
    else if !Eligible(config.classes, info.DocumentClass) || !config.usesDocuments then docs
    else if !config.hasRagSettings then docs
    else if HasDocumentWithId(docs, info.DocumentId) then docs
    else
      var r := docs + [info.Document as Document];
      assert r[..|docs|] == docs;
      r
  }

  method LoadDocumentToBlock(block: Block, info: DocumentInfo)
    modifies block`Documents
    ensures block.Documents == LoadOnce(old(block.Documents), block.Config(), info)
  {
    if info.Document == null {
      return;
    }
    if !info.CanBeProcessedForBlock(block) || !block.ShouldUseDocuments() {
      return;
    }
    if |block.RagSettings| == 0 {
      return;
    }
    if HasDocumentWithId(block.Documents, info.DocumentId) {
      return;
    }
    block.Documents := block.Documents + [info.Document];
  }

  /** When the recorded identifier is the document's own, a second attachment changes nothing. */
  lemma LoadOnceIdempotentWhenIdsAgree(docs: seq<Document>, block: BlockConfig, info: DocumentInfo)
    requires info.Document != null && info.Document.Id == info.DocumentId
    ensures LoadOnce(LoadOnce(docs, block, info), block, info) == LoadOnce(docs, block, info)
  {
    var once := LoadOnce(docs, block, info);
    if |once| == |docs| + 1 {
      assert once[|docs|] in once;
      assert HasDocumentWithId(once, info.DocumentId);
    }
  }

  /**
   * When the recorded identifier differs from the document's own (the
   * default "" does), every attachment appends the document again.
   */
  lemma LoadOnceDuplicatesWhenIdsDiffer(docs: seq<Document>, block: BlockConfig, info: DocumentInfo)
    requires info.Document != null && info.Document.Id != info.DocumentId
    requires Accepts(docs, block, info)
    ensures LoadOnce(LoadOnce(docs, block, info), block, info) == docs + [info.Document, info.Document]
  {
    var once := LoadOnce(docs, block, info);
    assert once == docs + [info.Document];
    assert !HasDocumentWithId(once, info.DocumentId) by {
      forall d | d in once ensures d.Id != info.DocumentId {
        if d !in docs {
          assert d == info.Document;
        }
      }
    }
    var twice := LoadOnce(once, block, info);
    assert twice == once + [info.Document];
  }

  /** The block's list after `n` attachments of the same document. */
  function LoadN(docs: seq<Document>, block: BlockConfig, info: DocumentInfo, n: nat): seq<Document>
  {
    if n == 0 then docs else LoadOnce(LoadN(docs, block, info, n - 1), block, info)
  }

  lemma {:induction false} LoadNAdd(docs: seq<Document>, block: BlockConfig, info: DocumentInfo, m: nat, n: nat)
    ensures LoadN(LoadN(docs, block, info, m), block, info, n) == LoadN(docs, block, info, m + n)
  {
    if n > 0 {
      LoadNAdd(docs, block, info, m, n - 1);
    }
  }

  /** A link without a document never changes a block, however often it is offered. */
  lemma {:induction false} LoadNWithoutDocument(docs: seq<Document>, block: BlockConfig, info: DocumentInfo, n: nat)
    requires info.Document == null
    ensures LoadN(docs, block, info, n) == docs
  {
    if n > 0 {
      LoadNWithoutDocument(docs, block, info, n - 1);
    }
  }

  // ---------------------------------------------------------------------
  // The children-first walk of AttachDocumentToBlocks
  // ---------------------------------------------------------------------

  /**
   * What the walk depends on, as a value: for each workflow, its own part of
   * the walk (the targeted block, or all of its blocks, and whether the
   * target exists) and the outlines of its children, in order.
   */
  datatype Outline = Outline(own: seq<Block>, ownOk: bool, children: seq<Outline>)

  /** The blocks offered the document, in order, and whether the walk completes: children first, then the workflow's own part. */
  function Walk(o: Outline): (seq<Block>, bool)
    decreases o, 1
  {
    var (visited, ok) := WalkChildren(o.children, 0);
    if !ok then (visited, false) else (visited + o.own, o.ownOk)
  }

  /** The walk over the children from the `k`-th on, stopping at the first that does not complete. */
  function WalkChildren(children: seq<Outline>, k: nat): (seq<Block>, bool)
    requires k <= |children|
    decreases children, 0, |children| - k
  {
    if k == |children| then ([], true)
    else
      var (first, ok) := Walk(children[k]);
      if !ok then (first, false)
      else
        var (rest, restOk) := WalkChildren(children, k + 1);
        (first + rest, restOk)
  }

  /** The workflow's own part of the walk: the targeted block, or all blocks. */
  function OwnVisits(w: Workflow, blockIndex: Option<int>): (seq<Block>, bool)
    reads w`Blocks, (set b | b in w.Blocks)`Order
  {
    match blockIndex
    case None => (w.Blocks, true)
    case Some(i) =>
      match w.BlockAt(i)
      case Ok(b) => ([b], true)
      case Err(_) => ([], false)
  }

  /** The outline of the subtree rooted at `w`. */
  ghost function OutlineOf(w: Workflow, blockIndex: Option<int>): (r: Outline)
    requires w.Valid()
    reads w`Blocks, w.Nodes`Blocks, (set n, b | n in w.Nodes && b in n.Blocks :: b)`Order
    ensures |r.children| == |w.Children|
    decreases w.Nodes, 1
  {
    var (own, ok) := OwnVisits(w, blockIndex);
    Outline(own, ok, ChildOutlines(w, blockIndex, 0))
  }

  ghost function ChildOutlines(w: Workflow, blockIndex: Option<int>, k: nat): (r: seq<Outline>)
    requires w.Valid() && k <= |w.Children|
    reads w`Blocks, w.Nodes`Blocks, (set n, b | n in w.Nodes && b in n.Blocks :: b)`Order
    ensures |r| == |w.Children| - k
    decreases w.Nodes, 0, |w.Children| - k
  {
    if k == |w.Children| then []
    else
      SubtreeBlocksOfChild(w, w.Children[k]);
      [OutlineOf(w.Children[k], blockIndex)] + ChildOutlines(w, blockIndex, k + 1)
  }

  /** The blocks `AttachDocumentToBlocks` offers the document to, in order, and whether it completes. */
  ghost function Visits(w: Workflow, blockIndex: Option<int>): (seq<Block>, bool)
    requires w.Valid()
    reads w`Blocks, w.Nodes`Blocks, (set n, b | n in w.Nodes && b in n.Blocks :: b)`Order
  {
    Walk(OutlineOf(w, blockIndex))
  }

  lemma SubtreeBlocksOfChild(w: Workflow, c: Workflow)
    requires w.Valid() && c in w.Children
    ensures c.Valid() && c.Nodes <= w.Nodes
    ensures c.SubtreeBlocks() <= w.SubtreeBlocks()
  {
  }

  /** The `k`-th child's outline is the outline of the `k`-th child. */
  lemma ChildOutlineAt(w: Workflow, blockIndex: Option<int>, k: nat)
    requires w.Valid() && k < |w.Children|
    ensures w.Children[k].Valid() && w.Children[k].Nodes <= w.Nodes
    ensures w.Children[k].SubtreeBlocks() <= w.SubtreeBlocks()
    ensures OutlineOf(w, blockIndex).children[k] == OutlineOf(w.Children[k], blockIndex)
  {
    SubtreeBlocksOfChild(w, w.Children[k]);
    ChildOutlinesSuffix(w, blockIndex, 0, k);
    ChildOutlinesUnfold(w, blockIndex, k);
  }

  lemma {:induction false} ChildOutlinesSuffix(w: Workflow, blockIndex: Option<int>, j: nat, k: nat)
    requires w.Valid() && j <= k <= |w.Children|
    ensures ChildOutlines(w, blockIndex, j)[k - j..] == ChildOutlines(w, blockIndex, k)
    decreases k - j
  {
    if j < k {
      ChildOutlinesTail(w, blockIndex, j);
      SuffixOfTail(ChildOutlines(w, blockIndex, j), ChildOutlines(w, blockIndex, j + 1), k - j);
      ChildOutlinesSuffix(w, blockIndex, j + 1, k);
    }
  }

  lemma ChildOutlinesTail(w: Workflow, blockIndex: Option<int>, j: nat)
    requires w.Valid() && j < |w.Children|
    ensures ChildOutlines(w, blockIndex, j)[1..] == ChildOutlines(w, blockIndex, j + 1)
  {
    ChildOutlinesUnfold(w, blockIndex, j);
  }

  lemma SuffixOfTail<T>(s: seq<T>, t: seq<T>, m: nat)
    requires 1 <= m <= |s| && s[1..] == t
    ensures s[m..] == t[m - 1..]
  {
  }

  lemma ChildOutlinesUnfold(w: Workflow, blockIndex: Option<int>, j: nat)
    requires w.Valid() && j < |w.Children|
    ensures w.Children[j].Valid()
    ensures ChildOutlines(w, blockIndex, j) == [OutlineOf(w.Children[j], blockIndex)] + ChildOutlines(w, blockIndex, j + 1)
  {
  }

  /** The workflow's own part of the walk is recorded at the root of its outline. */
  lemma OwnPartOfOutline(w: Workflow, blockIndex: Option<int>)
    requires w.Valid()
    ensures OwnVisits(w, blockIndex) == (OutlineOf(w, blockIndex).own, OutlineOf(w, blockIndex).ownOk)
  {
  }

  /** The walk stays inside the subtree. */
  lemma {:induction false} VisitsStayInSubtree(w: Workflow, blockIndex: Option<int>)
    requires w.Valid()
    ensures forall b :: b in Visits(w, blockIndex).0 ==> b in w.SubtreeBlocks()
    decreases w.Nodes, 1
  {
    ChildWalkStaysInSubtree(w, blockIndex, 0);
  }

  lemma {:induction false} ChildWalkStaysInSubtree(w: Workflow, blockIndex: Option<int>, k: nat)
    requires w.Valid() && k <= |w.Children|
    ensures forall b :: b in WalkChildren(OutlineOf(w, blockIndex).children, k).0 ==> b in w.SubtreeBlocks()
    decreases w.Nodes, 0, |w.Children| - k
  {
    if k < |w.Children| {
      var c := w.Children[k];
      ChildOutlineAt(w, blockIndex, k);
      VisitsStayInSubtree(c, blockIndex);
      ChildWalkStaysInSubtree(w, blockIndex, k + 1);
    }
  }

  /** Without an order to target, the walk always completes. */
  lemma {:induction false} VisitsCompleteWithoutIndex(w: Workflow)
    requires w.Valid()
    ensures Visits(w, None).1
    decreases w.Nodes, 1
  {
    ChildWalkCompletesWithoutIndex(w, 0);
  }

  lemma {:induction false} ChildWalkCompletesWithoutIndex(w: Workflow, k: nat)
    requires w.Valid() && k <= |w.Children|
    ensures WalkChildren(OutlineOf(w, None).children, k).1
    decreases w.Nodes, 0, |w.Children| - k
  {
    if k < |w.Children| {
      ChildOutlineAt(w, None, k);
      VisitsCompleteWithoutIndex(w.Children[k]);
      ChildWalkCompletesWithoutIndex(w, k + 1);
    }
  }

  /** Without an order to target, every block of the workflow itself is offered the document. */
  lemma VisitsReachOwnBlocks(w: Workflow)
    requires w.Valid()
    ensures forall b :: b in w.Blocks ==> b in Visits(w, None).0
  {
    ChildWalkCompletesWithoutIndex(w, 0);
  }

  /** Without an order to target, every block of the subtree is offered the document. */
  lemma {:induction false} VisitsReachSubtree(w: Workflow)
    requires w.Valid()
    ensures forall b :: b in w.SubtreeBlocks() ==> b in Visits(w, None).0
    decreases w.Nodes, 1
  {
    ChildWalkReachesSubtrees(w, 0);
    ChildWalkCompletesWithoutIndex(w, 0);
  }

  lemma {:induction false} ChildWalkReachesSubtrees(w: Workflow, k: nat)
    requires w.Valid() && k <= |w.Children|
    ensures forall j, b :: k <= j < |w.Children| && b in w.Children[j].SubtreeBlocks() ==>
              b in WalkChildren(OutlineOf(w, None).children, k).0
    decreases w.Nodes, 0, |w.Children| - k
  {
    if k < |w.Children| {
      var children := OutlineOf(w, None).children;
      ChildOutlineAt(w, None, k);
      VisitsReachSubtree(w.Children[k]);
      VisitsCompleteWithoutIndex(w.Children[k]);
      ChildWalkReachesSubtrees(w, k + 1);
      var first := Walk(children[k]).0;
      var rest := WalkChildren(children, k + 1).0;
      assert WalkChildren(children, k).0 == first + rest;
      forall j, b | k <= j < |w.Children| && b in w.Children[j].SubtreeBlocks()
        ensures b in first + rest
      {
        if j == k {
          assert b in first;
        } else {
          assert b in rest;
        }
      }
    }
  }

  /** The workflow has a block with the given order. */
  ghost predicate HasOrder(n: Workflow, index: int)
    reads n`Blocks, n.Blocks`Order
  {
    exists b :: b in n.Blocks && b.Order == index
  }

  /** With an order to target, only blocks with that order are offered the document. */
  lemma {:induction false} VisitsTargetOrder(w: Workflow, index: int)
    requires w.Valid()
    ensures forall b :: b in Visits(w, Some(index)).0 ==> b.Order == index
    decreases w.Nodes, 1
  {
    ChildWalkTargetsOrder(w, index, 0);
  }

  lemma {:induction false} ChildWalkTargetsOrder(w: Workflow, index: int, k: nat)
    requires w.Valid() && k <= |w.Children|
    ensures forall b :: b in WalkChildren(OutlineOf(w, Some(index)).children, k).0 ==> b.Order == index
    decreases w.Nodes, 0, |w.Children| - k
  {
    if k < |w.Children| {
      ChildOutlineAt(w, Some(index), k);
      VisitsTargetOrder(w.Children[k], index);
      ChildWalkTargetsOrder(w, index, k + 1);
    }
  }

  /**
   * With an order to target, the walk completes exactly when every workflow
   * of the subtree has a block with that order; otherwise the first workflow
   * lacking one raises the exception.
   */
  lemma {:induction false} VisitsCompleteIffEveryHasOrder(w: Workflow, index: int)
    requires w.Valid()
    ensures Visits(w, Some(index)).1 <==> forall n :: n in w.Nodes ==> HasOrder(n, index)
    decreases w.Nodes, 1
  {
    ChildWalkCompleteIff(w, index, 0);
  }

  lemma {:induction false} ChildWalkCompleteIff(w: Workflow, index: int, k: nat)
    requires w.Valid() && k <= |w.Children|
    ensures WalkChildren(OutlineOf(w, Some(index)).children, k).1 <==> ChildrenHaveOrder(w, index, k)
    decreases w.Nodes, 0, |w.Children| - k
  {
    if k < |w.Children| {
      var children := OutlineOf(w, Some(index)).children;
      var c := w.Children[k];
      ChildOutlineAt(w, Some(index), k);
      VisitsCompleteIffEveryHasOrder(c, index);
      ChildWalkCompleteIff(w, index, k + 1);
      if Walk(children[k]).1 {
        assert WalkChildren(children, k).1 == WalkChildren(children, k + 1).1;
        assert ChildrenHaveOrder(w, index, k) <==> (forall n :: n in c.Nodes ==> HasOrder(n, index)) && ChildrenHaveOrder(w, index, k + 1);
      } else {
        var n :| n in c.Nodes && !HasOrder(n, index);
        assert !ChildrenHaveOrder(w, index, k);
      }
    }
  }

  /** Every workflow of the subtrees of the children from the `k`-th on has a block with the order. */
  ghost predicate ChildrenHaveOrder(w: Workflow, index: int, k: nat)
    requires w.Valid() && k <= |w.Children|
    reads *
  {
    forall j, n :: k <= j < |w.Children| && n in w.Children[j].Nodes ==> HasOrder(n, index)
  }

  /**
   * The workflow's own part of `AttachDocumentToBlocks`, after its children:
   * the targeted block (an exception when no block has the order) or every
   * block receives the document once more, on top of the earlier `visited`.
   */
  method AttachToOwnBlocks(w: Workflow, blockIndex: Option<int>, info: DocumentInfo,
                           ghost sub: set<Block>, ghost before: map<Block, seq<Document>>, ghost visited: seq<Block>)
    returns (outcome: Outcome)
    requires forall b :: b in w.Blocks ==> b in sub
    requires Loaded(sub, before, info, visited)
    modifies w.Blocks`Documents
    ensures outcome.Pass? <==> old(OwnVisits(w, blockIndex).1)
    ensures outcome.Fail? ==> blockIndex.Some? && outcome.error == BlockNotFound(blockIndex.value)
    ensures Loaded(sub, before, info, visited + old(OwnVisits(w, blockIndex).0))
  {
    if blockIndex.Some? {
      outcome := AttachToTarget(w, blockIndex.value, info, sub, before, visited);
    } else {
      AttachToAllOwnBlocks(w, info, sub, before, visited);
      outcome := Pass;
    }
  }

  /** `workflow[index]` and one attachment to it, or the indexer's exception. */
  method AttachToTarget(w: Workflow, index: int, info: DocumentInfo,
                        ghost sub: set<Block>, ghost before: map<Block, seq<Document>>, ghost visited: seq<Block>)
    returns (outcome: Outcome)
    requires forall b :: b in w.Blocks ==> b in sub
    requires Loaded(sub, before, info, visited)
    modifies w.Blocks`Documents
    ensures outcome.Pass? <==> old(w.BlockAt(index)).Ok?
    ensures outcome.Fail? ==> outcome.error == BlockNotFound(index)
    ensures Loaded(sub, before, info, visited + old(OwnVisits(w, Some(index)).0))
  {
    var found := w.BlockAt(index);
    if found.Err? {
      assert visited + [] == visited;
      return Fail(found.error);
    }
    var block := found.value;
    assert OwnVisits(w, Some(index)).0 == [block];
    AttachOnce(block, info, sub, before, visited);
    return Pass;
  }

  /** Every block of the workflow, in order, once each. */
  method AttachToAllOwnBlocks(w: Workflow, info: DocumentInfo,
                              ghost sub: set<Block>, ghost before: map<Block, seq<Document>>, ghost visited: seq<Block>)
    requires forall b :: b in w.Blocks ==> b in sub
    requires Loaded(sub, before, info, visited)
    modifies w.Blocks`Documents
    ensures Loaded(sub, before, info, visited + w.Blocks)
  {
    var blocks := w.Blocks;
    ghost var done := visited;
    var j := 0;
    while j < |blocks|
      invariant 0 <= j <= |blocks|
      invariant done == visited + blocks[..j]
      invariant Loaded(sub, before, info, done)
    {
      var block := blocks[j];
      AttachOnce(block, info, sub, before, done);
      PrefixStep(blocks, j);
      done := done + [block];
      j := j + 1;
    }
    assert blocks[..j] == blocks;
  }

  lemma PrefixStep<T>(s: seq<T>, j: nat)
    requires j < |s|
    ensures s[..j + 1] == s[..j] + [s[j]]
  {
  }

  /** `LoadDocumentToBlock` as one more visit of the walk. */
  method AttachOnce(block: Block, info: DocumentInfo,
                    ghost sub: set<Block>, ghost before: map<Block, seq<Document>>, ghost visited: seq<Block>)
    requires block in sub && Loaded(sub, before, info, visited)
    modifies block`Documents
    ensures Loaded(sub, before, info, visited + [block])
  {
    LoadDocumentToBlock(block, info);
    forall b | b in sub
      ensures b.Documents == LoadN(before[b], b.Config(), info, multiset(visited + [block])[b])
    {
      if b == block {
        assert multiset(visited + [block])[b] == multiset(visited)[b] + 1;
      } else {
        assert multiset(visited + [block])[b] == multiset(visited)[b];
      }
    }
  }

  /** The document lists of a set of blocks, as a value. */
  ghost function DocumentsOf(blocks: set<Block>): (r: map<Block, seq<Document>>)
    reads blocks`Documents
    ensures r.Keys == blocks
    ensures forall b :: b in blocks ==> r[b] == b.Documents
  {
    map b | b in blocks :: b.Documents
  }

  /** Every block of `blocks` holds its `before` list with the document offered once per visit in `visited`. */
  ghost predicate Loaded(blocks: set<Block>, before: map<Block, seq<Document>>, info: DocumentInfo, visited: seq<Block>)
    reads blocks`Documents, blocks`SupportedDocumentClasses, blocks`Type, blocks`RagSettings
  {
    && blocks <= before.Keys
    && forall b :: b in blocks ==> b.Documents == LoadN(before[b], b.Config(), info, multiset(visited)[b])
  }

  /**
   * `AttachDocumentToBlocks`: every block of the subtree ends up with the
   * document offered to it as many times as the walk visits it; the outcome
   * is the exception of the first workflow lacking the targeted block.
   */
  method AttachDocumentToBlocks(w: Workflow, blockIndex: Option<int>, info: DocumentInfo) returns (outcome: Outcome)
    requires w.Valid()
    modifies w.SubtreeBlocks()`Documents
    ensures outcome.Pass? <==> old(Visits(w, blockIndex).1)
    ensures outcome.Fail? ==> blockIndex.Some? && outcome.error == BlockNotFound(blockIndex.value)
    ensures forall b :: b in old(w.SubtreeBlocks()) ==>
              b.Documents == LoadN(old(b.Documents), b.Config(), info, multiset(old(Visits(w, blockIndex).0))[b])
  {
    ghost var sub := w.SubtreeBlocks();
    ghost var before := DocumentsOf(sub);
    ghost var o := OutlineOf(w, blockIndex);
    ghost var walk := Visits(w, blockIndex);
    assert walk == Walk(o);
    assert Loaded(sub, before, info, []);
    outcome := AttachToSubtree(w, blockIndex, info, o, sub, before, []);
    assert [] + walk.0 == walk.0;
  }

  /**
   * The recursion of `AttachDocumentToBlocks`, with its bookkeeping: the
   * blocks of `sub` held `before` and have been offered the document along
   * `visited`; afterwards also along this subtree's walk.
   */
  method AttachToSubtree(w: Workflow, blockIndex: Option<int>, info: DocumentInfo, ghost o: Outline,
                         ghost sub: set<Block>, ghost before: map<Block, seq<Document>>, ghost visited: seq<Block>)
    returns (outcome: Outcome)
    requires w.Valid() && o == OutlineOf(w, blockIndex) && w.SubtreeBlocks() <= sub
    requires Loaded(sub, before, info, visited)
    modifies w.SubtreeBlocks()`Documents
    ensures outcome.Pass? <==> Walk(o).1
    ensures outcome.Fail? ==> blockIndex.Some? && outcome.error == BlockNotFound(blockIndex.value)
    ensures Loaded(sub, before, info, visited + Walk(o).0)
    decreases w.Nodes, 1
  {
    ghost var walk := WalkChildren(o.children, 0);
    WalkUnfold(o, visited);
    outcome := AttachToChildren(w, blockIndex, info, o, sub, before, visited);
    if outcome.Fail? {
      return;
    }
    OwnPartOfOutline(w, blockIndex);
    OwnBlocksInSubtree(w);
    outcome := AttachToOwnBlocks(w, blockIndex, info, sub, before, visited + walk.0);
  }

  /** The walk of an outline, children first and then the workflow's own part, after an earlier `visited`. */
  lemma WalkUnfold(o: Outline, visited: seq<Block>)
    ensures !WalkChildren(o.children, 0).1 ==> Walk(o) == WalkChildren(o.children, 0)
    ensures WalkChildren(o.children, 0).1 ==>
              visited + Walk(o).0 == visited + WalkChildren(o.children, 0).0 + o.own && Walk(o).1 == o.ownOk
  {
    var walk := WalkChildren(o.children, 0);
    if walk.1 {
      assert visited + (walk.0 + o.own) == visited + walk.0 + o.own;
    }
  }

  lemma OwnBlocksInSubtree(w: Workflow)
    ensures forall b :: b in w.Blocks ==> b in w.SubtreeBlocks()
  {
  }

  /** The walk over the children so far: `visited` followed by the rest of the walk is the whole walk. */
  predicate WalkedUpTo(children: seq<Outline>, k: nat, visited: seq<Block>, walk: (seq<Block>, bool))
    requires k <= |children|
  {
    visited + WalkChildren(children, k).0 == walk.0 && WalkChildren(children, k).1 == walk.1
  }

  /** One more child of the walk: either it fails and ends the walk, or the walk goes on past it. */
  lemma WalkStep(children: seq<Outline>, k: nat, visited: seq<Block>, walk: (seq<Block>, bool))
    requires k < |children| && WalkedUpTo(children, k, visited, walk)
    ensures !Walk(children[k]).1 ==> visited + Walk(children[k]).0 == walk.0 && !walk.1
    ensures Walk(children[k]).1 ==> WalkedUpTo(children, k + 1, visited + Walk(children[k]).0, walk)
  {
    var rest := WalkChildren(children, k + 1);
    if Walk(children[k]).1 {
      assert visited + Walk(children[k]).0 + rest.0 == visited + (Walk(children[k]).0 + rest.0);
    }
  }

  /** The children in order, each with `AttachDocumentToBlocks`, stopping at the first exception. */
  method AttachToChildren(w: Workflow, blockIndex: Option<int>, info: DocumentInfo, ghost o: Outline,
                          ghost sub: set<Block>, ghost before: map<Block, seq<Document>>, ghost visited0: seq<Block>)
    returns (outcome: Outcome)
    requires w.Valid() && o == OutlineOf(w, blockIndex) && w.SubtreeBlocks() <= sub
    requires Loaded(sub, before, info, visited0)
    modifies w.SubtreeBlocks()`Documents
    ensures w.SubtreeBlocks() == old(w.SubtreeBlocks()) && OutlineOf(w, blockIndex) == o
    ensures outcome.Pass? <==> WalkChildren(o.children, 0).1
    ensures outcome.Fail? ==> blockIndex.Some? && outcome.error == BlockNotFound(blockIndex.value)
    ensures Loaded(sub, before, info, visited0 + WalkChildren(o.children, 0).0)
    decreases w.Nodes, 0, 1
  {
    ghost var own := w.SubtreeBlocks();
    ghost var walk := (visited0 + WalkChildren(o.children, 0).0, WalkChildren(o.children, 0).1);
    ghost var visited := visited0;
    var k := 0;
    while k < |w.Children|
      invariant 0 <= k <= |w.Children|
      invariant w.SubtreeBlocks() == own && OutlineOf(w, blockIndex) == o
      invariant WalkedUpTo(o.children, k, visited, walk)
      invariant Loaded(sub, before, info, visited)
    {
      ghost var childWalk := Walk(o.children[k]);
      outcome := AttachToChild(w, k, blockIndex, info, o, own, sub, before, visited);
      WalkStep(o.children, k, visited, walk);
      visited := visited + childWalk.0;
      if outcome.Fail? {
        return;
      }
      k := k + 1;
    }
    assert visited + [] == visited;
    outcome := Pass;
  }

  /**
   * One step of the loop over the children: the `k`-th child's subtree is
   * attached to, on top of what the earlier children did.
   */
  method AttachToChild(w: Workflow, k: nat, blockIndex: Option<int>, info: DocumentInfo, ghost o: Outline, ghost own: set<Block>,
                       ghost sub: set<Block>, ghost before: map<Block, seq<Document>>, ghost visited: seq<Block>)
    returns (outcome: Outcome)
    requires w.Valid() && k < |w.Children| && o == OutlineOf(w, blockIndex) && own == w.SubtreeBlocks() && own <= sub
    requires Loaded(sub, before, info, visited)
    modifies own`Documents
    ensures w.SubtreeBlocks() == own && OutlineOf(w, blockIndex) == o
    ensures outcome.Pass? <==> Walk(o.children[k]).1
    ensures outcome.Fail? ==> blockIndex.Some? && outcome.error == BlockNotFound(blockIndex.value)
    ensures Loaded(sub, before, info, visited + Walk(o.children[k]).0)
    decreases w.Nodes, 0, 0
  {
    ChildOutlineAt(w, blockIndex, k);
    outcome := AttachToSubtree(w.Children[k], blockIndex, info, o.children[k], sub, before, visited);
    SubtreeBlocksKept(w);
  }

  /** The blocks of a subtree depend only on the `Blocks` fields of its workflows. */
  twostate lemma SubtreeBlocksKept(w: Workflow)
    requires unchanged(w.Nodes`Blocks) && unchanged(w`Blocks)
    ensures w.SubtreeBlocks() == old(w.SubtreeBlocks())
  {
  }
}
