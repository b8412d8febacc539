/**
 * The context loader of `DocumentProcessingService`. It is the loader of
 * `WorkflowService` line for line, except that its block index is an `int`
 * defaulting to -1: a non-negative index targets the block with that order,
 * and any negative index means "every block", where the other loader uses
 * a nullable index and targets whatever value it is given.
 */
module DocumentProcessingLoader {

  import opened Wrappers
  import opened Documents
  import opened Workflows
  import opened DocumentInfos
  import opened ExternalCalls
  import opened DocumentAttachment
  import opened TocGeneration
  import opened WorkflowService

  /** `blockIndex >= 0` selects a target; any negative index selects none. */
  function IndexOption(blockIndex: int): (r: Option<int>)
    ensures r.Some? <==> blockIndex >= 0
    ensures r.Some? ==> r.value == blockIndex
  {
    if blockIndex >= 0 then Some(blockIndex) else None
  }

  /**
   * A negative index walks the blocks exactly as no index does, and so never
   * raises; the nullable loader given the same negative value targets it, and
   * raises as soon as the workflow has no block with that order.
   */
  lemma NegativeIndexMeansAllBlocks(w: Workflow, blockIndex: int)
    requires w.Valid() && blockIndex < 0
    ensures Visits(w, IndexOption(blockIndex)) == Visits(w, None)
    ensures Visits(w, IndexOption(blockIndex)).1
    ensures !HasOrder(w, blockIndex) ==> !Visits(w, Some(blockIndex)).1
  {
    VisitsCompleteWithoutIndex(w);
    VisitsCompleteIffEveryHasOrder(w, blockIndex);
  }

  /**
   * `DocumentProcessingService.LoadContextToWorkflowAsync`: the shared loader
   * on the index `IndexOption(blockIndex)`. With a negative index the load
   * never raises, so topics and tables of contents always follow it.
   */
  method LoadContextToWorkflowAt(infos: seq<DocumentInfo>, w: Workflow, blockIndex: int, notify: bool,
                                 topicsOf: seq<PageView> -> Option<string>)
    returns (outcome: Outcome, calls: seq<Call>)
    requires w.Valid() && w.ParentChainAcyclic()
    modifies w.Root().TopAndChildBlocks()`Documents, w.SubtreeBlocks()`Documents, w`AllPages, w`AllPagesTopics
    ensures !old(Visits(w, IndexOption(blockIndex)).1) && FirstDocument(infos).Some? ==>
              && blockIndex >= 0 && outcome == Fail(BlockNotFound(blockIndex)) && calls == []
              && w.AllPagesTopics == old(w.AllPagesTopics)
    ensures old(Visits(w, IndexOption(blockIndex)).1) || FirstDocument(infos).None? || blockIndex < 0 ==>
              var usesTopics := w.UsesRagType(UseTopics);
              var views := ViewOf(w.AllPages);
              var (tocOutcome, tocCalls) := TocPart(infos, w, w.UsesRagType(UseAutoDetectedTableOfContents), notify);
              && w.AllPagesTopics == (if usesTopics then TopicsAfter(old(w.AllPagesTopics), topicsOf(views)) else old(w.AllPagesTopics))
              && outcome == tocOutcome
              && calls == TopicsCalls(usesTopics, old(w.AllPagesTopics), views) + tocCalls
    ensures var handled := Handled(infos, old(Visits(w, IndexOption(blockIndex)).1));
      && w.AllPages == PagesAfter(old(w.AllPages), infos, handled, LinkedDocuments(infos))
      && LoadedThrough(old(w.SubtreeBlocks()), Cleared(old(DocumentsOf(w.SubtreeBlocks())), old(w.Root().TopAndChildBlocks())),
                       infos, handled, old(Visits(w, IndexOption(blockIndex)).0))
    ensures forall b :: b in old(w.Root().TopAndChildBlocks()) && b !in old(w.SubtreeBlocks()) ==> b.Documents == []
  {
    if blockIndex < 0 {
      NegativeIndexMeansAllBlocks(w, blockIndex);
    }
    outcome, calls := LoadContextToWorkflow(infos, w, IndexOption(blockIndex), notify, topicsOf);
  }
}
