/**
 * The workflow context loader: it clears the document lists of the blocks
 * `GetAllBlocks` returns, then, link by link, appends the document's pages
 * to the workflow and attaches the document to the blocks of the workflow
 * tree; afterwards it generates the page topics at most once and runs
 * table-of-contents generation.
 */
module WorkflowService {

  import opened Wrappers
  import opened Documents
  import opened Workflows
  import opened DocumentInfos
  import opened ExternalCalls
  import opened DocumentAttachment
  import opened TocGeneration

  // ---------------------------------------------------------------------
  // Clearing the blocks
  // ---------------------------------------------------------------------

  /** The clearing loop: every listed block ends up with no documents. */
  method ClearBlocks(blocks: seq<Block>)
    modifies blocks`Documents
    ensures forall b :: b in blocks ==> b.Documents == []
  {
    var i := 0;
    while i < |blocks|
      invariant 0 <= i <= |blocks|
      invariant forall j :: 0 <= j < i ==> blocks[j].Documents == []
    {
      blocks[i].Documents := [];
      i := i + 1;
    }
  }

  // ---------------------------------------------------------------------
  // The workflow's pages
  // ---------------------------------------------------------------------

  /** Some page carries the identifier as its `DocumentId`. */
  predicate HasPagesOf(pages: seq<Page>, id: string)
  {
    exists p :: p in pages && p.DocumentId == id
  }

  /** `AppendPagesToWorkflow` on the page list. */
  function WithPages(pages: seq<Page>, document: Document): seq<Page>
    reads document`Pages
  {
    if HasPagesOf(pages, document.Id) then pages else pages + document.Pages
  }

  /** Appends the document's pages unless some page of the workflow already carries the document's identifier. */
  method AppendPagesToWorkflow(w: Workflow, document: Document)
    modifies w`AllPages
    ensures w.AllPages == WithPages(old(w.AllPages), document)
  {
    if HasPagesOf(w.AllPages, document.Id) {
      return;
    }
    w.AllPages := w.AllPages + document.Pages;
  }

  /**
   * The guard keeps the pages of a document whose pages carry its
   * identifier from being added twice: the second append changes nothing.
   */
  lemma WithPagesIdempotentWhenTagged(pages: seq<Page>, document: Document)
    requires exists p :: p in document.Pages && p.DocumentId == document.Id
    ensures WithPages(WithPages(pages, document), document) == WithPages(pages, document)
  {
    var once := WithPages(pages, document);
    if !HasPagesOf(pages, document.Id) {
      var p :| p in document.Pages && p.DocumentId == document.Id;
      assert p in once;
    }
  }

  /**
   * Pages made by the indexer keep `DocumentId` "", so for a document whose
   * identifier is not "" the guard never fires: every load appends its pages
   * again.
   */
  lemma WithPagesDuplicatesUntaggedPages(pages: seq<Page>, document: Document)
    requires document.Id != ""
    requires forall p :: p in pages ==> p.DocumentId == ""
    requires forall p :: p in document.Pages ==> p.DocumentId == ""
    ensures WithPages(pages, document) == pages + document.Pages
    ensures WithPages(WithPages(pages, document), document) == pages + document.Pages + document.Pages
  {
    var once := pages + document.Pages;
    assert forall p :: p in once ==> p in pages || p in document.Pages;
  }

  /**
   * The workflow's pages after the first `n` links have been loaded in
   * order; a link without a document changes nothing. `documents` holds at
   * least the documents of the links: it bounds what the guard may read.
   */
  ghost function PagesAfter(pages: seq<Page>, infos: seq<DocumentInfo>, n: nat, documents: set<Document>): (r: seq<Page>)
    requires n <= |infos| && LinkedDocuments(infos) <= documents
    reads documents`Pages
    ensures forall p :: p in r ==> p in pages || exists d :: d in documents && p in d.Pages
  {
    if n == 0 then pages
    else
      var before := PagesAfter(pages, infos, n - 1, documents);
      var document := infos[n - 1].Document;
      if document == null then before
      else
        assert infos[n - 1] in infos;
        WithPages(before, document)
  }

  // ---------------------------------------------------------------------
  // The blocks' documents
  // ---------------------------------------------------------------------

  /** A block's list after each of the first `upTo` links in turn has been offered to it `n` times. */
  function LoadAll(docs: seq<Document>, config: BlockConfig, infos: seq<DocumentInfo>, upTo: nat, n: nat): seq<Document>
    requires upTo <= |infos|
  {
    if upTo == 0 then docs
    else LoadN(LoadAll(docs, config, infos, upTo - 1, n), config, infos[upTo - 1], n)
  }

  /** Offering a link never removes or reorders documents: the old list stays a prefix. */
  lemma {:induction false} LoadNKeepsPrefix(docs: seq<Document>, config: BlockConfig, info: DocumentInfo, n: nat)
    ensures |docs| <= |LoadN(docs, config, info, n)| && LoadN(docs, config, info, n)[..|docs|] == docs
    ensures forall d :: d in LoadN(docs, config, info, n) ==> d in docs || d == info.Document
  {
    if n > 0 {
      LoadNKeepsPrefix(docs, config, info, n - 1);
      var before := LoadN(docs, config, info, n - 1);
      assert before[..|docs|] == docs;
      var after := LoadOnce(before, config, info);
      assert after[..|before|] == before;
      assert after[..|docs|] == before[..|docs|];
    }
  }

  /**
   * Loading keeps what a block held, in place, and adds only documents of
   * the links.
   */
  lemma {:induction false} LoadAllKeepsPrefix(docs: seq<Document>, config: BlockConfig, infos: seq<DocumentInfo>, upTo: nat, n: nat)
    requires upTo <= |infos|
    ensures |docs| <= |LoadAll(docs, config, infos, upTo, n)| && LoadAll(docs, config, infos, upTo, n)[..|docs|] == docs
    ensures forall d :: d in LoadAll(docs, config, infos, upTo, n) ==> d in docs || d in LinkedDocuments(infos)
  {
    if upTo > 0 {
      var last := infos[upTo - 1];
      LoadAllKeepsPrefix(docs, config, infos, upTo - 1, n);
      var before := LoadAll(docs, config, infos, upTo - 1, n);
      LoadNKeepsPrefix(before, config, last, n);
      var after := LoadN(before, config, last, n);
      assert after[..|docs|] == before[..|docs|];
      forall d | d in after
        ensures d in docs || d in LinkedDocuments(infos)
      {
        if d !in before {
          assert d == last.Document && last in infos;
        }
      }
    }
  }

  /** A block the walk never visits keeps its list. */
  lemma {:induction false} LoadAllUnvisited(docs: seq<Document>, config: BlockConfig, infos: seq<DocumentInfo>, upTo: nat)
    requires upTo <= |infos|
    ensures LoadAll(docs, config, infos, upTo, 0) == docs
  {
    if upTo > 0 {
      LoadAllUnvisited(docs, config, infos, upTo - 1);
    }
  }

  // ---------------------------------------------------------------------
  // How far the loader gets
  // ---------------------------------------------------------------------

  /** The position of the first link with a document. */
  function FirstDocument(infos: seq<DocumentInfo>): (r: Option<nat>)
    ensures r.Some? ==> r.value < |infos| && infos[r.value].Document != null
    ensures r.Some? ==> forall j :: 0 <= j < r.value ==> infos[j].Document == null
    ensures r.None? ==> forall j :: 0 <= j < |infos| ==> infos[j].Document == null
  {
    if infos == [] then None
    else if infos[0].Document != null then Some(0)
    else match FirstDocument(infos[1..])
      case None => None
      case Some(k) => Some(k + 1)
  }

  lemma FirstDocumentAt(infos: seq<DocumentInfo>, k: nat)
    requires k < |infos| && infos[k].Document != null
    requires forall j :: 0 <= j < k ==> infos[j].Document == null
    ensures FirstDocument(infos) == Some(k)
  {
  }

  lemma NoFirstDocument(infos: seq<DocumentInfo>)
    requires forall j :: 0 <= j < |infos| ==> infos[j].Document == null
    ensures FirstDocument(infos) == None
  {
  }

  /**
   * How many links the loader gets through: all of them when the walk
   * completes; otherwise the attachment of the first link with a document
   * throws, and the loader stops right after it.
   */
  function Handled(infos: seq<DocumentInfo>, walkCompletes: bool): (r: nat)
    ensures r <= |infos|
    ensures r < |infos| ==> !walkCompletes && FirstDocument(infos) == Some(r - 1)
  {
    if walkCompletes then |infos|
    else match FirstDocument(infos)
      case None => |infos|
      case Some(k) => k + 1
  }

  /** Every block of `blocks` holds its `before` list with the first `upTo` links offered once per visit. */
  ghost predicate LoadedThrough(blocks: set<Block>, before: map<Block, seq<Document>>, infos: seq<DocumentInfo>,
                                upTo: nat, visited: seq<Block>)
    requires upTo <= |infos|
    reads blocks`Documents, blocks`SupportedDocumentClasses, blocks`Type, blocks`RagSettings
  {
    && blocks <= before.Keys
    && forall b :: b in blocks ==> b.Documents == LoadAll(before[b], b.Config(), infos, upTo, multiset(visited)[b])
  }

  /**
   * One pass of the document loop, on link `i`: a link without a document is
   * skipped; otherwise the document's pages are appended and the document is
   * attached, and an attachment that throws ends the loop.
   */
  method LoadDocument(infos: seq<DocumentInfo>, i: nat, w: Workflow, blockIndex: Option<int>,
                      ghost sub: set<Block>, ghost before: map<Block, seq<Document>>,
                      ghost visits: (seq<Block>, bool), ghost pages: seq<Page>, ghost linked: set<Document>)
    returns (outcome: Outcome)
    requires i < |infos| && w.Valid() && LinkedDocuments(infos) <= linked
    requires sub == w.SubtreeBlocks() && visits == Visits(w, blockIndex)
    requires w.AllPages == PagesAfter(pages, infos, i, linked)
    requires LoadedThrough(sub, before, infos, i, visits.0)
    modifies w`AllPages, sub`Documents
    ensures w.SubtreeBlocks() == sub && Visits(w, blockIndex) == visits
    ensures outcome.Fail? <==> infos[i].Document != null && !visits.1
    ensures outcome.Fail? ==> blockIndex.Some? && outcome.error == BlockNotFound(blockIndex.value)
    ensures w.AllPages == PagesAfter(pages, infos, i + 1, linked)
    ensures LoadedThrough(sub, before, infos, i + 1, visits.0)
  {
    var info := infos[i];
    if info.Document == null {
      forall b | b in sub
        ensures b.Documents == LoadAll(before[b], b.Config(), infos, i + 1, multiset(visits.0)[b])
      {
        LoadNWithoutDocument(b.Documents, b.Config(), info, multiset(visits.0)[b]);
      }
      return Pass;
    }
    ghost var pagesNext := PagesAfter(pages, infos, i + 1, linked);
    AppendPagesToWorkflow(w, info.Document);
    assert sub == w.SubtreeBlocks();
    assert visits == Visits(w, blockIndex);
    assert w.AllPages == pagesNext;
    outcome := AttachLink(infos, i, w, blockIndex, sub, before, visits);
  }

  /** The attachment of link `i`'s document, which brings every block one link further. */
  method AttachLink(infos: seq<DocumentInfo>, i: nat, w: Workflow, blockIndex: Option<int>,
                    ghost sub: set<Block>, ghost before: map<Block, seq<Document>>, ghost visits: (seq<Block>, bool))
    returns (outcome: Outcome)
    requires i < |infos| && w.Valid()
    requires sub == w.SubtreeBlocks() && visits == Visits(w, blockIndex)
    requires LoadedThrough(sub, before, infos, i, visits.0)
    modifies sub`Documents
    ensures w.SubtreeBlocks() == sub && Visits(w, blockIndex) == visits
    ensures outcome.Pass? <==> visits.1
    ensures outcome.Fail? ==> blockIndex.Some? && outcome.error == BlockNotFound(blockIndex.value)
    ensures LoadedThrough(sub, before, infos, i + 1, visits.0)
  {
    outcome := AttachDocumentToBlocks(w, blockIndex, infos[i]);
    assert sub == w.SubtreeBlocks();
    assert visits == Visits(w, blockIndex);
    forall b | b in sub
      ensures b.Documents == LoadAll(before[b], b.Config(), infos, i + 1, multiset(visits.0)[b])
    {
      assert old(b.Config()) == b.Config();
      assert old(b.Documents) == LoadAll(before[b], b.Config(), infos, i, multiset(visits.0)[b]);
    }
  }

  /**
   * The document loop, from link `i` on. The walk of the attachment does not
   * depend on the documents, so every link with a document is offered to the
   * same blocks the same number of times; when the walk fails, the first link
   * with a document raises the exception and the loop stops there.
   */
  method LoadDocuments(infos: seq<DocumentInfo>, i: nat, w: Workflow, blockIndex: Option<int>,
                           ghost sub: set<Block>, ghost before: map<Block, seq<Document>>,
                           ghost visits: (seq<Block>, bool), ghost pages: seq<Page>, ghost linked: set<Document>)
    returns (outcome: Outcome)
    requires i <= |infos| && w.Valid() && LinkedDocuments(infos) <= linked
    requires sub == w.SubtreeBlocks() && visits == Visits(w, blockIndex)
    requires visits.1 || forall j :: 0 <= j < i ==> infos[j].Document == null
    requires w.AllPages == PagesAfter(pages, infos, i, linked)
    requires LoadedThrough(sub, before, infos, i, visits.0)
    modifies w`AllPages, sub`Documents
    ensures outcome.Fail? <==> !visits.1 && FirstDocument(infos).Some?
    ensures outcome.Fail? ==> blockIndex.Some? && outcome.error == BlockNotFound(blockIndex.value)
    ensures w.AllPages == PagesAfter(pages, infos, Handled(infos, visits.1), linked)
    ensures LoadedThrough(sub, before, infos, Handled(infos, visits.1), visits.0)
    decreases |infos| - i
  {
    if i == |infos| {
      if !visits.1 {
        NoFirstDocument(infos);
      }
      return Pass;
    }
    outcome := LoadDocument(infos, i, w, blockIndex, sub, before, visits, pages, linked);
    if outcome.Fail? {
      FirstDocumentAt(infos, i);
      assert Handled(infos, visits.1) == i + 1;
      return;
    }
    outcome := LoadDocuments(infos, i + 1, w, blockIndex, sub, before, visits, pages, linked);
  }

  // ---------------------------------------------------------------------
  // Topics
  // ---------------------------------------------------------------------

  /** `AllPagesTopics ??= generated`: the generated value only where there was none. */
  function TopicsAfter(current: Option<string>, generated: Option<string>): (r: Option<string>)
    ensures current.Some? ==> r == current
    ensures current.None? ==> r == generated
  {
    if current.None? then generated else current
  }

  /** The topic generator's call: made only when topics are used and none exist yet. */
  function TopicsCalls(usesTopics: bool, current: Option<string>, pages: seq<PageView>): (r: seq<Call>)
    ensures |r| <= 1
  {
    if usesTopics && current.None? then [GenerateTopics(pages)] else []
  }

  /**
   * Topics are generated at most once: after a load that produced topics, a
   * second load makes no topic call and keeps them, whatever the generator
   * would now return.
   */
  lemma TopicsAtMostOnce(usesTopics: bool, current: Option<string>, generated: Option<string>, later: Option<string>,
                         pages: seq<PageView>, laterPages: seq<PageView>)
    requires usesTopics ==> TopicsAfter(current, generated).Some?
    ensures var after := if usesTopics then TopicsAfter(current, generated) else current;
      && TopicsCalls(usesTopics, after, laterPages) == []
      && (if usesTopics then TopicsAfter(after, later) else after) == after
  {
  }

  // ---------------------------------------------------------------------
  // The loader
  // ---------------------------------------------------------------------

  /** The outcome and calls of table-of-contents generation, when the workflow uses it. */
  function TocPart(infos: seq<DocumentInfo>, w: Workflow, usesToc: bool, notify: bool): (Outcome, seq<Call>)
    reads (set c | c in w.Children)`Order, (set c | c in w.Children)`Blocks, (set c, b | c in w.Children && b in c.Blocks :: b)`Order
    reads (set c, b | c in w.Children && b in c.Blocks :: b)`RagSettings
    reads (set c, b, r | c in w.Children && b in c.Blocks && r in b.RagSettings :: r)`Type
    reads (set c, b, r | c in w.Children && b in c.Blocks && r in b.RagSettings :: r)`Block
    reads (set c, b, r | c in w.Children && b in c.Blocks && r in b.RagSettings :: r)`TableOfContentsInput
    reads (set c, b, r | c in w.Children && b in c.Blocks && r in b.RagSettings && r.Block != null :: r.Block)`SupportedDocumentClasses
    reads (set i | i in infos && i.Document != null :: i.Document)`Name
  {
    AutoTocRagsInChildren(w);
    if usesToc then TocRun(infos, RagViews(AutoTocRags(w)), notify) else (Pass, [])
  }

  /** The lists of `lists`, with those of the blocks in `cleared` emptied. */
  function Cleared(lists: map<Block, seq<Document>>, cleared: seq<Block>): (r: map<Block, seq<Document>>)
    ensures r.Keys == lists.Keys
    ensures forall b :: b in lists ==> r[b] == if b in cleared then [] else lists[b]
  {
    map b | b in lists :: if b in cleared then [] else lists[b]
  }

  /** The blocks `GetAllBlocks` returns are cleared; no other list changes. */
  method ClearContext(w: Workflow)
    requires w.ParentChainAcyclic()
    modifies w.Root().TopAndChildBlocks()`Documents
    ensures forall b :: b in old(w.Root().TopAndChildBlocks()) ==> b.Documents == []
    ensures w.SubtreeBlocks() == old(w.SubtreeBlocks())
  {
    var allBlocks := w.GetAllBlocks();
    assert allBlocks == old(w.Root().TopAndChildBlocks());
    ClearBlocks(allBlocks);
  }

  /**
   * The blocks `GetAllBlocks` returns are cleared, then the document loop
   * runs: every block of the subtree starts from an empty list if it was
   * cleared and from its own list otherwise.
   */
  method ClearAndLoad(infos: seq<DocumentInfo>, w: Workflow, blockIndex: Option<int>) returns (outcome: Outcome)
    requires w.Valid() && w.ParentChainAcyclic()
    modifies w.Root().TopAndChildBlocks()`Documents, w.SubtreeBlocks()`Documents, w`AllPages
    ensures outcome.Fail? <==> !old(Visits(w, blockIndex).1) && FirstDocument(infos).Some?
    ensures outcome.Fail? ==> blockIndex.Some? && outcome.error == BlockNotFound(blockIndex.value)
    ensures var handled := Handled(infos, old(Visits(w, blockIndex).1));
      && w.AllPages == PagesAfter(old(w.AllPages), infos, handled, LinkedDocuments(infos))
      && LoadedThrough(old(w.SubtreeBlocks()), Cleared(old(DocumentsOf(w.SubtreeBlocks())), old(w.Root().TopAndChildBlocks())),
                       infos, handled, old(Visits(w, blockIndex).0))
    ensures forall b :: b in old(w.Root().TopAndChildBlocks()) && b !in old(w.SubtreeBlocks()) ==> b.Documents == []
  {
    ghost var sub := w.SubtreeBlocks();
    ghost var visits := Visits(w, blockIndex);
    ghost var pages := w.AllPages;
    ghost var before := Cleared(DocumentsOf(sub), w.Root().TopAndChildBlocks());
    ClearContext(w);
    assert sub == w.SubtreeBlocks();
    assert visits == Visits(w, blockIndex);
    forall b | b in sub
      ensures b.Documents == LoadAll(before[b], b.Config(), infos, 0, multiset(visits.0)[b])
    {
    }
    assert w.AllPages == pages;
    assert LoadedThrough(sub, before, infos, 0, visits.0);
    outcome := LoadDocuments(infos, 0, w, blockIndex, sub, before, visits, pages, LinkedDocuments(infos));
  }

  /**
   * The topic step: when some retrieval setting uses topics and the workflow
   * has none yet, the generator is called once on the views of the pages.
   */
  method LoadTopics(infos: seq<DocumentInfo>, w: Workflow, topicsOf: seq<PageView> -> Option<string>, ghost pages: seq<Page>, ghost upTo: nat,
                    ghost sub: set<Block>, ghost before: map<Block, seq<Document>>, ghost visited: seq<Block>, ghost all: seq<Block>)
    returns (calls: seq<Call>)
    requires w.Valid() && upTo <= |infos|
    requires w.AllPages == PagesAfter(pages, infos, upTo, LinkedDocuments(infos))
    requires LoadedThrough(sub, before, infos, upTo, visited)
    requires forall b :: b in all && b !in sub ==> b.Documents == []
    modifies w`AllPagesTopics
    ensures w.AllPages == PagesAfter(pages, infos, upTo, LinkedDocuments(infos))
    ensures LoadedThrough(sub, before, infos, upTo, visited)
    ensures forall b :: b in all && b !in sub ==> b.Documents == []
    ensures var usesTopics := old(w.UsesRagType(UseTopics));
            var views := old(ViewOf(w.AllPages));
            && w.AllPagesTopics == (if usesTopics then TopicsAfter(old(w.AllPagesTopics), topicsOf(views)) else old(w.AllPagesTopics))
            && calls == TopicsCalls(usesTopics, old(w.AllPagesTopics), views)
    ensures w.UsesRagType(UseTopics) == old(w.UsesRagType(UseTopics))
    ensures ViewOf(w.AllPages) == old(ViewOf(w.AllPages))
  {
    calls := [];
    if w.UsesRagType(UseTopics) {
      if w.AllPagesTopics.None? {
        var views := ViewOf(w.AllPages);
        SetTopics(infos, w, topicsOf(views), pages, upTo, sub, before, visited, all);
        calls := [GenerateTopics(views)];
      }
    }
  }

  /** The assignment of the generated topics, which leaves the loaded pages and blocks as they were. */
  method SetTopics(infos: seq<DocumentInfo>, w: Workflow, topics: Option<string>, ghost pages: seq<Page>, ghost upTo: nat,
                   ghost sub: set<Block>, ghost before: map<Block, seq<Document>>, ghost visited: seq<Block>, ghost all: seq<Block>)
    requires upTo <= |infos|
    requires w.AllPages == PagesAfter(pages, infos, upTo, LinkedDocuments(infos))
    requires LoadedThrough(sub, before, infos, upTo, visited)
    requires forall b :: b in all && b !in sub ==> b.Documents == []
    modifies w`AllPagesTopics
    ensures w.AllPagesTopics == topics
    ensures w.AllPages == PagesAfter(pages, infos, upTo, LinkedDocuments(infos))
    ensures LoadedThrough(sub, before, infos, upTo, visited)
    ensures forall b :: b in all && b !in sub ==> b.Documents == []
  {
    w.AllPagesTopics := topics;
  }

  /**
   * The steps after the document loop: topics when some retrieval setting uses
   * them, then tables of contents when some setting uses auto-detection.
   */
  method GenerateTopicsAndTocs(infos: seq<DocumentInfo>, w: Workflow, notify: bool,
                               topicsOf: seq<PageView> -> Option<string>,
                               ghost pages: seq<Page>, ghost upTo: nat, ghost sub: set<Block>,
                               ghost before: map<Block, seq<Document>>, ghost visited: seq<Block>, ghost all: seq<Block>)
    returns (outcome: Outcome, calls: seq<Call>)
    requires w.Valid() && upTo <= |infos|
    requires w.AllPages == PagesAfter(pages, infos, upTo, LinkedDocuments(infos))
    requires LoadedThrough(sub, before, infos, upTo, visited)
    requires forall b :: b in all && b !in sub ==> b.Documents == []
    modifies w`AllPagesTopics
    ensures w.AllPages == PagesAfter(pages, infos, upTo, LinkedDocuments(infos))
    ensures LoadedThrough(sub, before, infos, upTo, visited)
    ensures forall b :: b in all && b !in sub ==> b.Documents == []
    ensures var usesTopics := old(w.UsesRagType(UseTopics));
            var views := old(ViewOf(w.AllPages));
            var (tocOutcome, tocCalls) := TocPart(infos, w, w.UsesRagType(UseAutoDetectedTableOfContents), notify);
            && w.AllPagesTopics == (if usesTopics then TopicsAfter(old(w.AllPagesTopics), topicsOf(views)) else old(w.AllPagesTopics))
            && outcome == tocOutcome
            && calls == TopicsCalls(usesTopics, old(w.AllPagesTopics), views) + tocCalls
    ensures w.UsesRagType(UseTopics) == old(w.UsesRagType(UseTopics))
    ensures ViewOf(w.AllPages) == old(ViewOf(w.AllPages))
  {
    calls := LoadTopics(infos, w, topicsOf, pages, upTo, sub, before, visited, all);
    var tocCalls;
    outcome, tocCalls := TocStep(infos, w, notify, pages, upTo, sub, before, visited, all,
                                 w.UsesRagType(UseTopics), w.AllPagesTopics, ViewOf(w.AllPages));
    calls := calls + tocCalls;
  }

  /**
   * The table-of-contents step, run only when some retrieval setting uses
   * auto-detection; it changes no state, so what loading established holds
   * after it.
   */
  method TocStep(infos: seq<DocumentInfo>, w: Workflow, notify: bool,
                 ghost pages: seq<Page>, ghost upTo: nat, ghost sub: set<Block>,
                 ghost before: map<Block, seq<Document>>, ghost visited: seq<Block>, ghost all: seq<Block>,
                 ghost usesTopics: bool, ghost topics: Option<string>, ghost views: seq<PageView>)
    returns (outcome: Outcome, calls: seq<Call>)
    requires w.Valid() && upTo <= |infos|
    requires w.AllPages == PagesAfter(pages, infos, upTo, LinkedDocuments(infos))
    requires LoadedThrough(sub, before, infos, upTo, visited)
    requires forall b :: b in all && b !in sub ==> b.Documents == []
    requires usesTopics == w.UsesRagType(UseTopics) && topics == w.AllPagesTopics && views == ViewOf(w.AllPages)
    ensures w.AllPages == PagesAfter(pages, infos, upTo, LinkedDocuments(infos))
    ensures LoadedThrough(sub, before, infos, upTo, visited)
    ensures forall b :: b in all && b !in sub ==> b.Documents == []
    ensures usesTopics == w.UsesRagType(UseTopics) && topics == w.AllPagesTopics && views == ViewOf(w.AllPages)
    ensures (outcome, calls) == TocPart(infos, w, w.UsesRagType(UseAutoDetectedTableOfContents), notify)
  {
    outcome, calls := TocWhenUsed(infos, w, notify);
  }

  /** Tables of contents are generated only when some retrieval setting uses auto-detection. */
  method TocWhenUsed(infos: seq<DocumentInfo>, w: Workflow, notify: bool) returns (outcome: Outcome, calls: seq<Call>)
    requires w.Valid()
    ensures (outcome, calls) == TocPart(infos, w, w.UsesRagType(UseAutoDetectedTableOfContents), notify)
  {
    outcome, calls := Pass, [];
    if w.UsesRagType(UseAutoDetectedTableOfContents) {
      outcome, calls := GenerateTocs(infos, w, notify);
    }
  }

  /**
   * `LoadContextToWorkflowAsync`: the blocks of the top-level workflow and
   * of its direct children are cleared; the documents are loaded; then, if
   * loading did not throw, topics and tables of contents are generated.
   * `topicsOf` stands for the topic generator.
   */
  method LoadContextToWorkflow(infos: seq<DocumentInfo>, w: Workflow, blockIndex: Option<int>, notify: bool,
                               topicsOf: seq<PageView> -> Option<string>)
    returns (outcome: Outcome, calls: seq<Call>)
    requires w.Valid() && w.ParentChainAcyclic()
    modifies w.Root().TopAndChildBlocks()`Documents, w.SubtreeBlocks()`Documents, w`AllPages, w`AllPagesTopics
    ensures !old(Visits(w, blockIndex).1) && FirstDocument(infos).Some? ==>
              && blockIndex.Some? && outcome == Fail(BlockNotFound(blockIndex.value)) && calls == []
              && w.AllPagesTopics == old(w.AllPagesTopics)
    ensures old(Visits(w, blockIndex).1) || FirstDocument(infos).None? ==>
              var usesTopics := w.UsesRagType(UseTopics);
              var views := ViewOf(w.AllPages);
              var (tocOutcome, tocCalls) := TocPart(infos, w, w.UsesRagType(UseAutoDetectedTableOfContents), notify);
              && w.AllPagesTopics == (if usesTopics then TopicsAfter(old(w.AllPagesTopics), topicsOf(views)) else old(w.AllPagesTopics))
              && outcome == tocOutcome
              && calls == TopicsCalls(usesTopics, old(w.AllPagesTopics), views) + tocCalls
    ensures var handled := Handled(infos, old(Visits(w, blockIndex).1));
      && w.AllPages == PagesAfter(old(w.AllPages), infos, handled, LinkedDocuments(infos))
      && LoadedThrough(old(w.SubtreeBlocks()), Cleared(old(DocumentsOf(w.SubtreeBlocks())), old(w.Root().TopAndChildBlocks())),
                       infos, handled, old(Visits(w, blockIndex).0))
    ensures forall b :: b in old(w.Root().TopAndChildBlocks()) && b !in old(w.SubtreeBlocks()) ==> b.Documents == []
  {
    outcome := ClearAndLoad(infos, w, blockIndex);
    if outcome.Fail? {
      return outcome, [];
    }
    outcome, calls := GenerateTopicsAndTocs(infos, w, notify, topicsOf, old(w.AllPages), Handled(infos, old(Visits(w, blockIndex).1)),
                                            old(w.SubtreeBlocks()), Cleared(old(DocumentsOf(w.SubtreeBlocks())), old(w.Root().TopAndChildBlocks())),
                                            old(Visits(w, blockIndex).0), old(w.Root().TopAndChildBlocks()));

  }
}
