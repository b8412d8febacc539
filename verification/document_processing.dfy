/**
 * `DocumentProcessingService` on the heap: the page procedures for each
 * media type and the document loop with its callback (the context loader
 * is in `DocumentProcessingLoader`). Each page procedure is
 * proved to leave the pages as the value functions of `ProcessingStages`
 * say, and to reuse or create embedding vector objects as the source does.
 */
module DocumentProcessing {

  import opened Wrappers
  import opened Common
  import opened Documents
  import opened ExternalCalls
  import opened Embeddings
  import opened CsvFormatting
  import opened PdfExtractor
  import opened ExcelSheetAnalysis
  import opened ProcessingStages

  // ---------------------------------------------------------------- embeddings

  /** `IsPageEmbeddingValid`: the page object has a vector whose model is not the error model. */
  function IsPageEmbeddingValid(page: Page): (r: bool)
    reads page, page.EmbeddingVector
    ensures r <==> HasValidEmbedding(page.View())
  {
    page.EmbeddingVector != null && page.EmbeddingVector.Model != ErrorModel
  }

  /** The batch loop of `GetEmbeddingsAsync`: requests of at most 50 texts, their vectors collected in order. */
  method EmbedBatches(texts: seq<string>, embed: Embedder) returns (all: seq<seq<real>>, calls: seq<Call>)
    ensures all == BatchVectors(texts, 0, embed)
    ensures calls == BatchCalls(texts, 0)
  {
    all := [];
    calls := [];
    var i := 0;
    while i < |texts|
      invariant all + BatchVectors(texts, i, embed) == BatchVectors(texts, 0, embed)
      invariant calls + BatchCalls(texts, i) == BatchCalls(texts, 0)
      decreases |texts| - i
    {
      var batch := Batch(texts, i);
      all := all + embed(batch);
      calls := calls + [Embed(batch)];
      i := i + BatchSize;
    }
  }

  /**
   * One turn of the assignment loop of `GetEmbeddingsAsync`: the `j`-th page
   * to embed gets `Assigned(.., j)`, written into its existing vector object
   * when it has one and into a new one otherwise.
   */
  method AssignEmbedding(document: Document, ghost views: seq<PageView>, positions: seq<nat>, all: seq<seq<real>>, j: nat)
    requires document.Valid() && j < |positions| && ValidPositions(views, positions)
    requires document.View() == EmbedFirst(views, positions, all, j)
    modifies (set p | p in document.Pages)`EmbeddingVector, set p | p in document.Pages :: p.EmbeddingVector
    ensures document.Valid() && document.Pages == old(document.Pages)
    ensures document.View() == EmbedFirst(views, positions, all, j + 1)
    ensures forall p :: p in document.Pages ==>
              p.EmbeddingVector == old(p.EmbeddingVector) || (old(p.EmbeddingVector) == null && fresh(p.EmbeddingVector))
  {
    var k := positions[j];
    var page := document.Pages[k];
    assert page.Overview == views[k].overview by {
      assert document.View()[k] == page.View();
    }
    var model := if page.Overview.None? || j >= |all| then ErrorModel else ModelName;
    var vector := if j < |all| then all[j] else [];
    document.SetEmbedding(page, k, model, vector);
  }

  /** The assignment loop of `GetEmbeddingsAsync`, over the pages to embed in order. */
  method AssignEmbeddings(document: Document, positions: seq<nat>, all: seq<seq<real>>)
    requires document.Valid() && ValidPositions(document.View(), positions)
    modifies (set p | p in document.Pages)`EmbeddingVector, set p | p in document.Pages :: p.EmbeddingVector
    ensures document.Valid() && document.Pages == old(document.Pages)
    ensures document.View() == EmbedFirst(old(document.View()), positions, all, |positions|)
    ensures forall p :: p in document.Pages ==>
              p.EmbeddingVector == old(p.EmbeddingVector) || (old(p.EmbeddingVector) == null && fresh(p.EmbeddingVector))
  {
    ghost var views := document.View();
    var j := 0;
    while j < |positions|
      invariant 0 <= j <= |positions|
      invariant document.Valid() && document.Pages == old(document.Pages)
      invariant document.View() == EmbedFirst(views, positions, all, j)
      invariant forall p :: p in document.Pages ==>
                  p.EmbeddingVector == old(p.EmbeddingVector) || (old(p.EmbeddingVector) == null && fresh(p.EmbeddingVector))
    {
      AssignEmbedding(document, views, positions, all, j);
      j := j + 1;
    }
  }

  /**
   * The requests and the assignment loop of `GetEmbeddingsAsync`, for the
   * pages to embed at `positions`.
   */
  method EmbedPositions(document: Document, positions: seq<nat>, embed: Embedder) returns (calls: seq<Call>)
    requires document.Valid() && positions == Positions(document.View())
    modifies (set p | p in document.Pages)`EmbeddingVector, set p | p in document.Pages :: p.EmbeddingVector
    ensures document.Valid() && document.Pages == old(document.Pages)
    ensures document.View() == EmbedAll(old(document.View()), embed)
    ensures calls == EmbedCalls(old(document.View()))
    ensures forall p :: p in document.Pages ==>
              p.EmbeddingVector == old(p.EmbeddingVector) || (old(p.EmbeddingVector) == null && fresh(p.EmbeddingVector))
  {
    ghost var views := document.View();
    var texts := OverviewTexts(document.View(), positions);
    var all;
    all, calls := EmbedBatches(texts, embed);
    assert document.View() == views && document.Valid();
    AssignEmbeddings(document, positions, all);
  }

  /**
   * `GetEmbeddingsAsync`: the pages to embed, those without a valid embedding
   * and with a non-blank overview, get their vectors from batched requests. A
   * page that had a vector object keeps that very object; a page without one
   * gets a new object.
   */
  method GetEmbeddings(document: Document, embed: Embedder) returns (calls: seq<Call>)
    requires document.Valid()
    modifies (set p | p in document.Pages)`EmbeddingVector, set p | p in document.Pages :: p.EmbeddingVector
    ensures document.Valid() && document.Pages == old(document.Pages)
    ensures document.View() == EmbedAll(old(document.View()), embed)
    ensures calls == EmbedCalls(old(document.View()))
    ensures forall p :: p in document.Pages ==>
              p.EmbeddingVector == old(p.EmbeddingVector) || (old(p.EmbeddingVector) == null && fresh(p.EmbeddingVector))
  {
    ghost var views := document.View();
    var positions := [];
    var i := 0;
    while i < |document.Pages|
      invariant 0 <= i <= |document.Pages|
      invariant positions == Positions(views[..i])
    {
      var page := document.Pages[i];
      assert views[..i + 1][..i] == views[..i];
      assert views[i] == page.View();
      if !IsPageEmbeddingValid(page) && !IsNullOrWhiteSpace(page.Overview) {
        positions := positions + [i];
      }
      i := i + 1;
    }
    assert views[..i] == views;
    if |positions| == 0 {
      assert CandidateTexts(views) == [];
      return [];
    }
    calls := EmbedPositions(document, positions, embed);
  }

  // ---------------------------------------------------------------- overviews

  /** The overview generator run over every page, in page order. */
  method GeneratePageOverviews(document: Document, overviewOf: PageView -> Option<string>) returns (calls: seq<Call>)
    requires document.Valid()
    modifies (set p | p in document.Pages)`Overview
    ensures document.Valid() && document.Pages == old(document.Pages)
    ensures document.View() == WithOverviews(old(document.View()), overviewOf)
    ensures calls == [GenerateOverviews(document)]
  {
    ghost var views := document.View();
    var i := 0;
    while i < |document.Pages|
      invariant 0 <= i <= |document.Pages|
      invariant document.Valid() && document.Pages == old(document.Pages)
      invariant |document.View()| == |views|
      invariant forall m :: 0 <= m < |views| ==>
                  document.View()[m] == if m < i then views[m].(overview := overviewOf(views[m])) else views[m]
    {
      var page := document.Pages[i];
      assert page.View() == views[i] by {
        assert document.View()[i] == page.View();
      }
      document.SetOverview(page, i, overviewOf(page.View()));
      i := i + 1;
    }
    assert document.View() == WithOverviews(views, overviewOf);
    calls := [GenerateOverviews(document)];
  }

  // ---------------------------------------------------------------- images

  /**
   * `ProcessMediaPagesAsync` with OCR off, as `ProcessPagesAsync` calls it:
   * page 1 is found or added and gets the file's content as its image unless
   * it has one. Nothing happens without a file.
   */
  method ProcessMediaPages(document: Document)
    requires document.Valid()
    modifies document`Pages, (set q | q in document.Pages)`Image
    ensures document.Valid()
    ensures old(document.File).None? ==> document.View() == old(document.View())
    ensures old(document.File).Some? ==>
              document.View() == MediaPage(old(document.View()), BinaryContent(old(document.File).value.Bytes, old(document.MediaType)))
    ensures old(document.Pages) <= document.Pages
    ensures forall q :: q in document.Pages ==> q in old(document.Pages) || fresh(q)
  {
    var file, mediaType := document.File, document.MediaType;
    if file.None? {
      return;
    }
    ghost var before := document.View();
    IndexPagesReturnsFirstMatch(before, 1);
    ghost var indexed := IndexPages(before, 1).0;
    ghost var k := IndexPages(before, 1).1;
    var page := document.GetPage(1);
    assert document.View() == indexed;
    assert indexed[k] == page.View();
    if page.Image.None? {
      document.SetImage(page, k, Some(BinaryContent(file.value.Bytes, mediaType)));
    }
  }

  // ---------------------------------------------------------------- CSV

  /**
   * The page part of `ProcessCsvPagesAsync`, given the built text: page 1
   * gets the decoded file, then the text; its overview is embedded in one
   * request and the page gets a new vector object. When the text did not
   * build, the exception is raised after the decoded file is in place.
   */
  method WriteCsvPage(document: Document, decoded: string, text: Result<string>, ghost records: seq<seq<string>>,
                      embed: Embedder)
    returns (outcome: Outcome, calls: seq<Call>)
    requires document.Valid() && text == CsvText(records)
    modifies document`Pages, (set q | q in document.Pages)`RawText, (set q | q in document.Pages)`EmbeddingVector
    ensures document.Valid()
    ensures (outcome, document.View(), calls) == CsvPage(old(document.View()), decoded, records, embed)
    ensures outcome.Pass? ==>
              var k := IndexPages(old(document.View()), 1).1;
              k < |document.Pages| && fresh(document.Pages[k].EmbeddingVector)
    ensures old(document.Pages) <= document.Pages
    ensures forall q :: q in document.Pages ==> q in old(document.Pages) || fresh(q)
  {
    ghost var before := document.View();
    IndexPagesReturnsFirstMatch(before, 1);
    ghost var indexed := IndexPages(before, 1).0;
    ghost var k := IndexPages(before, 1).1;
    var page := document.GetPage(1);
    assert document.View() == indexed;
    document.SetRawText(page, k, Some(decoded));
    if text.Err? {
      return Fail(text.error), [];
    }
    document.SetRawText(page, k, Some(text.value));
    assert document.View()[k] == page.View();
    var input := [if page.Overview.Some? then page.Overview.value else NoOverview];
    var response := embed(input);
    var model := if page.Overview.None? || |response| == 0 then ErrorModel else ModelName;
    document.ReplaceEmbedding(page, k, model, if |response| > 0 then response[0] else []);
    return Pass, [Embed(input)];
  }

  /**
   * `ProcessCsvPagesAsync`. The text is built from the records before the
   * page is touched: the build reads nothing of the document, so the pages
   * and calls end as in the source's order. Nothing happens without a file.
   */
  method ProcessCsvPages(document: Document, p: Providers) returns (outcome: Outcome, calls: seq<Call>)
    requires document.Valid()
    modifies document`Pages, (set q | q in document.Pages)`RawText, (set q | q in document.Pages)`EmbeddingVector
    ensures document.Valid()
    ensures old(document.File).None? ==> outcome == Pass && document.View() == old(document.View()) && calls == []
    ensures old(document.File).Some? ==>
              var bytes := old(document.File).value.Bytes;
              (outcome, document.View(), calls) == CsvPage(old(document.View()), p.decode(bytes), p.csv(bytes), p.embed)
    ensures old(document.File).Some? && outcome.Pass? ==>
              var k := IndexPages(old(document.View()), 1).1;
              k < |document.Pages| && fresh(document.Pages[k].EmbeddingVector)
    ensures old(document.Pages) <= document.Pages
    ensures forall q :: q in document.Pages ==> q in old(document.Pages) || fresh(q)
  {
    if document.File.None? {
      return Pass, [];
    }
    var bytes := document.File.value.Bytes;
    ghost var views := document.View();
    var text := BuildCsvText(p.csv(bytes));
    assert document.View() == views && document.Valid();
    outcome, calls := WriteCsvPage(document, p.decode(bytes), text, p.csv(bytes), p.embed);
  }

  // ---------------------------------------------------------------- PDF

  /** One entry of the extracted texts: `document[pageNumber].RawText ??= text without NULs`. */
  method FillRawText(document: Document, entry: (int, string))
    requires document.Valid()
    modifies document`Pages, (set q | q in document.Pages)`RawText
    ensures document.Valid()
    ensures document.View() == PdfStep(old(document.View()), entry)
    ensures old(document.Pages) <= document.Pages
    ensures forall q :: q in document.Pages ==> q in old(document.Pages) || fresh(q)
  {
    ghost var before := document.View();
    IndexPagesReturnsFirstMatch(before, entry.0);
    ghost var k := IndexPages(before, entry.0).1;
    var page := document.GetPage(entry.0);
    assert document.View()[k] == page.View();
    if page.RawText.None? {
      document.SetRawText(page, k, Some(RemoveNul(entry.1)));
    }
  }

  /**
   * `GetPdfPagesRawTextsAsync`: the texts of every page of the parsed PDF, in
   * page order, fill the raw texts of the document's pages.
   */
  method GetPdfPagesRawTexts(document: Document, pdf: (nat, int -> Option<string>))
    requires document.Valid()
    modifies document`Pages, (set q | q in document.Pages)`RawText
    ensures document.Valid()
    ensures document.View() == PdfTexts(old(document.View()), AllPageTexts(pdf.0, pdf.1))
    ensures old(document.Pages) <= document.Pages
    ensures forall q :: q in document.Pages ==> q in old(document.Pages) || fresh(q)
  {
    var count := pdf.0;
    var texts := ExtractPaginatedText(count, Range(1, count), pdf.1);
    ExtractedAllPages(texts, count, pdf.1);
    ghost var views := document.View();
    var i := 0;
    while i < |texts|
      invariant 0 <= i <= |texts|
      invariant document.Valid()
      invariant document.View() == PdfTexts(views, texts[..i])
      invariant old(document.Pages) <= document.Pages
      invariant forall q :: q in document.Pages ==> q in old(document.Pages) || fresh(q)
    {
      PdfTextsStep(views, texts, i);
      FillRawText(document, texts[i]);
      i := i + 1;
    }
    assert texts[..i] == texts;
  }

  // ---------------------------------------------------------------- Excel and PDF

  /**
   * The common tail of the Excel and PDF procedures: overviews and section
   * titles, each when asked for, then embeddings.
   */
  method DescribeAndEmbed(document: Document, overviews: bool, titles: bool, p: Providers) returns (calls: seq<Call>)
    requires document.Valid()
    modifies (set q | q in document.Pages)`Overview
    modifies (set q | q in document.Pages)`EmbeddingVector, set q | q in document.Pages :: q.EmbeddingVector
    ensures document.Valid() && document.Pages == old(document.Pages)
    ensures document.View() == EmbedAll(Described(old(document.View()), overviews, p), p.embed)
    ensures calls == OverviewCalls(overviews, document) + TitleCalls(titles, document)
                     + EmbedCalls(Described(old(document.View()), overviews, p))
  {
    calls := [];
    if overviews {
      calls := GeneratePageOverviews(document, p.overviewOf);
    }
    if titles {
      calls := calls + [DetectSectionTitles(document)];
    }
    var embedCalls := GetEmbeddings(document, p.embed);
    calls := calls + embedCalls;
  }

  /** The worksheets become pages only when the document has none; new pages have no vector yet. */
  method ChunkIfEmpty(document: Document, sheets: seq<string>)
    requires document.Valid()
    modifies document`Pages, (set q | q in document.Pages)`RawText
    ensures document.Valid()
    ensures document.View() == Chunked(old(document.View()), sheets)
    ensures old(document.Pages) <= document.Pages && document.BareBeyond(old(document.Pages))
    ensures forall q :: q in document.Pages ==> q in old(document.Pages) || fresh(q)
  {
    if |document.Pages| == 0 {
      ChunkSheets(document, sheets);
      ChunkViewsFromEmpty(sheets);
    }
    BareFromView(document, old(document.Pages));
  }

  /**
   * `ProcessExcelPagesAsync`: the worksheets become pages only when the
   * document has none; then overviews, when asked for; then embeddings.
   * Nothing happens without a file.
   */
  method ProcessExcelPages(document: Document, overviews: bool, p: Providers) returns (calls: seq<Call>)
    requires document.Valid()
    modifies document`Pages, (set q | q in document.Pages)`RawText, (set q | q in document.Pages)`Overview
    modifies (set q | q in document.Pages)`EmbeddingVector, set q | q in document.Pages :: q.EmbeddingVector
    ensures document.Valid()
    ensures old(document.File).None? ==> document.View() == old(document.View()) && calls == []
    ensures old(document.File).Some? ==>
              (document.View(), calls) == ExcelPages(old(document.View()), old(document.File).value.Bytes, overviews, p, document)
    ensures old(document.Pages) <= document.Pages
    ensures forall q :: q in document.Pages ==> q in old(document.Pages) || fresh(q)
  {
    if document.File.None? {
      return [];
    }
    var sheets := p.sheets(document.File.value.Bytes);
    ChunkIfEmpty(document, sheets);
    ghost var chunked := document.View();
    calls := DescribeAndEmbed(document, overviews, false, p);
    assert OverviewCalls(overviews, document) + TitleCalls(false, document) == OverviewCalls(overviews, document);
  }

  /**
   * `ProcessPdfPagesAsync`: the raw texts of every PDF page; then overviews
   * and section titles, when asked for; then embeddings. Nothing happens
   * without a file.
   */
  method ProcessPdfPages(document: Document, overviews: bool, titles: bool, p: Providers) returns (calls: seq<Call>)
    requires document.Valid()
    modifies document`Pages, (set q | q in document.Pages)`RawText, (set q | q in document.Pages)`Overview
    modifies (set q | q in document.Pages)`EmbeddingVector, set q | q in document.Pages :: q.EmbeddingVector
    ensures document.Valid()
    ensures old(document.File).None? ==> document.View() == old(document.View()) && calls == []
    ensures old(document.File).Some? ==>
              (document.View(), calls) == PdfDocumentPages(old(document.View()), old(document.File).value.Bytes, overviews, titles, p, document)
    ensures old(document.Pages) <= document.Pages
    ensures forall q :: q in document.Pages ==> q in old(document.Pages) || fresh(q)
  {
    if document.File.None? {
      return [];
    }
    ghost var before := document.View();
    var pdf := p.pdf(document.File.value.Bytes);
    GetPdfPagesRawTexts(document, pdf);
    PdfTextsAddBare(before, AllPageTexts(pdf.0, pdf.1));
    BareFromView(document, old(document.Pages));
    calls := DescribeAndEmbed(document, overviews, titles, p);
  }

  // ---------------------------------------------------------------- dispatch

  /**
   * `ProcessPagesAsync`: the procedure for the document's media type, or the
   * exception for a media type without one. The pages and calls are those of
   * `Processed`.
   */
  method ProcessPages(document: Document, overviews: bool, titles: bool, p: Providers)
    returns (outcome: Outcome, calls: seq<Call>)
    requires document.Valid()
    modifies document`Pages, (set q | q in document.Pages)`RawText, (set q | q in document.Pages)`Overview
    modifies (set q | q in document.Pages)`Image
    modifies (set q | q in document.Pages)`EmbeddingVector, set q | q in document.Pages :: q.EmbeddingVector
    ensures document.Valid()
    ensures (outcome, document.View(), calls)
            == Processed(old(document.View()), old(document.MediaType), old(document.File), overviews, titles, p, document)
    ensures old(document.Pages) <= document.Pages
    ensures forall q :: q in document.Pages ==> q in old(document.Pages) || fresh(q)
  {
    var mediaType := document.MediaType;
    if !Supported(mediaType) {
      return Fail(UnknownMediaType()), [];
    }
    outcome := Pass;
    calls := [];
    if mediaType == ApplicationPdf {
      calls := ProcessPdfPages(document, overviews, titles, p);
    } else if mediaType == ImageJpeg || mediaType == ImagePng {
      ProcessMediaPages(document);
    } else if mediaType == TextCsv {
      outcome, calls := ProcessCsvPages(document, p);
    } else {
      calls := ProcessExcelPages(document, overviews, p);
    }
  }

  // ---------------------------------------------------------------- a batch of documents

  /** What processing reads of a document. */
  ghost function InputOf(document: Document): DocumentInput
    reads document, set q | q in document.Pages, set q | q in document.Pages :: q.EmbeddingVector
  {
    DocumentInput(document, document.View(), document.MediaType, document.File, document.Name)
  }

  /** What processing reads of each entry of a batch; nothing for a null entry. */
  ghost function Inputs(documents: seq<Document?>): (r: seq<Option<DocumentInput>>)
    reads set d: Document | d in documents, set d: Document, q | d in documents && q in d.Pages :: q
    reads set d: Document, q | d in documents && q in d.Pages :: q.EmbeddingVector
    ensures |r| == |documents|
  {
    if documents == [] then []
    else [if documents[0] == null then None else Some(InputOf(documents[0]))] + Inputs(documents[1..])
  }

  /** Entry `k` of a batch reads as its own document does. */
  lemma {:induction false} InputsAt(documents: seq<Document?>, k: nat)
    requires k < |documents|
    ensures Inputs(documents)[k] == if documents[k] == null then None else Some(InputOf(documents[k]))
  {
    if k > 0 {
      InputsAt(documents[1..], k - 1);
    }
  }

  /** The documents of a batch: each one valid, and no two sharing a page or a vector. */
  ghost predicate Separate(documents: seq<Document?>)
    reads set d: Document | d in documents, set d: Document, q | d in documents && q in d.Pages :: q
  {
    && (forall d: Document :: d in documents ==> d.Valid())
    && forall i, j :: 0 <= i < j < |documents| && documents[i] != null && documents[j] != null ==>
         documents[i].Footprint() !! documents[j].Footprint()
  }

  /** The footprint of each entry of a batch; nothing for a null entry. */
  ghost function Footprints(documents: seq<Document?>): (r: seq<set<object>>)
    reads set d: Document | d in documents, set d: Document, q | d in documents && q in d.Pages :: q
    ensures |r| == |documents|
  {
    if documents == [] then []
    else [if documents[0] == null then {} else documents[0].Footprint()] + Footprints(documents[1..])
  }

  /** The footprint of entry `k` of a batch. */
  lemma {:induction false} FootprintsAt(documents: seq<Document?>, k: nat)
    requires k < |documents|
    ensures Footprints(documents)[k] == if documents[k] == null then {} else documents[k].Footprint()
  {
    if k > 0 {
      FootprintsAt(documents[1..], k - 1);
    }
  }

  /** A document whose objects are as they were still reads the same and is still valid. */
  twostate lemma SameInput(document: Document)
    requires old(allocated(document)) && unchanged(old(document.Footprint()))
    ensures InputOf(document) == old(InputOf(document))
    ensures document.Valid() == old(document.Valid())
    ensures document.Footprint() == old(document.Footprint())
  {
    assert old(document.Pages) == document.Pages;
    FootprintCovers(document);
  }

  /**
   * The body of the loop of `ProcessDocumentsAsync`: the document is
   * processed and then, when the callback is set and nothing was raised,
   * reported by name. Only the document's own objects change.
   */
  method ProcessAndReport(document: Document, ghost processing: Processing, overviews: bool, titles: bool, notify: bool, p: Providers)
    returns (outcome: Outcome, calls: seq<Call>)
    requires document.Valid() && processing == ProcessingOf(InputOf(document), overviews, titles, p)
    modifies document.Footprint()
    ensures outcome == processing.outcome
    ensures calls == if outcome.Pass? then processing.calls + Notified(notify, processing.name) else processing.calls
  {
    FootprintCovers(document);
    outcome, calls := ProcessPages(document, overviews, titles, p);
    if outcome.Pass? && notify {
      calls := calls + [DocumentProcessed(document.Name)];
    }
  }

  /**
   * The documents of a batch from `i` on are as they were when the batch
   * began: in their footprints, which are pairwise disjoint, valid, and
   * reading as `inputs` says.
   */
  ghost predicate Pending(documents: seq<Document?>, i: nat, footprints: seq<set<object>>, inputs: seq<Option<DocumentInput>>)
    reads set d: Document | d in documents, set d: Document, q | d in documents && q in d.Pages :: q
    reads set d: Document, q | d in documents && q in d.Pages :: q.EmbeddingVector
  {
    && i <= |documents| == |footprints| == |inputs|
    && (forall j, k :: 0 <= j < k < |footprints| ==> footprints[j] !! footprints[k])
    && forall j :: i <= j < |documents| ==>
         if documents[j] == null then inputs[j].None?
         else
           && documents[j].Footprint() == footprints[j]
           && documents[j].Valid()
           && inputs[j] == Some(InputOf(documents[j]))
  }

  /** Entry `k` of `results` is what processing entry `k` of `inputs` comes to. */
  ghost predicate ProcessedEntry(results: seq<Option<Processing>>, inputs: seq<Option<DocumentInput>>, k: int,
                                 overviews: bool, titles: bool, p: Providers)
  {
    0 <= k < |results| && k < |inputs|
    && results[k] == if inputs[k].None? then None else Some(ProcessingOf(inputs[k].value, overviews, titles, p))
  }

  /**
   * One pass of the loop of `ProcessDocumentsAsync` over entry `i`: the
   * documents after it, which share nothing with it, are left as they were.
   */
  method ProcessEntry(document: Document, ghost documents: seq<Document?>, ghost i: nat, ghost footprints: seq<set<object>>,
                      ghost inputs: seq<Option<DocumentInput>>, ghost results: seq<Option<Processing>>,
                      overviews: bool, titles: bool, notify: bool, p: Providers)
    returns (outcome: Outcome, calls: seq<Call>)
    requires Pending(documents, i, footprints, inputs) && i < |documents| && documents[i] == document
    requires |results| == |inputs| && forall j :: 0 <= j < |inputs| ==> ProcessedEntry(results, inputs, j, overviews, titles, p)
    modifies footprints[i]
    ensures results[i].Some? && outcome == results[i].value.outcome
    ensures calls == if outcome.Pass? then results[i].value.calls + Notified(notify, results[i].value.name)
                     else results[i].value.calls
    ensures Pending(documents, i + 1, footprints, inputs)
  {
    assert ProcessedEntry(results, inputs, i, overviews, titles, p);
    outcome, calls := ProcessAndReport(document, results[i].value, overviews, titles, notify, p);
    forall j | i < j < |documents| && documents[j] != null
      ensures && documents[j].Footprint() == footprints[j]
              && documents[j].Valid()
              && inputs[j] == Some(InputOf(documents[j]))
    {
      SameInput(documents[j]);
    }
  }

  /** A null entry leaves what is pending from the next one on. */
  lemma PendingSkip(documents: seq<Document?>, i: nat, footprints: seq<set<object>>, inputs: seq<Option<DocumentInput>>)
    requires Pending(documents, i, footprints, inputs) && i < |documents| && documents[i] == null
    ensures Pending(documents, i + 1, footprints, inputs)
  {
  }

  /** When a batch begins, all of it is pending. */
  lemma BatchStart(documents: seq<Document?>)
    requires Separate(documents)
    ensures Pending(documents, 0, Footprints(documents), Inputs(documents))
  {
    var footprints, inputs := Footprints(documents), Inputs(documents);
    forall j | 0 <= j < |documents|
      ensures footprints[j] == if documents[j] == null then {} else documents[j].Footprint()
      ensures inputs[j] == if documents[j] == null then None else Some(InputOf(documents[j]))
    {
      FootprintsAt(documents, j);
      InputsAt(documents, j);
    }
  }

  /**
   * `ProcessDocumentsAsync`: each document of the list in turn, null entries
   * skipped; after a document is processed the callback, when set, receives
   * its name; an exception ends the batch.
   */
  method ProcessDocuments(documents: seq<Document?>, overviews: bool, titles: bool, notify: bool, p: Providers)
    returns (outcome: Outcome, calls: seq<Call>)
    requires Separate(documents)
    modifies set d: Document, o | d in documents && o in d.Footprint() :: o
    ensures (outcome, calls) == RunBatch(Processings(old(Inputs(documents)), overviews, titles, p), notify)
  {
    ghost var inputs := Inputs(documents);
    ghost var footprints := Footprints(documents);
    BatchStart(documents);
    ghost var results := Processings(inputs, overviews, titles, p);
    forall j | 0 <= j < |documents|
      ensures ProcessedEntry(results, inputs, j, overviews, titles, p)
      ensures results[j].None? <==> inputs[j].None?
      ensures footprints[j] == if documents[j] == null then {} else documents[j].Footprint()
    {
      FootprintsAt(documents, j);
      ProcessingsAt(inputs, overviews, titles, p, j);
    }
    outcome, calls := ProcessPending(documents, footprints, inputs, results, overviews, titles, notify, p);
  }

  /**
   * One pass of the loop of `ProcessDocumentsAsync` within a batch: a null
   * entry is skipped, a document is processed and reported; either the batch
   * ends here with what it raised or it goes on with the calls made so far.
   */
  method ProcessStep(document: Document?, ghost documents: seq<Document?>, ghost i: nat, ghost footprints: seq<set<object>>,
                     ghost inputs: seq<Option<DocumentInput>>, ghost results: seq<Option<Processing>>, calls: seq<Call>,
                     overviews: bool, titles: bool, notify: bool, p: Providers)
    returns (outcome: Outcome, made: seq<Call>)
    requires Pending(documents, i, footprints, inputs) && i < |documents| && documents[i] == document
    requires |results| == |inputs| && forall j :: 0 <= j < |inputs| ==> ProcessedEntry(results, inputs, j, overviews, titles, p)
    requires forall j :: 0 <= j < |inputs| ==> (results[j].None? <==> inputs[j].None?)
    requires BatchSoFar(results, i, notify, calls)
    modifies footprints[i]
    ensures outcome.Fail? ==> RunBatch(results, notify) == (outcome, made)
    ensures outcome.Pass? ==> BatchSoFar(results, i + 1, notify, made) && Pending(documents, i + 1, footprints, inputs)
  {
    if document == null {
      BatchSkip(results, i, notify, calls);
      PendingSkip(documents, i, footprints, inputs);
      return Pass, calls;
    }
    var o, c := ProcessEntry(document, documents, i, footprints, inputs, results, overviews, titles, notify, p);
    if o.Fail? {
      BatchFail(results, i, notify, calls);
    } else {
      BatchPass(results, i, notify, calls);
    }
    outcome, made := o, calls + c;
  }

  /** The loop of `ProcessDocumentsAsync`, over documents that are all pending. */
  method ProcessPending(documents: seq<Document?>, ghost footprints: seq<set<object>>, ghost inputs: seq<Option<DocumentInput>>,
                        ghost results: seq<Option<Processing>>, overviews: bool, titles: bool, notify: bool, p: Providers)
    returns (outcome: Outcome, calls: seq<Call>)
    requires Pending(documents, 0, footprints, inputs)
    requires |results| == |inputs| && forall j :: 0 <= j < |inputs| ==> ProcessedEntry(results, inputs, j, overviews, titles, p)
    requires forall j :: 0 <= j < |inputs| ==> (results[j].None? <==> inputs[j].None?)
    modifies set j, o | 0 <= j < |footprints| && o in footprints[j] :: o
    ensures (outcome, calls) == RunBatch(results, notify)
  {
    BatchBegin(results, notify);
    outcome, calls := Pass, [];
    var i := 0;
    while i < |documents|
      invariant 0 <= i <= |documents| && outcome == Pass
      invariant BatchSoFar(results, i, notify, calls)
      invariant Pending(documents, i, footprints, inputs)
    {
      outcome, calls := ProcessStep(documents[i], documents, i, footprints, inputs, results, calls, overviews, titles, notify, p);
      if outcome.Fail? {
        return;
      }
      i := i + 1;
    }
    BatchEnd(results, notify, calls);
  }
}
