/**
 * The page procedures of `DocumentProcessingService` on page values: for
 * each media type, the views of a document's pages afterwards and the calls
 * made to the providers, as functions of the views before, the document's
 * file and the providers. The methods in `DocumentProcessing` are proved to
 * produce exactly these; the lemmas here state what the procedures promise.
 */
module ProcessingStages {

  import opened Wrappers
  import opened Common
  import opened Documents
  import opened ExternalCalls
  import opened Embeddings
  import opened CsvFormatting
  import opened PdfExtractor
  import opened ExcelSheetAnalysis

  /**
   * The foreign parsers and the providers, as functions of their inputs:
   * the PDF parser (page count and per-page extractor), the workbook's sheet
   * names, UTF-8 decoding, the CSV parser (records of fields), the overview
   * generator (one overview per page) and the embedding provider.
   */
  datatype Providers = Providers(
    pdf: Bytes -> (nat, int -> Option<string>),
    sheets: Bytes -> seq<string>,
    decode: Bytes -> string,
    csv: Bytes -> seq<seq<string>>,
    overviewOf: PageView -> Option<string>,
    embed: Embedder)

  // ---------------------------------------------------------------- PDF

  /** One extracted page: the indexer finds or adds the page, whose raw text is set, without NULs, only when it has none. */
  function PdfStep(views: seq<PageView>, entry: (int, string)): seq<PageView>
  {
    var indexed := IndexPages(views, entry.0);
    IndexPagesReturnsFirstMatch(views, entry.0);
    var k := indexed.1;
    if indexed.0[k].rawText.None? then WithRawText(indexed.0, k, Some(RemoveNul(entry.1))) else indexed.0
  }

  /** The views after the extracted entries, in dictionary order. */
  function PdfTexts(views: seq<PageView>, entries: Entries): seq<PageView>
  {
    if entries == [] then views
    else PdfStep(PdfTexts(views, entries[..|entries| - 1]), entries[|entries| - 1])
  }

  /** One more entry is one more `PdfStep`. */
  lemma PdfTextsStep(views: seq<PageView>, entries: Entries, i: nat)
    requires i < |entries|
    ensures PdfTexts(views, entries[..i + 1]) == PdfStep(PdfTexts(views, entries[..i]), entries[i])
  {
    assert entries[..i + 1][..i] == entries[..i];
  }

  /** Some page carries the number and a raw text. */
  predicate HasTextFor(views: seq<PageView>, n: int)
  {
    exists i :: 0 <= i < |views| && views[i].number == n && views[i].rawText.Some?
  }

  /**
   * An entry keeps every existing page in place with everything but its raw
   * text, keeps an existing raw text, and leaves a page with its number
   * holding a raw text.
   */
  lemma PdfStepKeeps(views: seq<PageView>, entry: (int, string))
    ensures var r := PdfStep(views, entry);
      && |views| <= |r|
      && (forall i :: 0 <= i < |views| ==> r[i] == views[i].(rawText := r[i].rawText))
      && (forall i :: 0 <= i < |views| && views[i].rawText.Some? ==> r[i] == views[i])
      && HasTextFor(r, entry.0)
  {
    IndexPagesReturnsFirstMatch(views, entry.0);
    IndexPagesAppendsOnlyOnMiss(views, entry.0);
    var indexed := IndexPages(views, entry.0);
    var r := PdfStep(views, entry);
    forall i | 0 <= i < |views| ensures r[i] == views[i].(rawText := r[i].rawText) {
      assert indexed.0[i] == views[i];
    }
    assert r[indexed.1].number == entry.0 && r[indexed.1].rawText.Some?;
  }

  /**
   * `page.RawText ??= ...`: a page that already had a raw text keeps it, and
   * every page keeps its place and everything but its raw text.
   */
  lemma {:induction false} PdfTextsKeepExisting(views: seq<PageView>, entries: Entries)
    ensures var r := PdfTexts(views, entries);
      && |views| <= |r|
      && (forall i :: 0 <= i < |views| ==> r[i] == views[i].(rawText := r[i].rawText))
      && (forall i :: 0 <= i < |views| && views[i].rawText.Some? ==> r[i] == views[i])
  {
    if entries != [] {
      var mid := PdfTexts(views, entries[..|entries| - 1]);
      PdfTextsKeepExisting(views, entries[..|entries| - 1]);
      PdfStepKeeps(mid, entries[|entries| - 1]);
    }
  }

  /** Every extracted page number ends up on a page with a raw text. */
  lemma {:induction false} PdfTextsCover(views: seq<PageView>, entries: Entries)
    ensures forall j :: 0 <= j < |entries| ==> HasTextFor(PdfTexts(views, entries), entries[j].0)
  {
    if entries != [] {
      var init := entries[..|entries| - 1];
      var mid := PdfTexts(views, init);
      var r := PdfTexts(views, entries);
      PdfTextsCover(views, init);
      PdfStepKeeps(mid, entries[|entries| - 1]);
      forall j | 0 <= j < |entries| - 1 ensures HasTextFor(r, entries[j].0) {
        assert HasTextFor(mid, init[j].0);
        var i :| 0 <= i < |mid| && mid[i].number == init[j].0 && mid[i].rawText.Some?;
        assert r[i] == mid[i];
      }
    }
  }

  /** The pages the extraction adds come from the indexer: none of them carries an embedding. */
  lemma {:induction false} PdfTextsAddBare(views: seq<PageView>, entries: Entries)
    ensures var r := PdfTexts(views, entries);
      && |views| <= |r|
      && forall i :: |views| <= i < |r| ==> r[i].embedding.None?
  {
    if entries != [] {
      var mid := PdfTexts(views, entries[..|entries| - 1]);
      var entry := entries[|entries| - 1];
      PdfTextsAddBare(views, entries[..|entries| - 1]);
      IndexPagesAppendsOnlyOnMiss(mid, entry.0);
      IndexPagesReturnsFirstMatch(mid, entry.0);
      var indexed := IndexPages(mid, entry.0).0;
      var r := PdfTexts(views, entries);
      forall i | |views| <= i < |r| ensures r[i].embedding.None? {
        assert r[i].embedding == indexed[i].embedding;
        if i < |mid| {
          assert indexed[i] == mid[i];
        }
      }
    }
  }

  /** A page as a new entry creates it: the indexer's default page with the NUL-free text. */
  function ExtractedPage(entry: (int, string)): PageView
  {
    NewPageView(entry.0).(rawText := Some(RemoveNul(entry.1)))
  }

  /** Every page number is below every key of the entries. */
  predicate NumbersBelow(views: seq<PageView>, entries: Entries)
  {
    forall i, j :: 0 <= i < |views| && 0 <= j < |entries| ==> views[i].number < entries[j].0
  }

  /** A key above every page number adds a page with the text. */
  lemma PdfStepAppends(views: seq<PageView>, entry: (int, string))
    requires forall i :: 0 <= i < |views| ==> views[i].number < entry.0
    ensures PdfStep(views, entry) == views + [ExtractedPage(entry)]
  {
    IndexPagesReturnsFirstMatch(views, entry.0);
    IndexPagesAppendsOnlyOnMiss(views, entry.0);
    var indexed := IndexPages(views, entry.0);
    assert |indexed.0| == |views| + 1;
  }

  /** The pages after the existing ones are the pages the entries create, in order. */
  predicate AppendedFrom(views: seq<PageView>, entries: Entries, r: seq<PageView>)
  {
    && |r| == |views| + |entries|
    && r[..|views|] == views
    && forall i :: |views| <= i < |r| ==> r[i] == ExtractedPage(entries[i - |views|])
  }

  /** Before a last, larger key, every page number is below it. */
  lemma AppendedNumbersBelow(views: seq<PageView>, init: Entries, last: (int, string), mid: seq<PageView>)
    requires Ascending(init + [last]) && NumbersBelow(views, init + [last])
    requires AppendedFrom(views, init, mid)
    ensures forall i :: 0 <= i < |mid| ==> mid[i].number < last.0
  {
    var entries := init + [last];
    forall i | 0 <= i < |mid| ensures mid[i].number < last.0 {
      if i < |views| {
        assert mid[i] == mid[..|views|][i];
        assert entries[|init|] == last;
      } else {
        assert entries[i - |views|] == init[i - |views|];
        assert entries[|init|] == last;
      }
    }
  }

  /** Appending the page of one more entry keeps the shape. */
  lemma AppendedExtend(views: seq<PageView>, init: Entries, last: (int, string), mid: seq<PageView>)
    requires AppendedFrom(views, init, mid)
    ensures AppendedFrom(views, init + [last], mid + [ExtractedPage(last)])
  {
    var entries := init + [last];
    var r := mid + [ExtractedPage(last)];
    assert r[..|views|] == mid[..|views|];
    forall i | |views| <= i < |r| ensures r[i] == ExtractedPage(entries[i - |views|]) {
      if i < |mid| {
        assert entries[i - |views|] == init[i - |views|];
      }
    }
  }

  /** With ascending keys above the existing numbers, each entry appends one page, in order. */
  lemma {:induction false} PdfTextsAppend(views: seq<PageView>, entries: Entries)
    requires Ascending(entries) && NumbersBelow(views, entries)
    ensures AppendedFrom(views, entries, PdfTexts(views, entries))
  {
    if entries != [] {
      var n := |entries| - 1;
      var init := entries[..n];
      var last := entries[n];
      assert entries == init + [last];
      PdfTextsAppend(views, init);
      var mid := PdfTexts(views, init);
      AppendedNumbersBelow(views, init, last, mid);
      PdfStepAppends(mid, last);
      AppendedExtend(views, init, last, mid);
    }
  }

  /** The pages of a PDF document: page `i + 1` carries the NUL-free text of PDF page `i + 1`, or its error message. */
  function PdfPages(count: nat, extract: int -> Option<string>): (r: seq<PageView>)
    ensures |r| == count
  {
    seq(count, j requires 0 <= j < count => ExtractedPage((j + 1, PageText(extract, j + 1))))
  }

  /**
   * From a document without pages, the raw-text step yields exactly one
   * page per PDF page, numbered from 1, each holding its page's text.
   */
  lemma PdfTextsFromEmpty(count: nat, extract: int -> Option<string>)
    ensures PdfTexts([], AllPageTexts(count, extract)) == PdfPages(count, extract)
  {
    var entries := AllPageTexts(count, extract);
    PdfTextsAppend([], entries);
    var r := PdfTexts([], entries);
    assert AppendedFrom([], entries, r);
    forall j | 0 <= j < count ensures r[j] == PdfPages(count, extract)[j] {
      assert r[j] == ExtractedPage(entries[j]);
      assert entries[j] == (j + 1, PageText(extract, j + 1));
    }
  }

  // ---------------------------------------------------------------- images

  /** `document[1].Image ??= content`: page 1 is found or added, and gets the content only when it has no image. */
  function MediaPage(views: seq<PageView>, content: BinaryContent): seq<PageView>
  {
    var indexed := IndexPages(views, 1);
    IndexPagesReturnsFirstMatch(views, 1);
    var k := indexed.1;
    if indexed.0[k].image.None? then WithImage(indexed.0, k, Some(content)) else indexed.0
  }

  /**
   * The first page numbered 1 ends up with an image: its old one if it had
   * one, else the file's content. Nothing else changes, apart from page 1
   * being added when there was none.
   */
  lemma MediaPageImage(views: seq<PageView>, content: BinaryContent)
    ensures var r := MediaPage(views, content);
      var (after, k) := IndexPages(views, 1);
      && |r| == |after| && k < |r|
      && r[k] == after[k].(image := Some(if after[k].image.Some? then after[k].image.value else content))
      && forall i :: 0 <= i < |r| && i != k ==> r[i] == after[i]
  {
    IndexPagesReturnsFirstMatch(views, 1);
  }

  /** A document without pages gets a single page 1 holding the content as its image. */
  lemma MediaPageFromEmpty(content: BinaryContent)
    ensures MediaPage([], content) == [NewPageView(1).(image := Some(content))]
  {
    assert FindNumber(ViewNumbers([]), 1) == None;
  }

  // ---------------------------------------------------------------- CSV

  /**
   * The CSV procedure on page values: page 1 is found or added and its raw
   * text becomes the decoded file; when the text builds, it replaces the raw
   * text and the page's overview (or the fallback text) is embedded in one
   * request, the first vector returned becoming a new embedding; when it
   * does not, the exception propagates with the decoded text in place.
   */
  function CsvPage(views: seq<PageView>, decoded: string, records: seq<seq<string>>, embed: Embedder)
    : (r: (Outcome, seq<PageView>, seq<Call>))
    ensures forall c :: c in r.2 ==> c.Embed?
  {
    var indexed := IndexPages(views, 1);
    IndexPagesReturnsFirstMatch(views, 1);
    var k := indexed.1;
    var withDecoded := WithRawText(indexed.0, k, Some(decoded));
    match CsvText(records)
    case Err(e) => (Fail(e), withDecoded, [])
    case Ok(text) =>
      var withText := WithRawText(withDecoded, k, Some(text));
      var overview := withText[k].overview;
      var input := [if overview.Some? then overview.value else NoOverview];
      var response := embed(input);
      var model := if overview.None? || |response| == 0 then ErrorModel else ModelName;
      (Pass, WithEmbedding(withText, k, EmbeddingView(model, if |response| > 0 then response[0] else [])), [Embed(input)])
  }

  /**
   * The CSV procedure fails, with `IndexOutOfRangeException`, exactly when a
   * data record has a non-blank field past the header; then page 1 holds the
   * decoded file and nothing is embedded. Otherwise page 1 holds the built
   * text, one request with one text is made, and the embedding's model is
   * the error model whenever page 1 has no overview or no vector came back.
   * No other page changes.
   */
  lemma CsvPageResult(views: seq<PageView>, decoded: string, records: seq<seq<string>>, embed: Embedder)
    ensures var (outcome, r, calls) := CsvPage(views, decoded, records, embed);
      var (after, k) := IndexPages(views, 1);
      && |r| == |after| && k < |r| && after[k].number == 1
      && (forall i :: 0 <= i < |r| && i != k ==> r[i] == after[i])
      && (outcome.Fail? <==> exists row, i :: 1 <= row < |records| && WideCell(records[0], records[row], i))
      && (outcome.Fail? ==>
            outcome.error == HeaderIndexError() && calls == [] && r[k] == after[k].(rawText := Some(decoded)))
      && (outcome.Pass? ==>
            && r[k].rawText == Some(CsvText(records).value)
            && r[k] == after[k].(rawText := r[k].rawText, embedding := r[k].embedding)
            && |calls| == 1 && calls[0].Embed? && |calls[0].texts| == 1
            && r[k].embedding.Some?
            && (after[k].overview.None? ==> r[k].embedding.value.model == ErrorModel)
            && (r[k].embedding.value.model == ModelName <==>
                  after[k].overview.Some? && |embed(calls[0].texts)| > 0))
  {
    IndexPagesReturnsFirstMatch(views, 1);
    CsvTextFails(records);
  }

  // ---------------------------------------------------------------- overviews

  /** The overview generator run over every page. */
  function WithOverviews(views: seq<PageView>, overviewOf: PageView -> Option<string>): (r: seq<PageView>)
    ensures |r| == |views|
  {
    seq(|views|, i requires 0 <= i < |views| => views[i].(overview := overviewOf(views[i])))
  }

  /** The overview step when asked for: it changes overviews only. */
  function Described(views: seq<PageView>, overviews: bool, p: Providers): (r: seq<PageView>)
    ensures |r| == |views|
    ensures forall i :: 0 <= i < |views| ==> r[i] == views[i].(overview := r[i].overview)
  {
    if overviews then WithOverviews(views, p.overviewOf) else views
  }

  /** `GetEmbeddingsAsync` on page values, with the provider's answers. */
  function EmbedAll(views: seq<PageView>, embed: Embedder): (r: seq<PageView>)
  {
    Embedded(views, BatchVectors(CandidateTexts(views), 0, embed))
  }

  /** The requests `GetEmbeddingsAsync` makes: embedding calls only. */
  function EmbedCalls(views: seq<PageView>): (r: seq<Call>)
    ensures forall c :: c in r ==> c.Embed?
  {
    BatchCallsShape(CandidateTexts(views), 0);
    BatchCalls(CandidateTexts(views), 0)
  }

  /** Same page numbers and raw texts, position by position. */
  predicate SameTexts(views: seq<PageView>, r: seq<PageView>)
  {
    |r| == |views| && forall i :: 0 <= i < |views| ==> r[i].number == views[i].number && r[i].rawText == views[i].rawText
  }

  /** Overviews and embeddings leave page numbers and raw texts alone. */
  lemma DescribeAndEmbedKeepTexts(views: seq<PageView>, overviews: bool, p: Providers)
    ensures SameTexts(views, EmbedAll(Described(views, overviews, p), p.embed))
  {
    var described := Described(views, overviews, p);
    var r := EmbedAll(described, p.embed);
    forall i | 0 <= i < |views| ensures r[i].number == views[i].number && r[i].rawText == views[i].rawText {
      assert r[i].number == described[i].number && r[i].rawText == described[i].rawText;
    }
  }

  /** The overview request, when asked for. */
  function OverviewCalls(overviews: bool, document: Document): seq<Call>
  {
    if overviews then [GenerateOverviews(document)] else []
  }

  /** The section-title request, when asked for. */
  function TitleCalls(titles: bool, document: Document): seq<Call>
  {
    if titles then [DetectSectionTitles(document)] else []
  }

  // ---------------------------------------------------------------- Excel

  /** The worksheets become pages only when the document has none. */
  function Chunked(views: seq<PageView>, sheets: seq<string>): seq<PageView>
  {
    if views == [] then ChunkViews(views, sheets) else views
  }

  /**
   * The Excel procedure on page values: the worksheets become pages only when
   * the document has none; then overviews, when asked for; then embeddings.
   */
  function ExcelPages(views: seq<PageView>, bytes: Bytes, overviews: bool, p: Providers, document: Document)
    : (seq<PageView>, seq<Call>)
  {
    var described := Described(Chunked(views, p.sheets(bytes)), overviews, p);
    (EmbedAll(described, p.embed), OverviewCalls(overviews, document) + EmbedCalls(described))
  }

  /** The page shape of an Excel document: existing pages are kept, or from none the worksheets in order. */
  predicate ExcelShape(views: seq<PageView>, sheets: seq<string>, r: seq<PageView>)
  {
    && (views != [] ==> SameTexts(views, r))
    && (views == [] ==>
          && |r| == |sheets|
          && forall i :: 0 <= i < |r| ==> r[i].number == i + 1 && r[i].rawText == Some(sheets[i]))
  }

  /** The shape is about numbers and raw texts only. */
  lemma ExcelShapeTransfers(views: seq<PageView>, sheets: seq<string>, chunked: seq<PageView>, r: seq<PageView>)
    requires ExcelShape(views, sheets, chunked) && SameTexts(chunked, r)
    ensures ExcelShape(views, sheets, r)
  {
    if views != [] {
      assert forall i :: 0 <= i < |views| ==> r[i].number == chunked[i].number == views[i].number;
    }
  }

  /**
   * A workbook is split into pages only when the document has none: existing
   * pages keep their numbers and raw texts, and from no pages the worksheets
   * become pages 1..n holding the sheet names. Overviews are generated
   * exactly when asked for; section titles are never detected.
   */
  lemma ExcelPagesShape(views: seq<PageView>, bytes: Bytes, overviews: bool, p: Providers, document: Document)
    ensures var (r, calls) := ExcelPages(views, bytes, overviews, p, document);
      && ExcelShape(views, p.sheets(bytes), r)
      && (GenerateOverviews(document) in calls <==> overviews)
      && DetectSectionTitles(document) !in calls
  {
    var sheets := p.sheets(bytes);
    var chunked := Chunked(views, sheets);
    if views == [] {
      ChunkViewsFromEmpty(sheets);
    }
    assert ExcelShape(views, sheets, chunked);
    DescribeAndEmbedKeepTexts(chunked, overviews, p);
    ExcelShapeTransfers(views, sheets, chunked, EmbedAll(Described(chunked, overviews, p), p.embed));
  }

  // ---------------------------------------------------------------- PDF, whole procedure

  /**
   * The PDF procedure on page values: the raw texts of every PDF page; then
   * overviews and section titles, when asked for; then embeddings.
   */
  function PdfDocumentPages(views: seq<PageView>, bytes: Bytes, overviews: bool, titles: bool, p: Providers,
                            document: Document): (seq<PageView>, seq<Call>)
  {
    var parsed := p.pdf(bytes);
    var described := Described(PdfTexts(views, AllPageTexts(parsed.0, parsed.1)), overviews, p);
    (EmbedAll(described, p.embed),
     OverviewCalls(overviews, document) + TitleCalls(titles, document) + EmbedCalls(described))
  }

  /**
   * The page shape of a PDF document: every existing page keeps its place,
   * number and raw text if it had one; every PDF page has a page with a raw
   * text; from no pages, exactly pages 1..count with the NUL-free extracted
   * texts (or the error messages).
   */
  predicate PdfShape(views: seq<PageView>, count: nat, extract: int -> Option<string>, r: seq<PageView>)
  {
    && |views| <= |r|
    && (forall i :: 0 <= i < |views| ==> r[i].number == views[i].number)
    && (forall i :: 0 <= i < |views| && views[i].rawText.Some? ==> r[i].rawText == views[i].rawText)
    && (forall n :: 0 < n <= count ==> HasTextFor(r, n))
    && (views == [] ==>
          && |r| == count
          && forall i :: 0 <= i < count ==> r[i].number == i + 1 && r[i].rawText == Some(RemoveNul(PageText(extract, i + 1))))
  }

  /** The raw-text step alone already has the shape. */
  lemma PdfTextsShape(views: seq<PageView>, count: nat, extract: int -> Option<string>)
    ensures PdfShape(views, count, extract, PdfTexts(views, AllPageTexts(count, extract)))
  {
    var entries := AllPageTexts(count, extract);
    var filled := PdfTexts(views, entries);
    PdfTextsKeepExisting(views, entries);
    PdfTextsCover(views, entries);
    forall n | 0 < n <= count ensures HasTextFor(filled, n) {
      assert entries[n - 1].0 == n;
    }
    if views == [] {
      PdfTextsFromEmpty(count, extract);
    }
  }

  /** The shape is about numbers and raw texts only. */
  lemma PdfShapeTransfers(views: seq<PageView>, count: nat, extract: int -> Option<string>, filled: seq<PageView>,
                          r: seq<PageView>)
    requires PdfShape(views, count, extract, filled) && SameTexts(filled, r)
    ensures PdfShape(views, count, extract, r)
  {
    forall n | 0 < n <= count ensures HasTextFor(r, n) {
      assert HasTextFor(filled, n);
      var i :| 0 <= i < |filled| && filled[i].number == n && filled[i].rawText.Some?;
      assert r[i].number == n && r[i].rawText.Some?;
    }
  }

  /**
   * The PDF procedure gives the pages the PDF shape; overviews and section
   * titles are requested exactly when asked for.
   */
  lemma PdfDocumentPagesShape(views: seq<PageView>, bytes: Bytes, overviews: bool, titles: bool, p: Providers,
                              document: Document)
    ensures var (r, calls) := PdfDocumentPages(views, bytes, overviews, titles, p, document);
      && PdfShape(views, p.pdf(bytes).0, p.pdf(bytes).1, r)
      && (GenerateOverviews(document) in calls <==> overviews)
      && (DetectSectionTitles(document) in calls <==> titles)
  {
    var (count, extract) := p.pdf(bytes);
    var filled := PdfTexts(views, AllPageTexts(count, extract));
    PdfTextsShape(views, count, extract);
    DescribeAndEmbedKeepTexts(filled, overviews, p);
    PdfShapeTransfers(views, count, extract, filled, EmbedAll(Described(filled, overviews, p), p.embed));
  }

  // ---------------------------------------------------------------- dispatch

  /** The exception `ProcessPagesAsync` raises for a media type it has no procedure for. */
  function UnknownMediaType(): Error
  {
    InvalidOperation("Document media type is unknown.")
  }

  /** The media types `ProcessPagesAsync` has a procedure for. */
  predicate Supported(mediaType: MediaType)
  {
    || mediaType == ApplicationPdf || mediaType == ImageJpeg || mediaType == ImagePng || mediaType == TextCsv
    || mediaType == ApplicationVndMsExcel || mediaType == ApplicationVndOpenXmlFormatsOfficeDocumentSpreadsheetMlSheet
  }

  /**
   * `ProcessPagesAsync` on page values: the outcome, the views afterwards and
   * the calls made, for a document with the given media type and file. Every
   * procedure does nothing when the document has no file.
   */
  function Processed(views: seq<PageView>, mediaType: MediaType, file: Option<File>, overviews: bool, titles: bool,
                     p: Providers, document: Document): (r: (Outcome, seq<PageView>, seq<Call>))
    ensures mediaType == ImageJpeg || mediaType == ImagePng ==> r.2 == []
    ensures forall c :: c in r.2 ==> !c.DocumentProcessed?
  {
    if !Supported(mediaType) then (Fail(UnknownMediaType()), views, [])
    else if file.None? then (Pass, views, [])
    else if mediaType == ApplicationPdf then
      var (r, calls) := PdfDocumentPages(views, file.value.Bytes, overviews, titles, p, document); (Pass, r, calls)
    else if mediaType == ImageJpeg || mediaType == ImagePng then
      (Pass, MediaPage(views, BinaryContent(file.value.Bytes, mediaType)), [])
    else if mediaType == TextCsv then
      CsvPage(views, p.decode(file.value.Bytes), p.csv(file.value.Bytes), p.embed)
    else
      var (r, calls) := ExcelPages(views, file.value.Bytes, overviews, p, document); (Pass, r, calls)
  }

  /** A CSV file some data record of which has a non-blank field past the header. */
  ghost predicate HasWideCell(records: seq<seq<string>>)
  {
    exists row, i :: 1 <= row < |records| && WideCell(records[0], records[row], i)
  }

  /**
   * Processing a document raises an exception exactly for an unsupported
   * media type, with the pages left as they were and no call made, and for a
   * CSV file with a non-blank field past its header. Without a file a
   * supported document is left as it was.
   */
  lemma ProcessedOutcome(views: seq<PageView>, mediaType: MediaType, file: Option<File>, overviews: bool, titles: bool,
                         p: Providers, document: Document)
    ensures var (outcome, r, calls) := Processed(views, mediaType, file, overviews, titles, p, document);
      && (outcome.Fail? <==>
            !Supported(mediaType) || (mediaType == TextCsv && file.Some? && HasWideCell(p.csv(file.value.Bytes))))
      && (!Supported(mediaType) ==> outcome == Fail(UnknownMediaType()) && r == views && calls == [])
      && (Supported(mediaType) && file.None? ==> outcome == Pass && r == views && calls == [])
  {
    if !Supported(mediaType) || file.None? {
    } else if mediaType == TextCsv {
      CsvPageFails(views, p.decode(file.value.Bytes), p.csv(file.value.Bytes), p.embed);
    } else {
      assert Processed(views, mediaType, file, overviews, titles, p, document).0 == Pass;
    }
  }

  /** A CSV page fails exactly on a non-blank field past the header. */
  lemma CsvPageFails(views: seq<PageView>, decoded: string, records: seq<seq<string>>, embed: Embedder)
    ensures CsvPage(views, decoded, records, embed).0.Fail? <==> HasWideCell(records)
  {
    CsvPageResult(views, decoded, records, embed);
  }

  // ---------------------------------------------------------------- a batch of documents

  /** What processing reads of one document: its pages, media type, file and name. */
  datatype DocumentInput = DocumentInput(document: Document, views: seq<PageView>, mediaType: MediaType,
                                         file: Option<File>, name: string)

  /** The exception processing a document raises, if any: it depends on the media type and the file alone. */
  function PagesOutcome(mediaType: MediaType, file: Option<File>, p: Providers): Outcome
  {
    if !Supported(mediaType) then Fail(UnknownMediaType())
    else if mediaType == TextCsv && file.Some? && CsvText(p.csv(file.value.Bytes)).Err? then
      Fail(CsvText(p.csv(file.value.Bytes)).error)
    else Pass
  }

  /** Whatever the pages hold, processing a document raises exactly what `PagesOutcome` says. */
  lemma ProcessedRaises(views: seq<PageView>, mediaType: MediaType, file: Option<File>, overviews: bool, titles: bool,
                        p: Providers, document: Document)
    ensures Processed(views, mediaType, file, overviews, titles, p, document).0 == PagesOutcome(mediaType, file, p)
  {
    if !Supported(mediaType) || file.None? {
    } else if mediaType == TextCsv {
      var records := p.csv(file.value.Bytes);
      assert CsvPage(views, p.decode(file.value.Bytes), records, p.embed).0
             == if CsvText(records).Err? then Fail(CsvText(records).error) else Pass;
    } else {
      assert Processed(views, mediaType, file, overviews, titles, p, document).0 == Pass;
    }
  }

  /** What processing one present document produced: the exception, if any, the requests made, and its name. */
  datatype Processing = Processing(outcome: Outcome, calls: seq<Call>, name: string)

  /** Processing one document from its own pages. */
  function ProcessingOf(d: DocumentInput, overviews: bool, titles: bool, p: Providers): Processing
  {
    var processed := Processed(d.views, d.mediaType, d.file, overviews, titles, p, d.document);
    Processing(processed.0, processed.2, d.name)
  }

  /** Processing every present document of a batch from its own pages; null entries give nothing. */
  function Processings(inputs: seq<Option<DocumentInput>>, overviews: bool, titles: bool, p: Providers)
    : (r: seq<Option<Processing>>)
    ensures |r| == |inputs|
  {
    if inputs == [] then []
    else
      [if inputs[0].None? then None else Some(ProcessingOf(inputs[0].value, overviews, titles, p))]
      + Processings(inputs[1..], overviews, titles, p)
  }

  /** Entry `k` of a batch is processed from its own input alone. */
  lemma {:induction false} ProcessingsAt(inputs: seq<Option<DocumentInput>>, overviews: bool, titles: bool, p: Providers, k: nat)
    requires k < |inputs|
    ensures Processings(inputs, overviews, titles, p)[k]
            == if inputs[k].None? then None else Some(ProcessingOf(inputs[k].value, overviews, titles, p))
  {
    if k > 0 {
      ProcessingsAt(inputs[1..], overviews, titles, p, k - 1);
    }
  }

  /** A null entry of a batch gives nothing. */
  lemma {:induction false} ProcessingsSkip(inputs: seq<Option<DocumentInput>>, overviews: bool, titles: bool, p: Providers, k: nat)
    requires k < |inputs| && inputs[k].None?
    ensures Processings(inputs, overviews, titles, p)[k].None?
  {
    if k > 0 {
      ProcessingsSkip(inputs[1..], overviews, titles, p, k - 1);
    }
  }

  /** No request of `calls` is the callback. */
  predicate NoCallback(calls: seq<Call>)
  {
    forall c :: c in calls ==> !c.DocumentProcessed?
  }

  /**
   * Each present document raises what `PagesOutcome` says of its media type
   * and file, and none of its requests is the callback.
   */
  lemma ProcessingsRaise(inputs: seq<Option<DocumentInput>>, overviews: bool, titles: bool, p: Providers)
    ensures var r := Processings(inputs, overviews, titles, p);
      forall k :: 0 <= k < |inputs| && inputs[k].Some? ==>
        && r[k].Some?
        && r[k].value.outcome == PagesOutcome(inputs[k].value.mediaType, inputs[k].value.file, p)
        && NoCallback(r[k].value.calls)
        && r[k].value.name == inputs[k].value.name
  {
    var r := Processings(inputs, overviews, titles, p);
    forall k | 0 <= k < |inputs| && inputs[k].Some?
      ensures && r[k].Some?
              && r[k].value.outcome == PagesOutcome(inputs[k].value.mediaType, inputs[k].value.file, p)
              && NoCallback(r[k].value.calls)
              && r[k].value.name == inputs[k].value.name
    {
      var d := inputs[k].value;
      ProcessingsAt(inputs, overviews, titles, p, k);
      assert r[k] == Some(ProcessingOf(d, overviews, titles, p));
      ProcessedRaises(d.views, d.mediaType, d.file, overviews, titles, p, d.document);
    }
  }

  /** The callback request after a document, when a callback is set. */
  function Notified(notify: bool, name: string): seq<Call>
  {
    if notify then [DocumentProcessed(name)] else []
  }

  /**
   * `ProcessDocumentsAsync` on the documents' processing: null entries are
   * skipped; every document is processed and then, when a callback is set,
   * reported by name; the first exception ends the batch. The result is the
   * exception, if any, and every request made, in order.
   */
  function RunBatch(results: seq<Option<Processing>>, notify: bool): (r: (Outcome, seq<Call>))
  {
    if results == [] then (Pass, [])
    else if results[0].None? then RunBatch(results[1..], notify)
    else if results[0].value.outcome.Fail? then (results[0].value.outcome, results[0].value.calls)
    else
      var rest := RunBatch(results[1..], notify);
      (rest.0, results[0].value.calls + Notified(notify, results[0].value.name) + rest.1)
  }

  /** One step of the batch: the document at `i` and then the rest. */
  lemma RunBatchAt(results: seq<Option<Processing>>, i: nat, notify: bool)
    requires i < |results|
    ensures var rest := RunBatch(results[i + 1..], notify);
      RunBatch(results[i..], notify)
      == if results[i].None? then rest
         else if results[i].value.outcome.Fail? then (results[i].value.outcome, results[i].value.calls)
         else (rest.0, results[i].value.calls + Notified(notify, results[i].value.name) + rest.1)
  {
    assert results[i..][0] == results[i] && results[i..][1..] == results[i + 1..];
  }

  /**
   * After the first `i` documents of a batch, with `calls` made so far and
   * nothing raised, the batch as a whole comes to what the rest of it adds.
   */
  predicate BatchSoFar(results: seq<Option<Processing>>, i: nat, notify: bool, calls: seq<Call>)
    requires i <= |results|
  {
    RunBatch(results, notify) == (RunBatch(results[i..], notify).0, calls + RunBatch(results[i..], notify).1)
  }

  /** Before the first document, nothing is made yet. */
  lemma BatchBegin(results: seq<Option<Processing>>, notify: bool)
    ensures BatchSoFar(results, 0, notify, [])
  {
    assert results[0..] == results && [] + RunBatch(results, notify).1 == RunBatch(results, notify).1;
  }

  /** After the last document, with nothing raised, the batch passes with the calls made. */
  lemma BatchEnd(results: seq<Option<Processing>>, notify: bool, calls: seq<Call>)
    requires BatchSoFar(results, |results|, notify, calls)
    ensures RunBatch(results, notify) == (Pass, calls)
  {
    assert results[|results|..] == [] && calls + [] == calls;
  }

  /** A skipped entry adds nothing. */
  lemma BatchSkip(results: seq<Option<Processing>>, i: nat, notify: bool, calls: seq<Call>)
    requires i < |results| && results[i].None? && BatchSoFar(results, i, notify, calls)
    ensures BatchSoFar(results, i + 1, notify, calls)
  {
    RunBatchAt(results, i, notify);
  }

  /** A document that passes adds its calls and, when the callback is set, its name. */
  lemma BatchPass(results: seq<Option<Processing>>, i: nat, notify: bool, calls: seq<Call>)
    requires i < |results| && results[i].Some? && results[i].value.outcome.Pass? && BatchSoFar(results, i, notify, calls)
    ensures BatchSoFar(results, i + 1, notify, calls + (results[i].value.calls + Notified(notify, results[i].value.name)))
  {
    RunBatchAt(results, i, notify);
    var rest := RunBatch(results[i + 1..], notify);
    var passed := results[i].value.calls + Notified(notify, results[i].value.name);
    assert calls + (passed + rest.1) == calls + passed + rest.1;
  }

  /** A document that raises ends the batch with its own calls. */
  lemma BatchFail(results: seq<Option<Processing>>, i: nat, notify: bool, calls: seq<Call>)
    requires i < |results| && results[i].Some? && results[i].value.outcome.Fail? && BatchSoFar(results, i, notify, calls)
    ensures RunBatch(results, notify) == (results[i].value.outcome, calls + results[i].value.calls)
  {
    RunBatchAt(results, i, notify);
  }

  /** Whether the document processed raised. */
  predicate Raised(result: Option<Processing>)
  {
    result.Some? && result.value.outcome.Fail?
  }

  /** The position of the first document that raises, or the length of the batch when none does. */
  function FirstFailure(results: seq<Option<Processing>>): (r: nat)
    ensures r <= |results|
    ensures forall k :: 0 <= k < r ==> !Raised(results[k])
    ensures r < |results| ==> Raised(results[r])
  {
    if results == [] then 0
    else if Raised(results[0]) then 0
    else 1 + FirstFailure(results[1..])
  }

  /** The names of the documents processed, in order. */
  function Names(results: seq<Option<Processing>>): (r: seq<string>)
    ensures |r| <= |results|
  {
    if results == [] then []
    else (if results[0].Some? then [results[0].value.name] else []) + Names(results[1..])
  }

  /** Every present entry's name is listed, and every listed name is a present entry's. */
  lemma {:induction false} NamesOfPresent(results: seq<Option<Processing>>)
    ensures forall i :: 0 <= i < |results| && results[i].Some? ==> results[i].value.name in Names(results)
    ensures forall n :: n in Names(results) ==>
              exists i :: 0 <= i < |results| && results[i].Some? && results[i].value.name == n
  {
    if results != [] {
      var tail := results[1..];
      NamesOfPresent(tail);
      var head := if results[0].Some? then [results[0].value.name] else [];
      assert Names(results) == head + Names(tail);
      forall i | 0 <= i < |results| && results[i].Some? ensures results[i].value.name in Names(results) {
        if i > 0 {
          assert tail[i - 1] == results[i];
        }
      }
      forall n | n in Names(results)
        ensures exists i :: 0 <= i < |results| && results[i].Some? && results[i].value.name == n
      {
        if n !in head {
          var j :| 0 <= j < |tail| && tail[j].Some? && tail[j].value.name == n;
          assert results[j + 1] == tail[j];
        }
      }
    }
  }

  /** Names keep list order: the names of a concatenation are the concatenated names. */
  lemma {:induction false} NamesAppend(a: seq<Option<Processing>>, b: seq<Option<Processing>>)
    ensures Names(a + b) == Names(a) + Names(b)
  {
    if a == [] {
      assert a + b == b;
    } else {
      assert (a + b)[0] == a[0] && (a + b)[1..] == a[1..] + b;
      NamesAppend(a[1..], b);
    }
  }

  /** With no null entry, there is exactly one name per entry, at the entry's position. */
  lemma {:induction false} NamesWithoutNulls(results: seq<Option<Processing>>)
    requires forall i :: 0 <= i < |results| ==> results[i].Some?
    ensures |Names(results)| == |results|
    ensures forall i :: 0 <= i < |results| ==> Names(results)[i] == results[i].value.name
  {
    if results != [] {
      NamesWithoutNulls(results[1..]);
    }
  }

  /** The names the callback receives, in order. */
  function Callbacks(calls: seq<Call>): seq<string>
  {
    if calls == [] then []
    else (if calls[0].DocumentProcessed? then [calls[0].name] else []) + Callbacks(calls[1..])
  }

  lemma {:induction false} CallbacksAppend(a: seq<Call>, b: seq<Call>)
    ensures Callbacks(a + b) == Callbacks(a) + Callbacks(b)
  {
    if a == [] {
      assert a + b == b;
    } else {
      assert (a + b)[0] == a[0] && (a + b)[1..] == a[1..] + b;
      CallbacksAppend(a[1..], b);
    }
  }

  lemma {:induction false} CallbacksNone(calls: seq<Call>)
    requires NoCallback(calls)
    ensures Callbacks(calls) == []
  {
    if calls != [] {
      assert calls[0] in calls;
      assert NoCallback(calls[1..]) by {
        forall c | c in calls[1..] ensures !c.DocumentProcessed? {
          assert c in calls;
        }
      }
      CallbacksNone(calls[1..]);
    }
  }

  /** The batch raises what its first raising document raises, and completes when none raises. */
  lemma {:induction false} RunBatchRaisesFirst(results: seq<Option<Processing>>, notify: bool)
    ensures var f := FirstFailure(results);
      RunBatch(results, notify).0 == if f < |results| then results[f].value.outcome else Pass
  {
    if results != [] {
      RunBatchRaisesFirst(results[1..], notify);
    }
  }

  /** The names of a non-empty prefix: the first entry's name, then the names of the rest of it. */
  lemma NamesOfPrefix(results: seq<Option<Processing>>, f: nat)
    requires 1 <= f <= |results|
    ensures Names(results[..f])
            == (if results[0].Some? then [results[0].value.name] else []) + Names(results[1..][..f - 1])
  {
    assert results[..f][0] == results[0] && results[..f][1..] == results[1..][..f - 1];
  }

  /** A completed document's calls, its report and the rest give the callback its name, then the rest's. */
  lemma CallbacksOfStep(calls: seq<Call>, notify: bool, name: string, rest: seq<Call>)
    requires NoCallback(calls)
    ensures Callbacks(calls + Notified(notify, name) + rest)
            == (if notify then [name] else []) + Callbacks(rest)
  {
    CallbacksNone(calls);
    CallbacksAppend(calls, Notified(notify, name));
    CallbacksAppend(calls + Notified(notify, name), rest);
    assert Callbacks(Notified(notify, name)) == if notify then [name] else [];
  }

  /**
   * The callback receives the name of every document before the first one
   * that raises, once each and in list order, and nothing without a
   * callback. Null entries are skipped.
   */
  lemma {:induction false} RunBatchNotifiesInOrder(results: seq<Option<Processing>>, notify: bool)
    requires forall k :: 0 <= k < |results| && results[k].Some? ==> NoCallback(results[k].value.calls)
    ensures var f := FirstFailure(results);
      Callbacks(RunBatch(results, notify).1) == if notify then Names(results[..f]) else []
  {
    if results != [] {
      var tail := results[1..];
      assert forall k :: 0 <= k < |tail| && tail[k].Some? ==> NoCallback(tail[k].value.calls) by {
        forall k | 0 <= k < |tail| && tail[k].Some? ensures NoCallback(tail[k].value.calls) {
          assert tail[k] == results[k + 1];
        }
      }
      var f := FirstFailure(results);
      if results[0].None? {
        assert RunBatch(results, notify) == RunBatch(tail, notify);
        assert f == 1 + FirstFailure(tail);
        RunBatchNotifiesInOrder(tail, notify);
        NamesOfPrefix(results, f);
      } else if results[0].value.outcome.Pass? {
        var d := results[0].value;
        var rest := RunBatch(tail, notify);
        assert RunBatch(results, notify).1 == d.calls + Notified(notify, d.name) + rest.1;
        assert f == 1 + FirstFailure(tail);
        RunBatchNotifiesInOrder(tail, notify);
        CallbacksOfStep(d.calls, notify, d.name, rest.1);
        NamesOfPrefix(results, f);
      } else {
        assert RunBatch(results, notify).1 == results[0].value.calls;
        assert f == 0 && results[..f] == [];
        CallbacksNone(results[0].value.calls);
      }
    }
  }
}
