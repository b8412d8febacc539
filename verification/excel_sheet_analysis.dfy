/**
 * `ExcelSheetAnalysisService.ChunkSheetsAsync`: one page per worksheet. For
 * each worksheet, in workbook order, the document's page indexer is asked for
 * page `Pages.Count + 1` and that page's raw text becomes the worksheet name.
 * The workbook is given as the sequence of its worksheet names; the
 * `chunkSize` parameter is never read and is not part of the model.
 */
module ExcelSheetAnalysis {

  import opened Wrappers
  import opened Documents

  /** One worksheet: index page `|views| + 1` and give it the sheet name as raw text. */
  function SheetStep(views: seq<PageView>, name: string): (r: seq<PageView>)
  {
    var indexed := IndexPages(views, |views| + 1);
    IndexPagesReturnsFirstMatch(views, |views| + 1);
    WithRawText(indexed.0, indexed.1, Some(name))
  }

  /** A worksheet writes its name into the page the indexer returns for `|views| + 1`. */
  lemma SheetStepWrites(views: seq<PageView>, name: string, indexed: seq<PageView>, k: nat)
    requires (indexed, k) == IndexPages(views, |views| + 1)
    ensures k < |indexed| && SheetStep(views, name) == WithRawText(indexed, k, Some(name))
  {
    IndexPagesReturnsFirstMatch(views, |views| + 1);
  }

  /** The views after the given worksheets, in order. */
  function ChunkViews(views: seq<PageView>, sheets: seq<string>): seq<PageView>
  {
    if sheets == [] then views
    else SheetStep(ChunkViews(views, sheets[..|sheets| - 1]), sheets[|sheets| - 1])
  }

  /** One more worksheet is one more `SheetStep`. */
  lemma ChunkViewsStep(views: seq<PageView>, sheets: seq<string>, i: nat)
    requires i < |sheets|
    ensures ChunkViews(views, sheets[..i + 1]) == SheetStep(ChunkViews(views, sheets[..i]), sheets[i])
  {
    assert sheets[..i + 1][..i] == sheets[..i];
  }

  /** The pages are numbered 1, 2, ..., in order. */
  predicate NumberedFromOne(views: seq<PageView>)
  {
    forall i :: 0 <= i < |views| ==> views[i].number == i + 1
  }

  /**
   * With pages numbered 1..k, a worksheet adds page k + 1, carrying the sheet
   * name and otherwise as the indexer creates it.
   */
  lemma SheetStepAppends(views: seq<PageView>, name: string)
    requires NumberedFromOne(views)
    ensures SheetStep(views, name) == views + [NewPageView(|views| + 1).(rawText := Some(name))]
  {
    var numbers := ViewNumbers(views);
    assert |views| + 1 !in numbers by {
      forall i | 0 <= i < |numbers| ensures numbers[i] != |views| + 1 {
        assert numbers[i] == views[i].number;
      }
    }
  }

  /**
   * From pages numbered 1..k, the worksheets become pages k + 1 .. k + n, in
   * workbook order, each holding its sheet name; the earlier pages are kept.
   */
  lemma {:induction false} ChunkViewsAppends(views: seq<PageView>, sheets: seq<string>)
    requires NumberedFromOne(views)
    ensures var r := ChunkViews(views, sheets);
      && |r| == |views| + |sheets|
      && r[..|views|] == views
      && NumberedFromOne(r)
      && forall j :: 0 <= j < |sheets| ==> r[|views| + j] == NewPageView(|views| + j + 1).(rawText := Some(sheets[j]))
  {
    if sheets != [] {
      var init := sheets[..|sheets| - 1];
      ChunkViewsAppends(views, init);
      var mid := ChunkViews(views, init);
      SheetStepAppends(mid, sheets[|sheets| - 1]);
      var r := ChunkViews(views, sheets);
      assert r == mid + [NewPageView(|mid| + 1).(rawText := Some(sheets[|sheets| - 1]))];
      forall j | 0 <= j < |sheets| - 1
        ensures r[|views| + j] == NewPageView(|views| + j + 1).(rawText := Some(sheets[j]))
      {
        assert r[|views| + j] == mid[|views| + j];
        assert init[j] == sheets[j];
      }
      assert r[..|views|] == mid[..|views|];
    }
  }

  /** From a document without pages, the pages are exactly the worksheets, numbered from 1. */
  lemma ChunkViewsFromEmpty(sheets: seq<string>)
    ensures var r := ChunkViews([], sheets);
      && |r| == |sheets|
      && forall j :: 0 <= j < |sheets| ==> r[j] == NewPageView(j + 1).(rawText := Some(sheets[j]))
  {
    ChunkViewsAppends([], sheets);
  }

  /**
   * When a page already carries number `Pages.Count + 1` (the numbering has a
   * gap), no page is added: the first page with that number has its raw text
   * overwritten with the sheet name.
   */
  lemma SheetStepOverwritesOnGap(views: seq<PageView>, name: string, k: nat)
    requires k < |views| && views[k].number == |views| + 1
    requires forall i :: 0 <= i < k ==> views[i].number != |views| + 1
    ensures SheetStep(views, name) == WithRawText(views, k, Some(name))
  {
    var numbers := ViewNumbers(views);
    assert numbers[k] == |views| + 1;
    forall i | 0 <= i < k ensures numbers[i] != |views| + 1 {
      assert numbers[i] == views[i].number;
    }
    assert FindNumber(numbers, |views| + 1) == Some(k);
  }

  /** One iteration of the worksheet loop. */
  method ChunkSheet(document: Document, name: string)
    requires document.Valid()
    modifies document`Pages, (set p | p in document.Pages)`RawText
    ensures document.Valid()
    ensures document.View() == SheetStep(old(document.View()), name)
    ensures old(document.Pages) <= document.Pages
    ensures forall p :: p in document.Pages ==> p in old(document.Pages) || fresh(p)
  {
    ghost var before := document.View();
    ghost var indexed := IndexPages(before, |before| + 1).0;
    ghost var k := IndexPages(before, |before| + 1).1;
    SheetStepWrites(before, name, indexed, k);
    var page := document.GetPage(|document.Pages| + 1);
    assert document.View() == indexed;
    document.SetRawText(page, k, Some(name));
    assert document.View() == WithRawText(indexed, k, Some(name));
  }

  /**
   * `ChunkSheetsAsync`: the pages of the document end as `ChunkViews` of the
   * old pages and the worksheet names.
   */
  method ChunkSheets(document: Document, sheets: seq<string>)
    requires document.Valid()
    modifies document`Pages, (set p | p in document.Pages)`RawText
    ensures document.Valid()
    ensures document.View() == ChunkViews(old(document.View()), sheets)
    ensures old(document.Pages) <= document.Pages
    ensures forall p :: p in document.Pages ==> p in old(document.Pages) || fresh(p)
  {
    var i := 0;
    while i < |sheets|
      invariant 0 <= i <= |sheets|
      invariant document.Valid()
      invariant document.View() == ChunkViews(old(document.View()), sheets[..i])
      invariant old(document.Pages) <= document.Pages
      invariant forall p :: p in document.Pages ==> p in old(document.Pages) || fresh(p)
    {
      ChunkViewsStep(old(document.View()), sheets, i);
      ChunkSheet(document, sheets[i]);
      i := i + 1;
    }
    assert sheets[..|sheets|] == sheets;
  }
}
