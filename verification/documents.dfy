/**
 * Documents, their pages and the embedding vectors attached to pages.
 *
 * Pages and embedding vectors are heap objects: the services update their
 * fields in place and a vector object is reused across re-embeddings. Their
 * state is read back through value views (`PageView`), so that the services
 * can be specified as functions from the old views to the new ones.
 */
module Documents {

  import opened Wrappers
  import opened Common

  /** An uploaded file: its name and its raw bytes. */
  datatype File = File(Name: string, Bytes: Bytes)

  /** The value of an embedding vector: the model that produced it and its components. */
  datatype EmbeddingView = EmbeddingView(model: string, vector: seq<real>)

  /** The value of a page: everything the services read or write, without object identity. */
  datatype PageView = PageView(
    number: int,
    rawText: Option<string>,
    text: Option<string>,
    overview: Option<string>,
    image: Option<BinaryContent>,
    documentId: string,
    embedding: Option<EmbeddingView>)

  class EmbeddingVector {
    var Model: string
    var Vector: seq<real>

    constructor (model: string, vector: seq<real>)
      ensures Model == model && Vector == vector
    {
      Model := model;
      Vector := vector;
    }

    function View(): EmbeddingView
      reads this
    {
      EmbeddingView(Model, Vector)
    }
  }

  class Page {
    var Document: Document?
    var EmbeddingVector: EmbeddingVector?
    const PageNumber: int
    var RawText: Option<string>
    var Text: Option<string>
    var Overview: Option<string>
    var Image: Option<BinaryContent>
    /** Nothing in the core assigns it: it keeps the value the page was created or read back with. */
    const DocumentId: string

    /** The object initializer the page indexer uses: a number and the owning document, all else default. */
    constructor (pageNumber: int, document: Document)
      ensures PageNumber == pageNumber && Document == document
      ensures View() == NewPageView(pageNumber)
    {
      PageNumber := pageNumber;
      Document := document;
      EmbeddingVector := null;
      RawText := None;
      Text := None;
      Overview := None;
      Image := None;
      DocumentId := "";
    }

    /** A page as it is read back from storage, with whatever `DocumentId` was stored. */
    constructor Restored(pageNumber: int, document: Document?, documentId: string)
      ensures PageNumber == pageNumber && Document == document && DocumentId == documentId
      ensures RawText == None && Text == None && Overview == None && Image == None && EmbeddingVector == null
    {
      PageNumber := pageNumber;
      Document := document;
      EmbeddingVector := null;
      RawText := None;
      Text := None;
      Overview := None;
      Image := None;
      DocumentId := documentId;
    }

    function View(): PageView
      reads this, EmbeddingVector
    {
      PageView(PageNumber, RawText, Text, Overview, Image, DocumentId,
               if EmbeddingVector == null then None else Some(EmbeddingVector.View()))
    }
  }

  /** A page as the indexer creates it: only the number is set; `DocumentId` keeps its default "". */
  function NewPageView(n: int): PageView
  {
    PageView(n, None, None, None, None, "", None)
  }

  /** The embedding vectors the given pages hold. */
  ghost function Vectors(pages: seq<Page>): set<EmbeddingVector>
    reads set p | p in pages
  {
    set p | p in pages && p.EmbeddingVector != null :: p.EmbeddingVector
  }

  /** The views of a sequence of pages, position by position. */
  function ViewOf(pages: seq<Page>): (r: seq<PageView>)
    reads set p | p in pages, set p | p in pages :: p.EmbeddingVector
    ensures |r| == |pages|
    ensures forall i :: 0 <= i < |pages| ==> r[i] == pages[i].View()
  {
    if pages == [] then [] else ViewOf(pages[..|pages| - 1]) + [pages[|pages| - 1].View()]
  }

  /** The page numbers of a sequence of pages (page numbers never change). */
  function Numbers(pages: seq<Page>): (r: seq<int>)
    ensures |r| == |pages|
    ensures forall i :: 0 <= i < |pages| ==> r[i] == pages[i].PageNumber
  {
    if pages == [] then [] else Numbers(pages[..|pages| - 1]) + [pages[|pages| - 1].PageNumber]
  }

  /** The page numbers of a sequence of page views. */
  function ViewNumbers(views: seq<PageView>): (r: seq<int>)
    ensures |r| == |views|
    ensures forall i :: 0 <= i < |views| ==> r[i] == views[i].number
  {
    if views == [] then [] else ViewNumbers(views[..|views| - 1]) + [views[|views| - 1].number]
  }

  /** `FirstOrDefault(p => p.PageNumber == n)` as a position: the first index holding `n`. */
  function FindNumber(numbers: seq<int>, n: int): (r: Option<nat>)
    ensures r.Some? ==> r.value < |numbers| && numbers[r.value] == n
    ensures r.Some? ==> forall i :: 0 <= i < r.value ==> numbers[i] != n
    ensures r.None? <==> n !in numbers
  {
    if numbers == [] then None
    else if numbers[0] == n then Some(0)
    else match FindNumber(numbers[1..], n)
      case None => None
      case Some(k) => Some(k + 1)
  }

  predicate Distinct<T(==)>(s: seq<T>)
  {
    forall i, j :: 0 <= i < j < |s| ==> s[i] != s[j]
  }

  /**
   * The page indexer on views: the pages after the access and the position
   * of the page it returns.
   */
  function IndexPages(views: seq<PageView>, n: int): (seq<PageView>, nat)
  {
    match FindNumber(ViewNumbers(views), n)
    case Some(k) => (views, k)
    case None => (views + [NewPageView(n)], |views|)
  }

  /** The returned page has the requested number and is the first page carrying it. */
  lemma IndexPagesReturnsFirstMatch(views: seq<PageView>, n: int)
    ensures var (after, k) := IndexPages(views, n);
      && k < |after|
      && after[k].number == n
      && (forall i :: 0 <= i < k ==> after[i].number != n)
  {
    var numbers := ViewNumbers(views);
    if FindNumber(numbers, n).None? {
      assert forall i :: 0 <= i < |views| ==> views[i].number != n by {
        forall i | 0 <= i < |views| ensures views[i].number != n {
          assert numbers[i] == views[i].number;
        }
      }
    }
  }

  /**
   * An existing number leaves the pages as they are; a missing one appends
   * exactly one default page: the pages grow by at most one and the old pages
   * are kept in place.
   */
  lemma IndexPagesAppendsOnlyOnMiss(views: seq<PageView>, n: int)
    ensures var (after, _) := IndexPages(views, n);
      && |views| <= |after| <= |views| + 1
      && after[..|views|] == views
      && (|after| == |views| <==> exists i :: 0 <= i < |views| && views[i].number == n)
      && (|after| == |views| + 1 ==> after[|views|] == NewPageView(n))
  {
    var numbers := ViewNumbers(views);
    match FindNumber(numbers, n)
    case Some(k) =>
      assert views[k].number == n;
    case None =>
      assert forall i :: 0 <= i < |views| ==> views[i].number != n by {
        forall i | 0 <= i < |views| ensures views[i].number != n {
          assert numbers[i] == views[i].number;
        }
      }
  }

  /** Indexing keeps page numbers unique. */
  lemma IndexPagesKeepsNumbersDistinct(views: seq<PageView>, n: int)
    requires Distinct(ViewNumbers(views))
    ensures Distinct(ViewNumbers(IndexPages(views, n).0))
  {
    var numbers := ViewNumbers(views);
    if FindNumber(numbers, n).None? {
      var after := IndexPages(views, n).0;
      var an := ViewNumbers(after);
      forall i, j | 0 <= i < j < |an| ensures an[i] != an[j] {
        assert an[i] == after[i].number && an[j] == after[j].number;
        if j == |views| {
          assert after[i] == views[i];
          assert numbers[i] == views[i].number;
        } else {
          assert numbers[i] == views[i].number && numbers[j] == views[j].number;
        }
      }
    }
  }

  /** Indexing the same number twice changes nothing the second time. */
  lemma IndexPagesIdempotent(views: seq<PageView>, n: int)
    ensures IndexPages(IndexPages(views, n).0, n) == IndexPages(views, n)
  {
    IndexPagesReturnsFirstMatch(views, n);
    var (after, k) := IndexPages(views, n);
    var an := ViewNumbers(after);
    assert an[k] == n;
    forall i | 0 <= i < k ensures an[i] != n {
      assert an[i] == after[i].number;
    }
    assert FindNumber(an, n) == Some(k);
  }

  lemma {:induction false} NumbersOfViews(pages: seq<Page>, views: seq<PageView>)
    requires |views| == |pages|
    requires forall i :: 0 <= i < |pages| ==> views[i].number == pages[i].PageNumber
    ensures ViewNumbers(views) == Numbers(pages)
  {
    var a := ViewNumbers(views);
    var b := Numbers(pages);
    assert |a| == |b|;
    forall i | 0 <= i < |a| ensures a[i] == b[i] {
    }
  }

  class Document {
    const Id: string
    var File: Option<File>
    var Pages: seq<Page>
    var Name: string
    var MediaType: MediaType

    /** A new document: no file, no pages, an empty name and the `Unknown` media type. */
    constructor (id: string)
      ensures Id == id && File == None && Pages == [] && Name == "" && MediaType == Unknown
      ensures Valid()
    {
      Id := id;
      File := None;
      Pages := [];
      Name := "";
      MediaType := Unknown;
    }

    /** Each page object occurs once, and no two pages share an embedding vector object. */
    ghost predicate Valid()
      reads this, set p | p in Pages
    {
      && Distinct(Pages)
      && (forall i, j :: 0 <= i < |Pages| && 0 <= j < |Pages| && i != j && Pages[i].EmbeddingVector != null
            ==> Pages[i].EmbeddingVector != Pages[j].EmbeddingVector)
    }

    /** Every page not among `pages` has no embedding vector object yet. */
    ghost predicate BareBeyond(pages: seq<Page>)
      reads this`Pages, (set p | p in Pages)`EmbeddingVector
    {
      forall p :: p in Pages && p !in pages ==> p.EmbeddingVector == null
    }

    /** The objects the document's state lives in. */
    ghost function Footprint(): set<object>
      reads this, set p | p in Pages
    {
      {this as object} + (set p: Page | p in Pages :: p as object) + (set v | v in Vectors(Pages) :: v as object)
    }

    function View(): seq<PageView>
      reads this, set p | p in Pages, set p | p in Pages :: p.EmbeddingVector
    {
      ViewOf(Pages)
    }

    /**
     * `document[pageNumber]`: the first page with that number, or a new page
     * with that number appended to `Pages`.
     */
    method GetPage(pageNumber: int) returns (page: Page)
      requires Valid()
      modifies this`Pages
      ensures Valid()
      ensures View() == IndexPages(old(View()), pageNumber).0
      ensures page == Pages[IndexPages(old(View()), pageNumber).1]
      ensures old(Pages) <= Pages
      ensures forall p :: p in Pages ==> p in old(Pages) || fresh(p)
      ensures page !in old(Pages) ==> fresh(page) && page.Document == this && Pages == old(Pages) + [page]
    {
      NumbersOfViews(Pages, View());
      var k := FindNumber(Numbers(Pages), pageNumber);
      match k {
        case Some(i) =>
          page := Pages[i];
        case None =>
          page := AddPage(pageNumber);
      }
    }

    /** `Pages.Add(new Page { Number = pageNumber, Document = this })`. */
    method AddPage(pageNumber: int) returns (page: Page)
      requires Valid()
      modifies this`Pages
      ensures Valid()
      ensures View() == old(View()) + [NewPageView(pageNumber)]
      ensures fresh(page) && page.Document == this && Pages == old(Pages) + [page]
    {
      ghost var before := View();
      page := new Page(pageNumber, this);
      Pages := Pages + [page];
      assert Pages[..|Pages| - 1] == old(Pages);
      assert ViewOf(old(Pages)) == before;
    }

    /** `page.RawText = text` for the page at position `k`; the other pages are unchanged. */
    method SetRawText(page: Page, ghost k: nat, text: Option<string>)
      requires Valid() && k < |Pages| && Pages[k] == page
      modifies page`RawText
      ensures Valid()
      ensures View() == WithRawText(old(View()), k, text)
      ensures Pages == old(Pages)
    {
      ghost var after := WithRawText(View(), k, text);
      page.RawText := text;
      forall i | 0 <= i < |Pages| ensures Pages[i].View() == after[i] {
        if i != k {
          assert Pages[i] != Pages[k];
        }
      }
    }
    /** `page.Overview = overview` for the page at position `k`; the other pages are unchanged. */
    method SetOverview(page: Page, ghost k: nat, overview: Option<string>)
      requires Valid() && k < |Pages| && Pages[k] == page
      modifies page`Overview
      ensures Valid()
      ensures View() == WithOverview(old(View()), k, overview)
      ensures Pages == old(Pages)
    {
      ghost var after := WithOverview(View(), k, overview);
      page.Overview := overview;
      forall i | 0 <= i < |Pages| ensures Pages[i].View() == after[i] {
        if i != k {
          assert Pages[i] != Pages[k];
        }
      }
    }

    /** `page.Image = image` for the page at position `k`; the other pages are unchanged. */
    method SetImage(page: Page, ghost k: nat, image: Option<BinaryContent>)
      requires Valid() && k < |Pages| && Pages[k] == page
      modifies page`Image
      ensures Valid()
      ensures View() == WithImage(old(View()), k, image)
      ensures Pages == old(Pages)
    {
      ghost var after := WithImage(View(), k, image);
      page.Image := image;
      forall i | 0 <= i < |Pages| ensures Pages[i].View() == after[i] {
        if i != k {
          assert Pages[i] != Pages[k];
        }
      }
    }

    /**
     * The embedding update of the page at position `k`: its vector object, or
     * a new one when it has none, gets the model and the components.
     */
    method SetEmbedding(page: Page, ghost k: nat, model: string, vector: seq<real>)
      requires Valid() && k < |Pages| && Pages[k] == page
      modifies page`EmbeddingVector, page.EmbeddingVector
      ensures Valid()
      ensures View() == WithEmbedding(old(View()), k, EmbeddingView(model, vector))
      ensures Pages == old(Pages)
      ensures old(page.EmbeddingVector) != null ==> page.EmbeddingVector == old(page.EmbeddingVector)
      ensures old(page.EmbeddingVector) == null ==> fresh(page.EmbeddingVector)
    {
      if page.EmbeddingVector == null {
        ReplaceEmbedding(page, k, model, vector);
      } else {
        UpdateEmbedding(page, k, model, vector);
      }
    }

    /** The page's existing vector object gets the model and the components. */
    method UpdateEmbedding(page: Page, ghost k: nat, model: string, vector: seq<real>)
      requires Valid() && k < |Pages| && Pages[k] == page && page.EmbeddingVector != null
      modifies page.EmbeddingVector
      ensures Valid()
      ensures View() == WithEmbedding(old(View()), k, EmbeddingView(model, vector))
    {
      ghost var after := WithEmbedding(View(), k, EmbeddingView(model, vector));
      var v := page.EmbeddingVector;
      v.Model := model;
      v.Vector := vector;
      forall i | 0 <= i < |Pages| ensures Pages[i].View() == after[i] {
        if i != k {
          assert Pages[i].EmbeddingVector != v;
        }
      }
    }

    /** `page.EmbeddingVector = new(model, vector)` for the page at position `k`. */
    method ReplaceEmbedding(page: Page, ghost k: nat, model: string, vector: seq<real>)
      requires Valid() && k < |Pages| && Pages[k] == page
      modifies page`EmbeddingVector
      ensures Valid()
      ensures View() == WithEmbedding(old(View()), k, EmbeddingView(model, vector))
      ensures Pages == old(Pages)
      ensures fresh(page.EmbeddingVector)
    {
      ghost var after := WithEmbedding(View(), k, EmbeddingView(model, vector));
      page.EmbeddingVector := new EmbeddingVector(model, vector);
      forall i | 0 <= i < |Pages| ensures Pages[i].View() == after[i] {
        if i != k {
          assert Pages[i] != Pages[k];
        }
      }
    }
  }

  /** The footprint holds the document, its pages and their vectors. */
  lemma FootprintCovers(document: Document)
    ensures document in document.Footprint()
    ensures forall q :: q in document.Pages ==> q in document.Footprint()
    ensures forall q :: q in document.Pages && q.EmbeddingVector != null ==> q.EmbeddingVector in document.Footprint()
  {
    forall q | q in document.Pages && q.EmbeddingVector != null
      ensures q.EmbeddingVector in document.Footprint()
    {
      assert q.EmbeddingVector in Vectors(document.Pages);
    }
  }

  /**
   * The pages past the prefix `pages` whose views carry no embedding have no
   * vector object, so an embedding step may give them one.
   */
  lemma BareFromView(document: Document, pages: seq<Page>)
    requires pages <= document.Pages
    requires forall i :: |pages| <= i < |document.Pages| ==> document.View()[i].embedding.None?
    ensures document.BareBeyond(pages)
  {
    forall p | p in document.Pages && p !in pages ensures p.EmbeddingVector == null {
      var i :| 0 <= i < |document.Pages| && document.Pages[i] == p;
      assert document.View()[i] == p.View();
    }
  }

  /** The views with one page's overview replaced. */
  function WithOverview(views: seq<PageView>, k: nat, overview: Option<string>): (r: seq<PageView>)
    requires k < |views|
    ensures |r| == |views| && r[k].overview == overview
    ensures r[k] == views[k].(overview := overview)
    ensures forall i :: 0 <= i < |views| && i != k ==> r[i] == views[i]
  {
    views[k := views[k].(overview := overview)]
  }

  /** The views with one page's image replaced. */
  function WithImage(views: seq<PageView>, k: nat, image: Option<BinaryContent>): (r: seq<PageView>)
    requires k < |views|
    ensures |r| == |views| && r[k].image == image
    ensures r[k] == views[k].(image := image)
    ensures forall i :: 0 <= i < |views| && i != k ==> r[i] == views[i]
  {
    views[k := views[k].(image := image)]
  }

  /** The views with one page's embedding replaced. */
  function WithEmbedding(views: seq<PageView>, k: nat, e: EmbeddingView): (r: seq<PageView>)
    requires k < |views|
    ensures |r| == |views| && r[k].embedding == Some(e)
    ensures r[k] == views[k].(embedding := Some(e))
    ensures forall i :: 0 <= i < |views| && i != k ==> r[i] == views[i]
  {
    views[k := views[k].(embedding := Some(e))]
  }

  /** The views with one page's raw text replaced. */
  function WithRawText(views: seq<PageView>, k: nat, text: Option<string>): (r: seq<PageView>)
    requires k < |views|
    ensures |r| == |views| && r[k].rawText == text
    ensures r[k] == views[k].(rawText := text)
    ensures forall i :: 0 <= i < |views| && i != k ==> r[i] == views[i]
  {
    views[k := views[k].(rawText := text)]
  }

  /** A page made by the indexer has `DocumentId` "", never the owning document's id. */
  lemma IndexedPageHasEmptyDocumentId(views: seq<PageView>, n: int)
    requires n !in ViewNumbers(views)
    ensures IndexPages(views, n).0[|views|].documentId == ""
    ensures IndexPages(views, n).0[|views|].rawText.None?
  {
  }
}
