/**
 * `PdfExtractor.ExtractPaginatedTextAsync`: the requested page numbers that
 * exist in the PDF are visited in ascending order, and each is mapped to the
 * text extracted from that page, or to an error message when extraction
 * throws. The parsed PDF is given as its page count and a per-page extractor,
 * where `None` stands for an exception raised while reading the page.
 */
module PdfExtractor {

  import opened Wrappers
  import opened Common
  import opened Sorting

  /**
   * A `Dictionary<int, string>` in its enumeration order. Entries are never
   * removed, so the order is the order in which keys were first inserted.
   */
  type Entries = seq<(int, string)>

  /** Some entry has the key. */
  predicate HasKey(e: Entries, key: int)
  {
    exists k :: 0 <= k < |e| && e[k].0 == key
  }

  /** The keys strictly increase along the entries: ascending and without repetition. */
  predicate Ascending(e: Entries)
  {
    forall i, j :: 0 <= i < j < |e| ==> e[i].0 < e[j].0
  }

  /** The position of the first entry with the key. */
  function FindKey(e: Entries, key: int): (r: Option<nat>)
    ensures r.Some? ==> r.value < |e| && e[r.value].0 == key
    ensures r.Some? ==> forall k :: 0 <= k < r.value ==> e[k].0 != key
    ensures r.None? <==> !HasKey(e, key)
  {
    if e == [] then None
    else if e[0].0 == key then Some(0)
    else match FindKey(e[1..], key)
      case None =>
        assert forall k :: 1 <= k < |e| ==> e[k] == e[1..][k - 1];
        None
      case Some(k) => Some(k + 1)
  }

  /**
   * `dictionary[key] = value`: an existing key keeps its place and gets the
   * new value; a new key is added at the end.
   */
  function Put(e: Entries, key: int, value: string): (r: Entries)
    ensures !HasKey(e, key) ==> r == e + [(key, value)]
    ensures HasKey(e, key) ==> |r| == |e| && forall k :: 0 <= k < |e| && e[k].0 != key ==> r[k] == e[k]
    ensures match FindKey(r, key) case Some(k) => r[k].1 == value case None => false
  {
    match FindKey(e, key)
    case Some(k) =>
      var r := e[k := (key, value)];
      assert r[k].0 == key;
      assert forall j :: 0 <= j < k ==> r[j].0 != key;
      r
    case None =>
      var r := e + [(key, value)];
      assert r[|e|].0 == key;
      assert forall j :: 0 <= j < |e| ==> r[j].0 != key;
      r
  }

  /** The message stored for a page whose extraction throws. */
  function ErrorText(pageNumber: int): string
  {
    "Error extracting text from page " + IntToString(pageNumber)
  }

  /** What the dictionary holds for one page: the extracted text, or the error message. */
  function PageText(extract: int -> Option<string>, pageNumber: int): string
  {
    match extract(pageNumber)
    case Some(text) => text
    case None => ErrorText(pageNumber)
  }

  /** The `Where` filter: the requested numbers of existing pages, in request order. */
  function InRange(requested: seq<int>, pageCount: int): (r: seq<int>)
    ensures forall n :: n in r <==> n in requested && 0 < n <= pageCount
  {
    if requested == [] then []
    else
      var rest := InRange(requested[1..], pageCount);
      assert forall n :: n in requested <==> n == requested[0] || n in requested[1..];
      (if 0 < requested[0] <= pageCount then [requested[0]] else []) + rest
  }

  /**
   * The page numbers in the order they are visited: the kept numbers sorted
   * by `OrderBy(p => p)`, duplicates included.
   */
  function Visited(requested: seq<int>, pageCount: int): (r: seq<int>)
    ensures forall n :: n in r <==> n in requested && 0 < n <= pageCount
    ensures forall i, j :: 0 <= i < j < |r| ==> r[i] <= r[j]
  {
    var kept := InRange(requested, pageCount);
    var r := SortByKey(kept, n => n);
    assert forall n :: n in r <==> n in multiset(r);
    assert forall n :: n in kept <==> n in multiset(kept);
    r
  }

  /** The entries after visiting the first `i` page numbers. */
  ghost predicate ExtractedUpTo(texts: Entries, pages: seq<int>, i: nat, extract: int -> Option<string>)
    requires i <= |pages|
  {
    && Ascending(texts)
    && (forall n :: HasKey(texts, n) <==> n in pages[..i])
    && (i > 0 ==> |texts| > 0 && texts[|texts| - 1].0 == pages[i - 1])
    && (forall k :: 0 <= k < |texts| ==> texts[k].1 == PageText(extract, texts[k].0))
  }

  /** Overwriting the value of an entry keeps the set of keys. */
  lemma HasKeyAfterReplace(e: Entries, k: nat, value: string, m: int)
    requires k < |e|
    ensures HasKey(e[k := (e[k].0, value)], m) <==> HasKey(e, m)
  {
    var r := e[k := (e[k].0, value)];
    if HasKey(e, m) {
      var j :| 0 <= j < |e| && e[j].0 == m;
      assert r[j].0 == m;
    }
    if HasKey(r, m) {
      var j :| 0 <= j < |r| && r[j].0 == m;
      assert e[j].0 == m;
    }
  }

  /** Appending an entry adds its key. */
  lemma HasKeyAfterAppend(e: Entries, key: int, value: string, m: int)
    ensures HasKey(e + [(key, value)], m) <==> HasKey(e, m) || m == key
  {
    var r := e + [(key, value)];
    if HasKey(e, m) {
      var j :| 0 <= j < |e| && e[j].0 == m;
      assert r[j].0 == m;
    }
    if HasKey(r, m) && m != key {
      var j :| 0 <= j < |r| && r[j].0 == m;
      assert e[j].0 == m;
    }
    if m == key {
      assert r[|e|].0 == key;
    }
  }

  /** Visiting a number equal to the last one visited overwrites the last entry. */
  lemma ExtractRepeat(texts: Entries, pages: seq<int>, i: nat, extract: int -> Option<string>)
    requires 0 < i < |pages|
    requires ExtractedUpTo(texts, pages, i, extract)
    requires texts[|texts| - 1].0 == pages[i]
    ensures ExtractedUpTo(Put(texts, pages[i], PageText(extract, pages[i])), pages, i + 1, extract)
  {
    var n := pages[i];
    var v := PageText(extract, n);
    var last := |texts| - 1;
    assert FindKey(texts, n) == Some(last);
    var after := Put(texts, n, v);
    assert after == texts[last := (texts[last].0, v)];
    assert pages[..i + 1] == pages[..i] + [n];
    forall m ensures HasKey(after, m) <==> m in pages[..i + 1] {
      HasKeyAfterReplace(texts, last, v, m);
    }
  }

  /** Visiting a number above every visited one appends an entry for it. */
  lemma ExtractNew(texts: Entries, pages: seq<int>, i: nat, extract: int -> Option<string>)
    requires i < |pages|
    requires ExtractedUpTo(texts, pages, i, extract)
    requires forall k :: 0 <= k < |texts| ==> texts[k].0 < pages[i]
    ensures ExtractedUpTo(Put(texts, pages[i], PageText(extract, pages[i])), pages, i + 1, extract)
  {
    var n := pages[i];
    var v := PageText(extract, n);
    assert FindKey(texts, n).None?;
    var after := Put(texts, n, v);
    assert after == texts + [(n, v)];
    assert pages[..i + 1] == pages[..i] + [n];
    forall m ensures HasKey(after, m) <==> m in pages[..i + 1] {
      HasKeyAfterAppend(texts, n, v, m);
    }
  }

  /** Visiting the next number of a sorted sequence keeps the entries ascending and complete. */
  lemma ExtractStep(texts: Entries, requested: seq<int>, pageCount: int, i: nat, extract: int -> Option<string>)
    requires i < |Visited(requested, pageCount)|
    requires ExtractedUpTo(texts, Visited(requested, pageCount), i, extract)
    ensures var pages := Visited(requested, pageCount);
      ExtractedUpTo(Put(texts, pages[i], PageText(extract, pages[i])), pages, i + 1, extract)
  {
    var pages := Visited(requested, pageCount);
    var n := pages[i];
    if i > 0 && texts[|texts| - 1].0 == n {
      ExtractRepeat(texts, pages, i, extract);
    } else {
      forall k | 0 <= k < |texts| ensures texts[k].0 < n {
        assert HasKey(texts, texts[k].0);
        var m :| 0 <= m < i && pages[..i][m] == texts[k].0;
        assert pages[m] <= pages[i - 1] <= n;
        assert texts[k].0 <= texts[|texts| - 1].0;
      }
      ExtractNew(texts, pages, i, extract);
    }
  }

  /** Once every number is visited, the entries cover exactly the kept page numbers. */
  lemma ExtractDone(texts: Entries, requested: seq<int>, pageCount: int, extract: int -> Option<string>)
    requires ExtractedUpTo(texts, Visited(requested, pageCount), |Visited(requested, pageCount)|, extract)
    ensures Ascending(texts)
    ensures forall n :: HasKey(texts, n) <==> n in requested && 0 < n <= pageCount
    ensures forall i :: 0 <= i < |texts| ==> texts[i].1 == PageText(extract, texts[i].0)
  {
    var pages := Visited(requested, pageCount);
    assert pages[..|pages|] == pages;
  }

  /**
   * `ExtractPaginatedTextAsync`: exactly one entry per distinct requested
   * number between 1 and the page count, in ascending order, holding the
   * page's text or the error message.
   */
  method ExtractPaginatedText(pageCount: int, requested: seq<int>, extract: int -> Option<string>)
    returns (texts: Entries)
    ensures Ascending(texts)
    ensures forall n :: HasKey(texts, n) <==> n in requested && 0 < n <= pageCount
    ensures forall i :: 0 <= i < |texts| ==> texts[i].1 == PageText(extract, texts[i].0)
  {
    var pages := Visited(requested, pageCount);
    texts := [];
    var i := 0;
    while i < |pages|
      invariant 0 <= i <= |pages|
      invariant ExtractedUpTo(texts, pages, i, extract)
    {
      var pageNumber := pages[i];
      var text := if extract(pageNumber).Some? then extract(pageNumber).value else ErrorText(pageNumber);
      ExtractStep(texts, requested, pageCount, i, extract);
      texts := Put(texts, pageNumber, text);
      i := i + 1;
    }
    ExtractDone(texts, requested, pageCount, extract);
  }

  /** `Enumerable.Range(start, count)`. */
  function Range(start: int, count: nat): (r: seq<int>)
    ensures |r| == count
    ensures forall i :: 0 <= i < count ==> r[i] == start + i
    ensures forall n :: n in r <==> start <= n < start + count
  {
    var r := seq(count, i => start + i);
    assert forall n :: start <= n < start + count ==> n in r by {
      forall n | start <= n < start + count ensures n in r {
        assert r[n - start] == n;
      }
    }
    r
  }

  /** The entries for pages 1 to `count`, in order. */
  function AllPageTexts(count: nat, extract: int -> Option<string>): (r: Entries)
    ensures |r| == count && Ascending(r)
    ensures forall i :: 0 <= i < count ==> r[i] == (i + 1, PageText(extract, i + 1))
  {
    seq(count, i => (i + 1, PageText(extract, i + 1)))
  }

  /** Ascending entries whose keys are exactly 1..count hold key `i + 1` at position `i`. */
  lemma {:induction false} AscendingKeysArePositions(e: Entries, count: nat, i: nat)
    requires Ascending(e) && i < |e|
    requires forall n :: HasKey(e, n) <==> 0 < n <= count
    ensures e[i].0 == i + 1
  {
    assert HasKey(e, e[i].0);
    if i == 0 {
      assert HasKey(e, 1);
      var m :| 0 <= m < |e| && e[m].0 == 1;
    } else {
      AscendingKeysArePositions(e, count, i - 1);
      assert e[i].0 > i;
      assert HasKey(e, i + 1);
      var m :| 0 <= m < |e| && e[m].0 == i + 1;
      assert m >= i;
    }
  }

  /**
   * Asking for every page of the PDF yields exactly one entry per page, in
   * page order: the result of `ExtractPaginatedText` is determined.
   */
  lemma ExtractedAllPages(texts: Entries, count: nat, extract: int -> Option<string>)
    requires Ascending(texts)
    requires forall n :: HasKey(texts, n) <==> n in Range(1, count) && 0 < n <= count
    requires forall i :: 0 <= i < |texts| ==> texts[i].1 == PageText(extract, texts[i].0)
    ensures texts == AllPageTexts(count, extract)
  {
    forall i | 0 <= i < |texts| ensures texts[i].0 == i + 1 {
      AscendingKeysArePositions(texts, count, i);
    }
    if count > 0 {
      assert HasKey(texts, count);
    }
    if |texts| > 0 {
      assert HasKey(texts, texts[|texts| - 1].0);
    }
  }
}
