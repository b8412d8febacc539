/**
 * Table-of-contents generation after a workflow has been loaded.
 *
 * The retrieval settings that ask for an auto-detected table of contents are
 * collected from the child workflows (ordered by `Order`) and their blocks
 * (ordered by `Order`). A document is selected when one of those settings'
 * blocks accepts its class; the model for a document link is the first
 * usable one among those settings; generation then runs document after
 * document and stops at the first document without a model.
 */
module TocGeneration {

  import opened Wrappers
  import opened Common
  import opened Sorting
  import opened Documents
  import opened Workflows
  import opened DocumentInfos
  import opened ExternalCalls

  /** The exception both scans raise on reaching a retrieval setting without a block. */
  const BlockIsNull: Error := InvalidOperation("Block is null.")

  // ---------------------------------------------------------------------
  // The ordered list of auto-detected table-of-contents settings
  // ---------------------------------------------------------------------

  /** What the ordering reads of a retrieval setting: the object and its type. */
  datatype RagEntry = RagEntry(rag: RagSettings, ragType: RagType)

  /** What the ordering reads of a block: its order and its settings. */
  datatype BlockEntry = BlockEntry(order: int, rags: seq<RagEntry>)

  /** What the ordering reads of a child workflow: its order and its blocks. */
  datatype ChildEntry = ChildEntry(order: int, blocks: seq<BlockEntry>)

  function RagEntries(rs: seq<RagSettings>): (r: seq<RagEntry>)
    reads (set x | x in rs)`Type
    ensures |r| == |rs|
    ensures forall i :: 0 <= i < |rs| ==> r[i] == RagEntry(rs[i], rs[i].Type)
  {
    if rs == [] then [] else RagEntries(rs[..|rs| - 1]) + [RagEntry(rs[|rs| - 1], rs[|rs| - 1].Type)]
  }

  function BlockEntries(bs: seq<Block>): (r: seq<BlockEntry>)
    reads (set b | b in bs)`Order, (set b | b in bs)`RagSettings, (set b, r | b in bs && r in b.RagSettings :: r)`Type
    ensures |r| == |bs|
    ensures forall i :: 0 <= i < |bs| ==> r[i].order == bs[i].Order
  {
    if bs == [] then []
    else
      var last := bs[|bs| - 1];
      assert forall b :: b in bs[..|bs| - 1] ==> b in bs;
      BlockEntries(bs[..|bs| - 1]) + [BlockEntry(last.Order, RagEntries(last.RagSettings))]
  }

  /** The configuration of the given child workflows, child by child, as values. */
  function ChildEntries(ws: seq<Workflow>): (r: seq<ChildEntry>)
    reads (set w | w in ws)`Order, (set w | w in ws)`Blocks, (set w, b | w in ws && b in w.Blocks :: b)`Order
    reads (set w, b | w in ws && b in w.Blocks :: b)`RagSettings
    reads (set w, b, r | w in ws && b in w.Blocks && r in b.RagSettings :: r)`Type
    ensures |r| == |ws|
  {
    if ws == [] then []
    else
      var last := ws[|ws| - 1];
      assert forall w :: w in ws[..|ws| - 1] ==> w in ws;
      ChildEntries(ws[..|ws| - 1]) + [ChildEntry(last.Order, BlockEntries(last.Blocks))]
  }

  function ChildOrder(c: ChildEntry): int
  {
    c.order
  }

  function BlockOrder(b: BlockEntry): int
  {
    b.order
  }

  /** The settings of blocks taken in the given order. */
  function RagsOfBlockEntries(bs: seq<BlockEntry>): seq<RagEntry>
  {
    if bs == [] then [] else bs[0].rags + RagsOfBlockEntries(bs[1..])
  }

  /**
   * `Children.OrderBy(c => c.Order).SelectMany(c => c.Blocks.OrderBy(b => b.Order)).SelectMany(b => b.RagSettings)`:
   * children in ascending order and, within a child, blocks in ascending
   * order; `OrderBy` is stable, so equal orders keep their positions.
   */
  function OrderedRags(children: seq<ChildEntry>): seq<RagEntry>
  {
    var sorted := SortByKey(children, ChildOrder);
    OrderedRagsOfSorted(sorted)
  }

  function OrderedRagsOfSorted(children: seq<ChildEntry>): seq<RagEntry>
  {
    if children == [] then []
    else RagsOfBlockEntries(SortByKey(children[0].blocks, BlockOrder)) + OrderedRagsOfSorted(children[1..])
  }

  /** `Where(r => r.Type == RagType.UseAutoDetectedTableOfContents)`, keeping the order. */
  function AutoTocOnly(entries: seq<RagEntry>): (r: seq<RagSettings>)
  {
    if entries == [] then []
    else (if entries[0].ragType == UseAutoDetectedTableOfContents then [entries[0].rag] else []) + AutoTocOnly(entries[1..])
  }

  /** The retrieval settings `GenerateTocsAsync` works with, in order. */
  function AutoTocRags(w: Workflow): seq<RagSettings>
    reads (set c | c in w.Children)`Order, (set c | c in w.Children)`Blocks, (set c, b | c in w.Children && b in c.Blocks :: b)`Order
    reads (set c, b | c in w.Children && b in c.Blocks :: b)`RagSettings
    reads (set c, b, r | c in w.Children && b in c.Blocks && r in b.RagSettings :: r)`Type
  {
    AutoTocOnly(OrderedRags(ChildEntries(w.Children)))
  }

  // Membership through the pure stages.

  lemma {:induction false} RagsOfBlockEntriesMembers(bs: seq<BlockEntry>, e: RagEntry)
    ensures e in RagsOfBlockEntries(bs) <==> exists b :: b in bs && e in b.rags
  {
    if bs != [] {
      RagsOfBlockEntriesMembers(bs[1..], e);
      assert forall b :: b in bs ==> b == bs[0] || b in bs[1..];
      assert forall b :: b in bs[1..] ==> b in bs;
    }
  }

  lemma SortedMembers<T>(s: seq<T>, key: T -> int, x: T)
    ensures x in SortByKey(s, key) <==> x in s
  {
    var t := SortByKey(s, key);
    assert multiset(t) == multiset(s);
    assert x in t <==> x in multiset(t);
  }

  /** Some block of the child holds the entry. */
  ghost predicate InChild(c: ChildEntry, e: RagEntry)
  {
    exists b :: b in c.blocks && e in b.rags
  }

  lemma ChildRagsMembers(c: ChildEntry, e: RagEntry)
    ensures e in RagsOfBlockEntries(SortByKey(c.blocks, BlockOrder)) <==> InChild(c, e)
  {
    var sorted := SortByKey(c.blocks, BlockOrder);
    RagsOfBlockEntriesMembers(sorted, e);
    if b :| b in sorted && e in b.rags {
      SortedMembers(c.blocks, BlockOrder, b);
    }
    if b :| b in c.blocks && e in b.rags {
      SortedMembers(c.blocks, BlockOrder, b);
    }
  }

  lemma {:induction false} OrderedRagsOfSortedMembers(children: seq<ChildEntry>, e: RagEntry)
    ensures e in OrderedRagsOfSorted(children) <==> exists c :: c in children && InChild(c, e)
  {
    if children != [] {
      ChildRagsMembers(children[0], e);
      OrderedRagsOfSortedMembers(children[1..], e);
      assert forall c :: c in children ==> c == children[0] || c in children[1..];
      assert forall c :: c in children[1..] ==> c in children;
    }
  }

  lemma OrderedRagsMembers(children: seq<ChildEntry>, e: RagEntry)
    ensures e in OrderedRags(children) <==> exists c :: c in children && InChild(c, e)
  {
    var sorted := SortByKey(children, ChildOrder);
    OrderedRagsOfSortedMembers(sorted, e);
    if c :| c in sorted && InChild(c, e) {
      SortedMembers(children, ChildOrder, c);
    }
    if c :| c in children && InChild(c, e) {
      SortedMembers(children, ChildOrder, c);
    }
  }

  lemma {:induction false} AutoTocOnlyMembers(entries: seq<RagEntry>, r: RagSettings)
    ensures r in AutoTocOnly(entries) <==> RagEntry(r, UseAutoDetectedTableOfContents) in entries
  {
    if entries != [] {
      AutoTocOnlyMembers(entries[1..], r);
      assert forall e :: e in entries ==> e == entries[0] || e in entries[1..];
      assert forall e :: e in entries[1..] ==> e in entries;
    }
  }

  // Membership through the snapshot.

  lemma {:induction false} RagEntriesMembers(rs: seq<RagSettings>, e: RagEntry)
    ensures e in RagEntries(rs) <==> e.rag in rs && e.ragType == e.rag.Type
  {
    var es := RagEntries(rs);
    if e.rag in rs && e.ragType == e.rag.Type {
      var i :| 0 <= i < |rs| && rs[i] == e.rag;
      assert es[i] == e;
    }
  }

  lemma BlockEntriesMembers(bs: seq<Block>, e: RagEntry)
    ensures (exists b :: b in BlockEntries(bs) && e in b.rags) <==>
              e.ragType == e.rag.Type && exists b :: b in bs && e.rag in b.RagSettings
  {
    var es := BlockEntries(bs);
    assert forall i :: 0 <= i < |bs| ==> es[i] == BlockEntry(bs[i].Order, RagEntries(bs[i].RagSettings)) by {
      forall i | 0 <= i < |bs| ensures es[i] == BlockEntry(bs[i].Order, RagEntries(bs[i].RagSettings)) {
        BlockEntriesAt(bs, i);
      }
    }
    if b :| b in es && e in b.rags {
      var i :| 0 <= i < |es| && es[i] == b;
      RagEntriesMembers(bs[i].RagSettings, e);
    }
    if e.ragType == e.rag.Type && exists b :: b in bs && e.rag in b.RagSettings {
      var b :| b in bs && e.rag in b.RagSettings;
      var i :| 0 <= i < |bs| && bs[i] == b;
      RagEntriesMembers(bs[i].RagSettings, e);
      assert es[i] in es;
    }
  }

  lemma {:induction false} BlockEntriesAt(bs: seq<Block>, i: nat)
    requires i < |bs|
    ensures BlockEntries(bs)[i] == BlockEntry(bs[i].Order, RagEntries(bs[i].RagSettings))
    decreases |bs|
  {
    if i < |bs| - 1 {
      BlockEntriesAt(bs[..|bs| - 1], i);
    }
  }

  lemma {:induction false} ChildEntriesAt(ws: seq<Workflow>, i: nat)
    requires i < |ws|
    ensures ChildEntries(ws)[i] == ChildEntry(ws[i].Order, BlockEntries(ws[i].Blocks))
    decreases |ws|
  {
    if i < |ws| - 1 {
      ChildEntriesAt(ws[..|ws| - 1], i);
    }
  }

  /**
   * The list holds exactly the auto-detected table-of-contents settings of
   * the blocks of the direct children; deeper workflows and the workflow's
   * own blocks are not searched.
   */
  lemma AutoTocRagsMembers(w: Workflow, r: RagSettings)
    ensures r in AutoTocRags(w) <==>
      && r.Type == UseAutoDetectedTableOfContents
      && exists c, b :: c in w.Children && b in c.Blocks && r in b.RagSettings
  {
    var cs := ChildEntries(w.Children);
    var e := RagEntry(r, UseAutoDetectedTableOfContents);
    AutoTocOnlyMembers(OrderedRags(cs), r);
    OrderedRagsMembers(cs, e);
    if ce :| ce in cs && InChild(ce, e) {
      var i :| 0 <= i < |cs| && cs[i] == ce;
      ChildEntriesAt(w.Children, i);
      BlockEntriesMembers(w.Children[i].Blocks, e);
    }
    if r.Type == UseAutoDetectedTableOfContents && exists c, b :: c in w.Children && b in c.Blocks && r in b.RagSettings {
      var c, b :| c in w.Children && b in c.Blocks && r in b.RagSettings;
      var i :| 0 <= i < |w.Children| && w.Children[i] == c;
      ChildEntriesAt(w.Children, i);
      BlockEntriesMembers(c.Blocks, e);
      assert cs[i] in cs;
    }
  }
  /** Every setting of the list belongs to a block of a direct child. */
  lemma AutoTocRagsInChildren(w: Workflow)
    ensures forall r :: r in AutoTocRags(w) ==> r in (set c, b, r | c in w.Children && b in c.Blocks && r in b.RagSettings :: r)
  {
    forall r | r in AutoTocRags(w)
      ensures r in (set c, b, r | c in w.Children && b in c.Blocks && r in b.RagSettings :: r)
    {
      AutoTocRagsMembers(w, r);
    }
  }

  // ---------------------------------------------------------------------
  // The settings as values, and the two scans over them
  // ---------------------------------------------------------------------

  /** What the scans read of a retrieval setting: its block's classes (`None` for a null block) and its model. */
  datatype TocRag = TocRag(classes: Option<seq<string>>, model: Option<string>)

  function RagViews(rags: seq<RagSettings>): (r: seq<TocRag>)
    reads (set r | r in rags)`Block, (set r | r in rags)`TableOfContentsInput
    reads (set r | r in rags && r.Block != null :: r.Block)`SupportedDocumentClasses
    ensures |r| == |rags|
    ensures forall i :: 0 <= i < |rags| ==>
              r[i] == TocRag(if rags[i].Block == null then None else Some(rags[i].Block.SupportedDocumentClasses),
                             rags[i].TableOfContentsInput)
  {
    if rags == [] then []
    else
      var last := rags[|rags| - 1];
      assert forall r :: r in rags[..|rags| - 1] ==> r in rags;
      assert last in rags;
      RagViews(rags[..|rags| - 1])
        + [TocRag(if last.Block == null then None else Some(last.Block.SupportedDocumentClasses), last.TableOfContentsInput)]
  }

  /**
   * The inner loop of `SelectDocumentsForToc`: `Ok(true)` at the first
   * setting whose block accepts the class, the exception at a setting
   * without a block reached before it, `Ok(false)` when none accepts.
   */
  function AcceptingRag(documentClass: string, rags: seq<TocRag>): Result<bool>
  {
    if rags == [] then Ok(false)
    else match rags[0].classes
      case None => Err(BlockIsNull)
      case Some(classes) =>
        if Eligible(classes, documentClass) then Ok(true) else AcceptingRag(documentClass, rags[1..])
  }

  /** `SelectDocumentsForToc` from the `i`-th link on, after selecting `selected`. */
  function SelectFrom(infos: seq<DocumentInfo>, rags: seq<TocRag>, i: nat, selected: seq<Document>): (r: Result<seq<Document>>)
    requires i <= |infos|
    ensures r.Ok? ==> forall d :: d in r.value ==> d in selected || exists k :: i <= k < |infos| && infos[k].Document == d
    decreases |infos| - i
  {
    if i == |infos| then Ok(selected)
    else
      var info := infos[i];
      if info.Document == null then SelectFrom(infos, rags, i + 1, selected)
      else match AcceptingRag(info.DocumentClass, rags)
        case Err(e) => Err(e)
        case Ok(found) =>
          SelectFrom(infos, rags, i + 1, if found then selected + [info.Document] else selected)
  }

  function SelectForToc(infos: seq<DocumentInfo>, rags: seq<TocRag>): Result<seq<Document>>
  {
    SelectFrom(infos, rags, 0, [])
  }

  /** A setting's block accepts the class. */
  predicate AcceptedBySome(documentClass: string, rags: seq<TocRag>)
  {
    exists r :: r in rags && r.classes.Some? && Eligible(r.classes.value, documentClass)
  }

  /** The present documents of the links from the `i`-th on that some setting accepts, in order. */
  function Accepted(infos: seq<DocumentInfo>, rags: seq<TocRag>, i: nat): seq<Document>
    requires i <= |infos|
    decreases |infos| - i
  {
    if i == |infos| then []
    else if infos[i].Document != null && AcceptedBySome(infos[i].DocumentClass, rags) then
      [infos[i].Document as Document] + Accepted(infos, rags, i + 1)
    else Accepted(infos, rags, i + 1)
  }

  lemma {:induction false} AcceptingRagWithBlocks(documentClass: string, rags: seq<TocRag>)
    requires forall r :: r in rags ==> r.classes.Some?
    ensures AcceptingRag(documentClass, rags) == Ok(AcceptedBySome(documentClass, rags))
  {
    if rags != [] {
      assert forall r :: r in rags[1..] ==> r in rags;
      AcceptingRagWithBlocks(documentClass, rags[1..]);
      assert forall r :: r in rags ==> r == rags[0] || r in rags[1..];
    }
  }

  lemma {:induction false} AcceptingRagFailsOnlyAtNullBlock(documentClass: string, rags: seq<TocRag>)
    ensures AcceptingRag(documentClass, rags).Err? ==>
              AcceptingRag(documentClass, rags).error == BlockIsNull && exists r :: r in rags && r.classes.None?
  {
    if rags != [] && rags[0].classes.Some? {
      AcceptingRagFailsOnlyAtNullBlock(documentClass, rags[1..]);
      assert forall r :: r in rags[1..] ==> r in rags;
    }
  }

  /**
   * When every setting has a block, the selection never fails and is
   * exactly the present documents some setting's block accepts, in the
   * order of the links.
   */
  lemma {:induction false} SelectFromIsFilter(infos: seq<DocumentInfo>, rags: seq<TocRag>, i: nat, selected: seq<Document>)
    requires i <= |infos|
    requires forall r :: r in rags ==> r.classes.Some?
    ensures SelectFrom(infos, rags, i, selected) == Ok(selected + Accepted(infos, rags, i))
    decreases |infos| - i
  {
    if i < |infos| {
      var info := infos[i];
      if info.Document != null {
        AcceptingRagWithBlocks(info.DocumentClass, rags);
        if AcceptedBySome(info.DocumentClass, rags) {
          SelectFromIsFilter(infos, rags, i + 1, selected + [info.Document]);
          assert selected + [info.Document] + Accepted(infos, rags, i + 1)
              == selected + ([info.Document as Document] + Accepted(infos, rags, i + 1));
        } else {
          SelectFromIsFilter(infos, rags, i + 1, selected);
        }
      } else {
        SelectFromIsFilter(infos, rags, i + 1, selected);
      }
    } else {
      assert selected + [] == selected;
    }
  }

  lemma SelectForTocIsFilter(infos: seq<DocumentInfo>, rags: seq<TocRag>)
    requires forall r :: r in rags ==> r.classes.Some?
    ensures SelectForToc(infos, rags) == Ok(Accepted(infos, rags, 0))
  {
    SelectFromIsFilter(infos, rags, 0, []);
    assert [] + Accepted(infos, rags, 0) == Accepted(infos, rags, 0);
  }

  /** The selection raises only "Block is null.", and only when some setting has no block. */
  lemma {:induction false} SelectFromFailsOnlyAtNullBlock(infos: seq<DocumentInfo>, rags: seq<TocRag>, i: nat, selected: seq<Document>)
    requires i <= |infos|
    ensures SelectFrom(infos, rags, i, selected).Err? ==>
              SelectFrom(infos, rags, i, selected).error == BlockIsNull && exists r :: r in rags && r.classes.None?
    decreases |infos| - i
  {
    if i < |infos| {
      var info := infos[i];
      if info.Document != null {
        AcceptingRagFailsOnlyAtNullBlock(info.DocumentClass, rags);
        var found := AcceptingRag(info.DocumentClass, rags);
        if found.Ok? {
          SelectFromFailsOnlyAtNullBlock(infos, rags, i + 1, if found.value then selected + [info.Document] else selected);
        }
      } else {
        SelectFromFailsOnlyAtNullBlock(infos, rags, i + 1, selected);
      }
    }
  }

  /**
   * The inner loop of `GetTocModelsMap`: the model of the first setting
   * whose block accepts the class and whose model is neither null nor
   * empty, the exception at a setting without a block reached before it,
   * and `Ok(None)` when there is no such setting.
   */
  function UsableModel(documentClass: string, rags: seq<TocRag>): (r: Result<Option<string>>)
    ensures r.Ok? && r.value.Some? ==> r.value.value != ""
  {
    if rags == [] then Ok(None)
    else match rags[0].classes
      case None => Err(BlockIsNull)
      case Some(classes) =>
        if !Eligible(classes, documentClass) || IsNullOrEmpty(rags[0].model) then UsableModel(documentClass, rags[1..])
        else Ok(rags[0].model)
  }

  /** `GetTocModelsMap` from the `i`-th link on, with the map built so far. */
  function ModelsFrom(infos: seq<DocumentInfo>, rags: seq<TocRag>, i: nat, models: map<string, string>): Result<map<string, string>>
    requires i <= |infos|
    decreases |infos| - i
  {
    if i == |infos| then Ok(models)
    else match UsableModel(infos[i].DocumentClass, rags)
      case Err(e) => Err(e)
      case Ok(None) => ModelsFrom(infos, rags, i + 1, models)
      case Ok(Some(model)) => ModelsFrom(infos, rags, i + 1, models[infos[i].DocumentId := model])
  }

  function TocModels(infos: seq<DocumentInfo>, rags: seq<TocRag>): Result<map<string, string>>
  {
    ModelsFrom(infos, rags, 0, map[])
  }

  /** The setting has a block that accepts the class, and a model that is neither null nor empty. */
  predicate Usable(rag: TocRag, documentClass: string)
  {
    rag.classes.Some? && Eligible(rag.classes.value, documentClass) && !IsNullOrEmpty(rag.model)
  }

  /** Every setting before the `k`-th has a block and is not usable for the class. */
  predicate PassedOver(documentClass: string, rags: seq<TocRag>, k: int)
    requires k <= |rags|
  {
    forall j :: 0 <= j < k ==> rags[j].classes.Some? && !Usable(rags[j], documentClass)
  }

  /**
   * The model a link gets is that of the first usable setting, provided no
   * setting without a block comes before it; with every setting passed over,
   * there is no model; and the only failure is a setting without a block
   * reached before any usable one.
   */
  lemma {:induction false} UsableModelIsFirst(documentClass: string, rags: seq<TocRag>)
    ensures UsableModel(documentClass, rags).Ok? && UsableModel(documentClass, rags).value.Some? ==>
      exists k :: 0 <= k < |rags| && PassedOver(documentClass, rags, k) && Usable(rags[k], documentClass)
        && rags[k].model == UsableModel(documentClass, rags).value
    ensures UsableModel(documentClass, rags) == Ok(None) <==> PassedOver(documentClass, rags, |rags|)
    ensures UsableModel(documentClass, rags).Err? ==>
      UsableModel(documentClass, rags).error == BlockIsNull &&
      exists k :: 0 <= k < |rags| && PassedOver(documentClass, rags, k) && rags[k].classes.None?
  {
    if rags != [] {
      var tail := rags[1..];
      UsableModelIsFirst(documentClass, tail);
      assert forall j :: 1 <= j < |rags| ==> rags[j] == tail[j - 1];
      if rags[0].classes.Some? && !Usable(rags[0], documentClass) {
        var r := UsableModel(documentClass, tail);
        if r.Ok? && r.value.Some? {
          var k :| 0 <= k < |tail| && PassedOver(documentClass, tail, k) && Usable(tail[k], documentClass) && tail[k].model == r.value;
          assert PassedOver(documentClass, rags, k + 1);
        } else if r.Err? {
          var k :| 0 <= k < |tail| && PassedOver(documentClass, tail, k) && tail[k].classes.None?;
          assert PassedOver(documentClass, rags, k + 1);
        }
        assert PassedOver(documentClass, rags, |rags|) <==> PassedOver(documentClass, tail, |tail|);
      } else {
        assert PassedOver(documentClass, rags, 0);
        assert !PassedOver(documentClass, rags, |rags|);
      }
    }
  }

  /** The link finds a model. */
  predicate HasModel(documentClass: string, rags: seq<TocRag>)
  {
    UsableModel(documentClass, rags).Ok? && UsableModel(documentClass, rags).value.Some?
  }

  /** The link holding the map's entry for `id`: the last link with that id for which a model was found. */
  ghost predicate LastWithModel(infos: seq<DocumentInfo>, rags: seq<TocRag>, id: string, k: int, model: string)
  {
    && 0 <= k < |infos|
    && infos[k].DocumentId == id
    && UsableModel(infos[k].DocumentClass, rags) == Ok(Some(model))
    && forall j :: k < j < |infos| && infos[j].DocumentId == id ==> !HasModel(infos[j].DocumentClass, rags)
  }

  /** The map after the `i`-th link, when that link does not fail. */
  function ModelsStep(infos: seq<DocumentInfo>, rags: seq<TocRag>, i: nat, models: map<string, string>): map<string, string>
    requires i < |infos| && UsableModel(infos[i].DocumentClass, rags).Ok?
  {
    match UsableModel(infos[i].DocumentClass, rags).value
    case None => models
    case Some(model) => models[infos[i].DocumentId := model]
  }

  lemma ModelsFromUnfold(infos: seq<DocumentInfo>, rags: seq<TocRag>, i: nat, models: map<string, string>)
    requires i < |infos| && ModelsFrom(infos, rags, i, models).Ok?
    ensures UsableModel(infos[i].DocumentClass, rags).Ok?
    ensures ModelsFrom(infos, rags, i, models) == ModelsFrom(infos, rags, i + 1, ModelsStep(infos, rags, i, models))
  {
  }

  /** From the `i`-th link on, every new entry comes from a link that found a model. */
  lemma {:induction false} ModelsFromNewEntries(infos: seq<DocumentInfo>, rags: seq<TocRag>, i: nat, models: map<string, string>)
    requires i <= |infos|
    requires ModelsFrom(infos, rags, i, models).Ok?
    ensures var m := ModelsFrom(infos, rags, i, models).value;
      forall id :: id in m ==> id in models || exists k :: i <= k < |infos| && infos[k].DocumentId == id && HasModel(infos[k].DocumentClass, rags)
    decreases |infos| - i
  {
    if i < |infos| {
      ModelsFromUnfold(infos, rags, i, models);
      ModelsFromNewEntries(infos, rags, i + 1, ModelsStep(infos, rags, i, models));
    }
  }

  /** An entry no later link with a model touches keeps its value. */
  lemma {:induction false} ModelsFromKeeps(infos: seq<DocumentInfo>, rags: seq<TocRag>, i: nat, models: map<string, string>, id: string)
    requires i <= |infos|
    requires ModelsFrom(infos, rags, i, models).Ok?
    requires id in models
    requires forall k :: i <= k < |infos| && infos[k].DocumentId == id ==> !HasModel(infos[k].DocumentClass, rags)
    ensures id in ModelsFrom(infos, rags, i, models).value
    ensures ModelsFrom(infos, rags, i, models).value[id] == models[id]
    decreases |infos| - i
  {
    if i < |infos| {
      ModelsFromUnfold(infos, rags, i, models);
      ModelsFromKeeps(infos, rags, i + 1, ModelsStep(infos, rags, i, models), id);
    }
  }

  /** The entry of a link that found a model holds the model of the last link with its identifier that found one. */
  lemma {:induction false} ModelsFromLast(infos: seq<DocumentInfo>, rags: seq<TocRag>, i: nat, models: map<string, string>, k: nat)
    requires i <= k < |infos|
    requires ModelsFrom(infos, rags, i, models).Ok?
    requires HasModel(infos[k].DocumentClass, rags)
    ensures var m := ModelsFrom(infos, rags, i, models).value;
      infos[k].DocumentId in m && exists k2 :: k <= k2 && LastWithModel(infos, rags, infos[k].DocumentId, k2, m[infos[k].DocumentId])
    decreases |infos| - i
  {
    ModelsFromUnfold(infos, rags, i, models);
    var next := ModelsStep(infos, rags, i, models);
    if i < k {
      ModelsFromLast(infos, rags, i + 1, next, k);
    } else {
      var id := infos[i].DocumentId;
      var m := ModelsFrom(infos, rags, i, models).value;
      if k' :| i + 1 <= k' < |infos| && infos[k'].DocumentId == id && HasModel(infos[k'].DocumentClass, rags) {
        ModelsFromLast(infos, rags, i + 1, next, k');
      } else {
        ModelsFromKeeps(infos, rags, i + 1, next, id);
        assert LastWithModel(infos, rags, id, i, m[id]);
      }
    }
  }

  /**
   * The map holds an entry for exactly the identifiers of links that found
   * a model, and each entry is the model of the last such link: a later
   * link with the same identifier overwrites, one without a model does not.
   */
  lemma TocModelsEntries(infos: seq<DocumentInfo>, rags: seq<TocRag>)
    requires TocModels(infos, rags).Ok?
    ensures var m := TocModels(infos, rags).value;
      forall id :: id in m <==> exists k :: 0 <= k < |infos| && infos[k].DocumentId == id && HasModel(infos[k].DocumentClass, rags)
    ensures var m := TocModels(infos, rags).value;
      forall id :: id in m ==> exists k :: LastWithModel(infos, rags, id, k, m[id])
  {
    var m := TocModels(infos, rags).value;
    ModelsFromNewEntries(infos, rags, 0, map[]);
    forall id | id in m ensures exists k :: LastWithModel(infos, rags, id, k, m[id]) {
      var k :| 0 <= k < |infos| && infos[k].DocumentId == id && HasModel(infos[k].DocumentClass, rags);
      ModelsFromLast(infos, rags, 0, map[], k);
    }
    forall k | 0 <= k < |infos| && HasModel(infos[k].DocumentClass, rags) ensures infos[k].DocumentId in m {
      ModelsFromLast(infos, rags, 0, map[], k);
    }
  }

  // ---------------------------------------------------------------------
  // Generation
  // ---------------------------------------------------------------------

  /**
   * The calls of the generation loop: for each document in turn, the
   * generation with its model and then the callback (when there is one),
   * until the first document whose identifier has no model.
   */
  function TocCalls(documents: seq<Document>, models: map<string, string>, notify: bool): seq<Call>
    reads (set d | d in documents)`Name
  {
    if documents == [] || documents[0].Id !in models then []
    else
      [GenerateToc(documents[0], models[documents[0].Id])]
        + (if notify then [DocumentProcessed(documents[0].Name)] else [])
        + TocCalls(documents[1..], models, notify)
  }

  /** How many documents, from the first, have a model. */
  function WithModelsPrefix(documents: seq<Document>, models: map<string, string>): (n: nat)
    ensures n <= |documents|
    ensures forall i :: 0 <= i < n ==> documents[i].Id in models
    ensures n < |documents| ==> documents[n].Id !in models
  {
    if documents == [] || documents[0].Id !in models then 0 else 1 + WithModelsPrefix(documents[1..], models)
  }

  /** The generation calls among the calls, in order, with their documents and models. */
  function Generated(calls: seq<Call>): seq<(Document, string)>
  {
    if calls == [] then []
    else (if calls[0].GenerateToc? then [(calls[0].document, calls[0].model)] else []) + Generated(calls[1..])
  }

  /** How many callback calls there are. */
  function Callbacks(calls: seq<Call>): nat
  {
    if calls == [] then 0 else (if calls[0].DocumentProcessed? then 1 else 0) + Callbacks(calls[1..])
  }

  lemma {:induction false} GeneratedAppend(a: seq<Call>, b: seq<Call>)
    ensures Generated(a + b) == Generated(a) + Generated(b)
    ensures Callbacks(a + b) == Callbacks(a) + Callbacks(b)
  {
    if a != [] {
      GeneratedAppend(a[1..], b);
      assert (a + b)[0] == a[0];
      assert (a + b)[1..] == a[1..] + b;
    } else {
      assert a + b == b;
    }
  }

  /**
   * Generation runs for the documents before the first one without a
   * model, each with its own model, in order; the callback fires once per
   * generated table of contents when there is a callback, and never
   * otherwise.
   */
  lemma {:induction false} TocCallsStopAtFirstMiss(documents: seq<Document>, models: map<string, string>, notify: bool)
    ensures var n := WithModelsPrefix(documents, models);
      Generated(TocCalls(documents, models, notify)) == seq(n, i requires 0 <= i < n => (documents[i], models[documents[i].Id]))
    ensures Callbacks(TocCalls(documents, models, notify)) == if notify then WithModelsPrefix(documents, models) else 0
  {
    if documents != [] && documents[0].Id in models {
      var d := documents[0];
      var head := [GenerateToc(d, models[d.Id])] + (if notify then [DocumentProcessed(d.Name)] else []);
      TocCallsStopAtFirstMiss(documents[1..], models, notify);
      GeneratedAppend(head, TocCalls(documents[1..], models, notify));
      assert Generated(head) == [(d, models[d.Id])] by {
        assert head[0] == GenerateToc(d, models[d.Id]);
        if notify {
          assert head[1..] == [DocumentProcessed(d.Name)];
          assert head[1..][1..] == [];
        } else {
          assert head[1..] == [];
        }
      }
      assert Callbacks(head) == (if notify then 1 else 0) by {
        if notify {
          assert head[1..] == [DocumentProcessed(d.Name)];
          assert head[1..][1..] == [];
        } else {
          assert head[1..] == [];
        }
      }
      var n := WithModelsPrefix(documents, models);
      var rest := seq(n - 1, i requires 0 <= i < n - 1 => (documents[1..][i], models[documents[1..][i].Id]));
      assert seq(n, i requires 0 <= i < n => (documents[i], models[documents[i].Id])) == [(d, models[d.Id])] + rest;
    }
  }

  /** The documents the links refer to. */
  ghost function LinkedDocuments(infos: seq<DocumentInfo>): set<Document>
  {
    set i | i in infos && i.Document != null :: i.Document
  }

  /** `GenerateTocsAsync` on the ordered settings: its completion and its calls. */
  function TocRun(infos: seq<DocumentInfo>, rags: seq<TocRag>, notify: bool): (Outcome, seq<Call>)
    reads (set i | i in infos && i.Document != null :: i.Document)`Name
  {
    match SelectForToc(infos, rags)
    case Err(e) => (Fail(e), [])
    case Ok(documents) =>
      if documents == [] then (Pass, [])
      else match TocModels(infos, rags)
        case Err(e) => (Fail(e), [])
        case Ok(models) =>
          assert forall d :: d in documents ==> d in (set i | i in infos && i.Document != null :: i.Document);
          (Pass, TocCalls(documents, models, notify))
  }

  // ---------------------------------------------------------------------
  // The methods
  // ---------------------------------------------------------------------

  /** The inner loop of `SelectDocumentsForToc`. */
  method FindAcceptingRag(info: DocumentInfo, rags: seq<RagSettings>) returns (r: Result<bool>)
    ensures r == AcceptingRag(info.DocumentClass, RagViews(rags))
  {
    ghost var views := RagViews(rags);
    var j := 0;
    while j < |rags|
      invariant 0 <= j <= |rags|
      invariant AcceptingRag(info.DocumentClass, views[j..]) == AcceptingRag(info.DocumentClass, views)
    {
      assert views[j..][1..] == views[j + 1..];
      var rag := rags[j];
      if rag.Block == null {
        return Err(BlockIsNull);
      }
      if info.CanBeProcessedForBlock(rag.Block) {
        return Ok(true);
      }
      j := j + 1;
    }
    return Ok(false);
  }

  /** The present documents some setting's block accepts, in order, or the "Block is null." exception. */
  method SelectDocumentsForToc(infos: seq<DocumentInfo>, rags: seq<RagSettings>) returns (r: Result<seq<Document>>)
    ensures r == SelectForToc(infos, RagViews(rags))
  {
    ghost var views := RagViews(rags);
    var documents: seq<Document> := [];
    var i := 0;
    while i < |infos|
      invariant 0 <= i <= |infos|
      invariant views == RagViews(rags)
      invariant SelectFrom(infos, views, i, documents) == SelectForToc(infos, views)
    {
      var info := infos[i];
      if info.Document != null {
        var found := FindAcceptingRag(info, rags);
        assert views == RagViews(rags);
        if found.Err? {
          return Err(found.error);
        }
        if found.value {
          documents := documents + [info.Document];
        }
      }
      i := i + 1;
    }
    return Ok(documents);
  }

  /** The inner loop of `GetTocModelsMap`. */
  method FindTocModel(info: DocumentInfo, rags: seq<RagSettings>) returns (r: Result<Option<string>>)
    ensures r == UsableModel(info.DocumentClass, RagViews(rags))
  {
    ghost var views := RagViews(rags);
    var j := 0;
    while j < |rags|
      invariant 0 <= j <= |rags|
      invariant UsableModel(info.DocumentClass, views[j..]) == UsableModel(info.DocumentClass, views)
    {
      assert views[j..][1..] == views[j + 1..];
      var rag := rags[j];
      if rag.Block == null {
        return Err(BlockIsNull);
      }
      if info.CanBeProcessedForBlock(rag.Block) && !IsNullOrEmpty(rag.TableOfContentsInput) {
        return Ok(rag.TableOfContentsInput);
      }
      j := j + 1;
    }
    return Ok(None);
  }

  /** The model per link identifier, or the "Block is null." exception. */
  method GetTocModelsMap(infos: seq<DocumentInfo>, rags: seq<RagSettings>) returns (r: Result<map<string, string>>)
    ensures r == TocModels(infos, RagViews(rags))
  {
    ghost var views := RagViews(rags);
    var models: map<string, string> := map[];
    var i := 0;
    while i < |infos|
      invariant 0 <= i <= |infos|
      invariant views == RagViews(rags)
      invariant ModelsFrom(infos, views, i, models) == TocModels(infos, views)
    {
      var info := infos[i];
      var found := FindTocModel(info, rags);
      assert views == RagViews(rags);
      if found.Err? {
        return Err(found.error);
      }
      if found.value.Some? {
        models := models[info.DocumentId := found.value.value];
      }
      i := i + 1;
    }
    return Ok(models);
  }

  /** `GenerateTocsAsync`: the completion and the calls made, in order. */
  method GenerateTocs(infos: seq<DocumentInfo>, w: Workflow, notify: bool) returns (outcome: Outcome, calls: seq<Call>)
    ensures (outcome, calls) == TocRun(infos, RagViews(AutoTocRags(w)), notify)
    ensures ViewOf(w.AllPages) == old(ViewOf(w.AllPages))
  {
    var rags := AutoTocRags(w);
    outcome, calls := GenerateTocsFor(infos, rags, notify);
  }

  /** The body of `GenerateTocsAsync` once the ordered settings are known. */
  method GenerateTocsFor(infos: seq<DocumentInfo>, rags: seq<RagSettings>, notify: bool) returns (outcome: Outcome, calls: seq<Call>)
    ensures (outcome, calls) == TocRun(infos, RagViews(rags), notify)
  {
    ghost var views := RagViews(rags);
    var selected := SelectDocumentsForToc(infos, rags);
    assert views == RagViews(rags);
    if selected.Err? {
      return Fail(selected.error), [];
    }
    var documents := selected.value;
    if |documents| == 0 {
      return Pass, [];
    }
    var found := GetTocModelsMap(infos, rags);
    assert views == RagViews(rags);
    if found.Err? {
      return Fail(found.error), [];
    }
    var models := found.value;
    assert TocRun(infos, RagViews(rags), notify) == (Pass, TocCalls(documents, models, notify));
    calls := [];
    var i := 0;
    while i < |documents|
      invariant 0 <= i <= |documents|
      invariant TocRun(infos, RagViews(rags), notify) == (Pass, TocCalls(documents, models, notify))
      invariant calls + TocCalls(documents[i..], models, notify) == TocCalls(documents, models, notify)
    {
      var document := documents[i];
      if document.Id !in models {
        TocCallsStop(documents, i, models, notify);
        assert calls + [] == calls;
        return Pass, calls;
      }
      TocCallsAdvance(calls, documents, i, models, notify);
      calls := calls + [GenerateToc(document, models[document.Id])];
      if notify {
        calls := calls + [DocumentProcessed(document.Name)];
      }
      i := i + 1;
    }
    assert documents[i..] == [] && calls + [] == calls;
    outcome := Pass;
  }

  lemma TocCallsStep(documents: seq<Document>, i: nat, models: map<string, string>, notify: bool)
    requires i < |documents| && documents[i].Id in models
    ensures TocCalls(documents[i..], models, notify)
         == [GenerateToc(documents[i], models[documents[i].Id])]
            + (if notify then [DocumentProcessed(documents[i].Name)] else [])
            + TocCalls(documents[i + 1..], models, notify)
  {
    assert documents[i..][1..] == documents[i + 1..];
  }

  lemma TocCallsAdvance(calls: seq<Call>, documents: seq<Document>, i: nat, models: map<string, string>, notify: bool)
    requires i < |documents| && documents[i].Id in models
    ensures calls + TocCalls(documents[i..], models, notify)
         == calls + [GenerateToc(documents[i], models[documents[i].Id])]
            + (if notify then [DocumentProcessed(documents[i].Name)] else [])
            + TocCalls(documents[i + 1..], models, notify)
  {
    TocCallsStep(documents, i, models, notify);
  }

  lemma TocCallsStop(documents: seq<Document>, i: nat, models: map<string, string>, notify: bool)
    requires i < |documents| && documents[i].Id !in models
    ensures TocCalls(documents[i..], models, notify) == []
  {
  }
}
