# Acme document and workflow services, in Dafny

This project models the core of the Acme back end. Two services are modelled:

- `DocumentProcessingService` turns uploaded documents into pages with raw
  texts, overviews and embedding vectors. It has one procedure per media type:
  PDF, JPEG/PNG image, CSV and Excel workbook.
- `WorkflowService` loads a set of document links into a workflow tree. It
  clears the blocks' document lists, appends each document's pages to the
  workflow, and attaches each document to the blocks that accept it. It then
  generates the page topics once and the tables of contents.

The entities they mutate are modelled as Dafny classes updated in place:
`Workflow`, `Block`, `RagSettings`, `Document`, `Page` and `EmbeddingVector`.
`DocumentInfo`, `File` and `BinaryContent` are values. The helpers are
`PdfExtractor`, `ExcelSheetAnalysisService.ChunkSheetsAsync` and the string
handling of `JsonSerializable`.

Every state-changing method is proved against a function on values. A
document's pages are read back through `PageView` values, and a method
ensures `document.View() == F(old(document.View()))` for a function `F` of
`ProcessingStages`. The block lists after a load are given per block by
`LoadN` over the blocks the children-first walk visits. The lemmas beside
those functions state what the source promises.

Calls to code outside the core are returned as a trace of `Call` values, in
order. That code is the analysis and embedding providers and the caller's
"document processed" callback. So a contract can say which calls happen, how
often, and which never do. Exceptions are modelled as an `Outcome` or
`Result` value carrying the .NET exception type and message.

Modules, in dependency order:

- `Wrappers`
- `Common`
- `Sorting`
- `Documents`
- `Workflows`
- `DocumentInfos`
- `ExternalCalls`
- `DocumentAttachment`
- `TocGeneration`
- `WorkflowService`
- `PdfExtractor`
- `ExcelSheetAnalysis`
- `JsonSerializable`
- `Embeddings`
- `CsvFormatting`
- `ProcessingStages`
- `DocumentProcessing`
- `DocumentProcessingLoader`

`DocumentProcessingService` holds its own copies of several `WorkflowService`
methods, with the same code: `AppendPagesToWorkflow`, `LoadDocumentToBlock`,
`SelectDocumentsForToc`, `GetTocModelsMap` and `GenerateTocsAsync`. One model
serves both. Its `rag.Block ?? throw` at
Acme.Services/DocumentProcessingService.cs:140 and :182 raises the same
exception at the same point as the explicit null check at
Acme.Services/WorkflowService.cs:110-113 and :157-160.

The `DocumentProcessingService` copy of the context loader takes an `int`
block index defaulting to -1 and tests `blockIndex >= 0`. It is modelled in
`DocumentProcessingLoader` on top of the `int?` loader of `WorkflowService`.

The progress callback is invoked during context loading, and the model
follows the code here. The service's design description says the callback is
never invoked while context is loaded; it is meant only for the document
processing loop. In the code, both loaders pass `onDocumentProcessed` to
`GenerateTocsAsync`, which calls it once after each generated table of
contents (Acme.Services/WorkflowService.cs:60 and :92-95;
Acme.Services/DocumentProcessingService.cs:86 and :124-127). So
`TocGeneration.TocCallsStopAtFirstMiss` counts one callback per generated
table of contents when a callback is set. `WorkflowService.LoadContextToWorkflow`
includes those calls in its trace.

## Model

| member | source | states |
|---|---|---|
| Common.RemoveNul | Acme.Services/DocumentProcessingService.cs:466 | `Replace("\0", "")` leaves no NUL, never lengthens the text, and leaves a NUL-free text as it is |
| Common.NatToString | Acme.Entities/Workflows/Workflow.cs:21 | a natural number prints as one or more decimal digits, without a leading zero |
| Common.IntToString | Acme.Entities/Workflows/Workflow.cs:21 | the interpolated index is non-empty and starts with '-' exactly when it is negative |
| Common.NatToStringRoundTrip | Acme.Entities/Workflows/Workflow.cs:21 | reading back the printed digits gives the number |
| Common.IntToStringInjective | Acme.Entities/Workflows/Workflow.cs:21 | two indices print the same only if they are equal |
| Workflows.RagSettings.Detached | Acme.Entities/Workflows/RagSettings.cs:8-15 | the parameterless constructor: no block, type `WholeDocument`, no table-of-contents model |
| Workflows.RagSettings.constructor | Acme.Entities/Workflows/RagSettings.cs:17-21 | the new settings point to the block and are appended to the block's list, which is otherwise unchanged |
| Workflows.Block.Detached | Acme.Entities/Workflows/Block.cs:9-22 | all defaults: no settings, empty name, order 0, `AiQuery`, no classes, no documents, no workflow |
| Workflows.Block.constructor | Acme.Entities/Workflows/Block.cs:24-28 | defaults, the back-reference, and the block appended to the workflow's blocks |
| Workflows.Block.Config | Acme.Services/WorkflowService.cs:220-226 | the configuration attachment reads: the class list, whether the block uses documents (not `Merge`), whether it has settings |
| Workflows.Block.ShouldUseDocuments | Acme.Entities/Workflows/Block.cs:30-34 | true exactly for `AiQuery` and `SimpleRag` blocks |
| Workflows.BlockNotFoundNamesIndex | Acme.Entities/Workflows/Workflow.cs:21 | the exception message determines the index |
| Workflows.FirstWithOrder | Acme.Entities/Workflows/Workflow.cs:20 | the position of the first block with the order, or none when no block has it |
| Workflows.BlocksOf | Acme.Entities/Workflows/Workflow.cs:27 | `SelectMany(q => q.Blocks)`: exactly the blocks of the given workflows |
| Workflows.Workflow.constructor | Acme.Entities/Workflows/Workflow.cs:8-18 | no children, blocks or pages, order 0, no parent, no topics; a valid one-node tree |
| Workflows.Workflow.Restored | Acme.Entities/Workflows/Workflow.cs:9-14 | a workflow read back with fixed children and parent; a valid tree with an acyclic parent chain |
| Workflows.Workflow.BlockAt | Acme.Entities/Workflows/Workflow.cs:20-21 | the indexer returns the first block with that order, and raises `IndexOutOfRangeException` "Block at index i not found." exactly when no block has it |
| Workflows.Workflow.GetTopLevelWorkflow | Acme.Entities/Workflows/Workflow.cs:30-40 | the loop ends at the root of the parent chain, which has no parent |
| Workflows.Workflow.TopAndChildBlocks | Acme.Entities/Workflows/Workflow.cs:27 | own blocks first, then exactly the blocks of the direct children |
| Workflows.Workflow.GetAllBlocks | Acme.Entities/Workflows/Workflow.cs:23-28 | the root's blocks and its direct children's blocks; grandchildren are not included |
| Workflows.UsesRagTypeInSubtree | Acme.Services/DocumentProcessingService.cs:90-98 | `WorkflowUsesTopics` / `WorkflowUsesToc`, recursing through the children, hold exactly when some block of the subtree has a retrieval setting of that type |
| Workflows.RootHasNoParent | Acme.Entities/Workflows/Workflow.cs:34-39 | the top-level workflow has no parent; a parentless workflow is its own top |
| Documents.EmbeddingVector.constructor | Acme.Entities/Documents/EmbeddingVector.cs:13-17 | the vector holds the given model and components |
| Documents.Page.constructor | Acme.Entities/Documents/Document.cs:25-29 | the page the indexer creates: the number and the owner set, everything else default |
| Documents.Page.Restored | Acme.Entities/Documents/Page.cs:7-19 | a stored page: number, owner and stored `DocumentId`, no texts, image or vector |
| Documents.FindNumber | Acme.Entities/Documents/Document.cs:21 | `FirstOrDefault` by page number: the first position holding the number, or none exactly when it is absent |
| Documents.IndexPagesReturnsFirstMatch | Acme.Entities/Documents/Document.cs:17-36 | the indexer returns a page with the number, and no earlier page has it |
| Documents.IndexPagesAppendsOnlyOnMiss | Acme.Entities/Documents/Document.cs:21-34 | old pages stay in place; exactly one default page is appended, and only when the number is missing |
| Documents.IndexPagesKeepsNumbersDistinct | Acme.Entities/Documents/Document.cs:21-34 | indexing keeps page numbers unique |
| Documents.IndexPagesIdempotent | Acme.Entities/Documents/Document.cs:17-36 | indexing the same number again changes nothing |
| Documents.IndexedPageHasEmptyDocumentId | Acme.Entities/Documents/Document.cs:25-29 | a page the indexer creates has `DocumentId` "" and no raw text |
| Documents.Document.constructor | Acme.Entities/Documents/Document.cs:7-15 | no file, no pages, empty name, `Unknown` media type |
| Documents.Document.GetPage | Acme.Entities/Documents/Document.cs:17-36 | the pages become `IndexPages` of the old pages, and the returned object is the page at the returned position, new only on a miss |
| Documents.Document.AddPage | Acme.Entities/Documents/Document.cs:25-31 | one new page object with the number is appended |
| Documents.Document.SetRawText | Acme.Entities/Documents/Page.cs:11 | only that page's raw text changes |
| Documents.Document.SetOverview | Acme.Entities/Documents/Page.cs:13 | only that page's overview changes |
| Documents.Document.SetImage | Acme.Services/DocumentProcessingService.cs:362 | only that page's image changes |
| Documents.Document.SetEmbedding | Acme.Services/DocumentProcessingService.cs:451-454 | the page's vector object is reused when present and created otherwise, and holds the new model and components |
| Documents.Document.UpdateEmbedding | Acme.Services/DocumentProcessingService.cs:452-453 | the existing vector object gets the new model and components |
| Documents.Document.ReplaceEmbedding | Acme.Services/DocumentProcessingService.cs:321 | the page gets a new vector object |
| DocumentInfos.DocumentInfo.CanBeProcessedForBlock | Acme.Entities/Documents/DocumentInfo.cs:16-22 | the block's class list accepts the link's class, as `Eligible` says |
| DocumentInfos.Eligible | Acme.Entities/Documents/DocumentInfo.cs:18-21 | "None" rejects; otherwise an empty list or "Any" accepts; otherwise the class must be listed |
| DocumentInfos.EligibleOnlyByListing | Acme.Entities/Documents/DocumentInfo.cs:18-21 | an accepted class means no "None", and an empty list, "Any" or the class itself |
| DocumentInfos.EligibleGrowsWithList | Acme.Entities/Documents/DocumentInfo.cs:18-21 | adding a class other than "None" to a non-empty list never rejects an accepted class and accepts the added one |
| DocumentAttachment.LoadDocumentToBlock | Acme.Services/WorkflowService.cs:212-240 | the block's list becomes `LoadOnce`: the document is appended exactly when it is present, the class is accepted, the block uses documents, has settings and holds no document with the link's id |
| DocumentAttachment.LoadOnceIdempotentWhenIdsAgree | Acme.Services/WorkflowService.cs:232-239 | when the link's id is the document's own, attaching twice is attaching once |
| DocumentAttachment.LoadOnceDuplicatesWhenIdsDiffer | Acme.Services/WorkflowService.cs:232-239 | when the ids differ, every attachment appends the document again |
| DocumentAttachment.LoadNWithoutDocument | Acme.Services/WorkflowService.cs:214-218 | a link without a document never changes a block |
| DocumentAttachment.VisitsStayInSubtree | Acme.Services/WorkflowService.cs:188-210 | the walk offers the document only to blocks of the subtree |
| DocumentAttachment.VisitsCompleteWithoutIndex | Acme.Services/WorkflowService.cs:205-209 | without an index the walk never raises |
| DocumentAttachment.VisitsReachOwnBlocks | Acme.Services/WorkflowService.cs:205-209 | without an index every own block is offered the document |
| DocumentAttachment.VisitsReachSubtree | Acme.Services/WorkflowService.cs:188-210 | without an index every block of every workflow of the subtree is offered the document |
| DocumentAttachment.VisitsTargetOrder | Acme.Services/WorkflowService.cs:198-202 | with an index only blocks with that order are offered the document |
| DocumentAttachment.VisitsCompleteIffEveryHasOrder | Acme.Services/WorkflowService.cs:188-210 | with an index the walk completes exactly when every workflow of the subtree has a block with that order |
| DocumentAttachment.AttachToOwnBlocks | Acme.Services/WorkflowService.cs:197-209 | the workflow's own part: the targeted block or all blocks get one more offer; it raises only for a missing order |
| DocumentAttachment.AttachToTarget | Acme.Services/WorkflowService.cs:198-202 | the indexer's block gets one offer, or the indexer's exception is raised and nothing changes |
| DocumentAttachment.AttachToAllOwnBlocks | Acme.Services/WorkflowService.cs:206-209 | every own block, in order, gets one offer |
| DocumentAttachment.AttachOnce | Acme.Services/WorkflowService.cs:212-240 | one offer to one block adds one `LoadOnce` step to that block |
| DocumentAttachment.AttachDocumentToBlocks | Acme.Services/WorkflowService.cs:188-210 | every block of the subtree ends as `LoadN` of its list, with one offer per visit of the walk; it raises exactly when the walk fails, with the indexer's exception |
| DocumentAttachment.AttachToSubtree | Acme.Services/WorkflowService.cs:188-210 | the recursive walk: children first, then own blocks, stopping at the first exception |
| DocumentAttachment.AttachToChildren | Acme.Services/WorkflowService.cs:192-195 | the children in order, stopping at the first exception |
| DocumentAttachment.AttachToChild | Acme.Services/WorkflowService.cs:194 | one child's subtree walk, which leaves the tree's blocks as they are |
| Sorting.SortByKey | Acme.Services/WorkflowService.cs:66-67 | `OrderBy`: sorted by the key and a permutation of the input |
| Sorting.SortByKeyIsStable | Acme.Services/WorkflowService.cs:66-67 | `OrderBy` is stable: equal keys keep their input order |
| TocGeneration.OrderedRagsMembers | Acme.Services/WorkflowService.cs:66-67 | the ordered list holds exactly the settings of the blocks of the direct children |
| TocGeneration.AutoTocOnlyMembers | Acme.Services/WorkflowService.cs:68 | the filter keeps exactly the auto-detected table-of-contents settings |
| TocGeneration.AutoTocRagsMembers | Acme.Services/WorkflowService.cs:66-68 | a setting is listed exactly when it is of that type and belongs to a block of a direct child |
| TocGeneration.AutoTocRagsInChildren | Acme.Services/WorkflowService.cs:66-68 | grandchildren's settings are never listed |
| TocGeneration.AcceptingRagWithBlocks | Acme.Services/WorkflowService.cs:155-166 | with every block present, a document is selected exactly when some setting's block accepts its class |
| TocGeneration.AcceptingRagFailsOnlyAtNullBlock | Acme.Services/WorkflowService.cs:157-160 | the inner scan raises only "Block is null.", and only when a setting has no block |
| TocGeneration.SelectFrom | Acme.Services/WorkflowService.cs:144-171 | the selection holds only documents of the links |
| TocGeneration.SelectFromIsFilter | Acme.Services/WorkflowService.cs:144-171 | the selection appends, in link order, the present documents some setting accepts |
| TocGeneration.SelectForTocIsFilter | Acme.Services/WorkflowService.cs:144-171 | with every block present, the selection is that filter of the links |
| TocGeneration.SelectFromFailsOnlyAtNullBlock | Acme.Services/WorkflowService.cs:155-160 | the selection raises only "Block is null.", and only when a setting has no block |
| TocGeneration.UsableModel | Acme.Services/WorkflowService.cs:108-128 | a model found is never empty |
| TocGeneration.UsableModelIsFirst | Acme.Services/WorkflowService.cs:108-128 | the model is that of the first usable setting; none exactly when every setting is passed over; an exception only at a null block before any usable setting |
| TocGeneration.TocModelsEntries | Acme.Services/WorkflowService.cs:99-142 | the map has an entry exactly for the ids of links that find a model, holding the model of the last such link with that id |
| TocGeneration.WithModelsPrefix | Acme.Services/WorkflowService.cs:78-90 | how many documents, from the first, have a model; the next one has none |
| TocGeneration.TocCallsStopAtFirstMiss | Acme.Services/WorkflowService.cs:78-96 | tables of contents are generated for the documents before the first without a model, in order, and none after; one callback per generated table when a callback is set |
| TocGeneration.FindAcceptingRag | Acme.Services/WorkflowService.cs:155-167 | the inner loop of the selection computes `AcceptingRag` |
| TocGeneration.SelectDocumentsForToc | Acme.Services/WorkflowService.cs:144-171 | the loop computes `SelectForToc` |
| TocGeneration.FindTocModel | Acme.Services/WorkflowService.cs:108-128 | the inner loop of the map computes `UsableModel` |
| TocGeneration.GetTocModelsMap | Acme.Services/WorkflowService.cs:99-142 | the loop computes `TocModels` |
| TocGeneration.GenerateTocs | Acme.Services/WorkflowService.cs:64-97 | completion and calls are `TocRun` of the ordered settings; the workflow's pages are untouched |
| TocGeneration.GenerateTocsFor | Acme.Services/WorkflowService.cs:70-96 | the body after the settings are listed: nothing without selected documents, else generation up to the first document without a model |
| WorkflowService.ClearBlocks | Acme.Services/WorkflowService.cs:29-33 | every listed block ends with no documents |
| WorkflowService.AppendPagesToWorkflow | Acme.Services/WorkflowService.cs:176-186 | the document's pages are appended unless some workflow page carries the document's id |
| WorkflowService.WithPagesIdempotentWhenTagged | Acme.Services/WorkflowService.cs:178-182 | when the document's pages carry its id, a second append changes nothing |
| WorkflowService.WithPagesDuplicatesUntaggedPages | Acme.Services/WorkflowService.cs:178-184 | pages made by the indexer carry "", so each load appends the pages again |
| WorkflowService.PagesAfter | Acme.Services/WorkflowService.cs:35-49 | after the loaded links, the workflow holds its old pages and pages of linked documents only |
| WorkflowService.LoadNKeepsPrefix | Acme.Services/WorkflowService.cs:212-240 | offering a document never removes or reorders a block's documents |
| WorkflowService.LoadAllKeepsPrefix | Acme.Services/WorkflowService.cs:35-49 | loading keeps what a block held, in place, and adds only linked documents |
| WorkflowService.LoadAllUnvisited | Acme.Services/WorkflowService.cs:188-210 | a block the walk never visits keeps its list |
| WorkflowService.FirstDocument | Acme.Services/WorkflowService.cs:35-42 | the first link with a document, or none when every link lacks one |
| WorkflowService.Handled | Acme.Services/WorkflowService.cs:35-49 | the loop stops early only when the walk fails, right after the first link with a document |
| WorkflowService.LoadDocument | Acme.Services/WorkflowService.cs:35-49 | one link: skipped without a document; else pages appended and the document attached; it raises exactly when the walk fails |
| WorkflowService.AttachLink | Acme.Services/WorkflowService.cs:46 | attaching one link brings every block of the subtree one link further |
| WorkflowService.LoadDocuments | Acme.Services/WorkflowService.cs:35-49 | the loop raises exactly when the walk fails and some link has a document; pages and block lists are as `PagesAfter` and `LoadedThrough` say for the links handled |
| WorkflowService.TopicsAfter | Acme.Services/WorkflowService.cs:54 | `??=`: existing topics are kept; otherwise the generated value |
| WorkflowService.TopicsCalls | Acme.Services/WorkflowService.cs:51-55 | at most one topic call |
| WorkflowService.TopicsAtMostOnce | Acme.Services/WorkflowService.cs:51-55 | once topics exist, a later load makes no topic call and keeps them |
| WorkflowService.Cleared | Acme.Services/WorkflowService.cs:29-33 | the cleared blocks' lists are empty and the others unchanged |
| WorkflowService.ClearContext | Acme.Services/WorkflowService.cs:29-33 | the blocks `GetAllBlocks` returns end empty; the subtree's blocks are the same objects |
| WorkflowService.ClearAndLoad | Acme.Services/WorkflowService.cs:29-49 | clearing then the document loop: the exception exactly when the walk fails and a link has a document; the pages and every block's list afterwards |
| WorkflowService.LoadTopics | Acme.Services/WorkflowService.cs:51-55 | topics are generated once, on the pages' views, only when used and absent; pages and blocks are kept |
| WorkflowService.SetTopics | Acme.Services/WorkflowService.cs:54 | the assignment changes the topics only |
| WorkflowService.GenerateTopicsAndTocs | Acme.Services/WorkflowService.cs:51-61 | topics, then tables of contents when used; the calls are the topic call followed by the table-of-contents calls |
| WorkflowService.TocStep | Acme.Services/WorkflowService.cs:57-61 | the table-of-contents step keeps pages, blocks, topics and their use as they were |
| WorkflowService.TocWhenUsed | Acme.Services/WorkflowService.cs:57-61 | tables of contents only when some setting uses auto-detection |
| WorkflowService.LoadContextToWorkflow | Acme.Services/WorkflowService.cs:17-62 | the whole loader: the exception and no further calls when the walk fails, otherwise topics and tables of contents; the workflow's pages and every block's list as loaded; blocks outside the subtree cleared |
| DocumentProcessingLoader.IndexOption | Acme.Services/DocumentProcessingService.cs:226 | a non-negative index targets that order; a negative one targets nothing |
| DocumentProcessingLoader.NegativeIndexMeansAllBlocks | Acme.Services/DocumentProcessingService.cs:219-237 | a negative index walks as no index and never raises, whereas the nullable loader given it raises when no block has that order |
| DocumentProcessingLoader.LoadContextToWorkflowAt | Acme.Services/DocumentProcessingService.cs:52-88 | the `int`-index loader: as the other loader on `IndexOption`, raising only for a non-negative index |
| PdfExtractor.FindKey | Acme.Services/PdfExtractor.cs:28 | the position of the first entry with the key, or none exactly when it is absent |
| PdfExtractor.Put | Acme.Services/PdfExtractor.cs:28 | `dictionary[key] = value`: a new key is appended; an existing key keeps its place and gets the value |
| PdfExtractor.InRange | Acme.Services/PdfExtractor.cs:12-13 | exactly the requested numbers between 1 and the page count |
| PdfExtractor.Visited | Acme.Services/PdfExtractor.cs:12-14 | those numbers in ascending order |
| PdfExtractor.ExtractPaginatedText | Acme.Services/PdfExtractor.cs:8-38 | one entry per distinct requested page in range, ascending, holding the page's text or the error message |
| PdfExtractor.Range | Acme.Services/DocumentProcessingService.cs:462 | `Enumerable.Range`: the consecutive numbers from the start |
| PdfExtractor.AllPageTexts | Acme.Services/DocumentProcessingService.cs:462 | entries for pages 1 to count, in order |
| PdfExtractor.ExtractedAllPages | Acme.Services/DocumentProcessingService.cs:462 | asking for every page gives exactly one entry per page, in page order |
| ExcelSheetAnalysis.SheetStepAppends | Acme.Services/ExcelSheetAnalysisService.cs:22-26 | with pages numbered 1..k, a worksheet adds page k + 1 holding the sheet name |
| ExcelSheetAnalysis.ChunkViewsAppends | Acme.Services/ExcelSheetAnalysisService.cs:22-26 | from pages 1..k, the worksheets become pages k + 1..k + n in workbook order; earlier pages are kept |
| ExcelSheetAnalysis.ChunkViewsFromEmpty | Acme.Services/ExcelSheetAnalysisService.cs:17-29 | from no pages, the pages are exactly the worksheets, numbered from 1 |
| ExcelSheetAnalysis.SheetStepOverwritesOnGap | Acme.Services/ExcelSheetAnalysisService.cs:24-25 | when a page already has number `Count + 1`, no page is added and that page's raw text is overwritten |
| ExcelSheetAnalysis.ChunkSheet | Acme.Services/ExcelSheetAnalysisService.cs:24-25 | one worksheet is one `SheetStep` |
| ExcelSheetAnalysis.ChunkSheets | Acme.Services/ExcelSheetAnalysisService.cs:17-29 | the pages end as `ChunkViews` of the old pages and the sheet names |
| JsonSerializable.IndexOf | Acme.Common/JsonSerializable.cs:49 | the first position of the character, or -1 exactly when it is absent |
| JsonSerializable.LastIndexOf | Acme.Common/JsonSerializable.cs:50 | the last position of the character, or -1 exactly when it is absent |
| JsonSerializable.SanitizeJson | Acme.Common/JsonSerializable.cs:47-55 | the text itself when a brace is missing; the range operator's exception exactly when both braces occur and the last '}' lies more than one place before the first '{'; never longer than the text |
| JsonSerializable.SanitizeJsonKeepsOutermostBraces | Acme.Common/JsonSerializable.cs:47-55 | when a '{' precedes a '}', the span from the first '{' to the last '}' |
| JsonSerializable.SanitizeJsonOfBracedText | Acme.Common/JsonSerializable.cs:47-55 | a text opening with '{' and closing with '}' is its own sanitised form |
| JsonSerializable.SanitizeJsonIdempotent | Acme.Common/JsonSerializable.cs:47-55 | sanitising twice is sanitising once |
| JsonSerializable.FromJson | Acme.Common/JsonSerializable.cs:9-25 | null for a missing or blank text and when slicing fails; otherwise the deserialiser's result on the sanitised text |
| JsonSerializable.ReplaceCrLf | Acme.Common/JsonSerializable.cs:30 | the replacement never lengthens the text |
| JsonSerializable.ReplaceCrLfWithoutCr | Acme.Common/JsonSerializable.cs:30 | a text without '\r' is unchanged |
| JsonSerializable.ReplaceCr | Acme.Common/JsonSerializable.cs:31 | every '\r' becomes '\n', everything else is kept |
| JsonSerializable.ToJson | Acme.Common/JsonSerializable.cs:27-32 | the output holds no '\r' and is no longer than the serialiser's |
| JsonSerializable.ToJsonIdempotent | Acme.Common/JsonSerializable.cs:27-32 | normalising twice is normalising once |
| JsonSerializable.ToJsonCollapsesCrLf | Acme.Common/JsonSerializable.cs:30-31 | a "\r\n" becomes a single '\n' |
| CsvFormatting.CellsTextFails | Acme.Services/DocumentProcessingService.cs:303-313 | a record raises `IndexOutOfRangeException` exactly when a non-blank field has no column name |
| CsvFormatting.RowsTextFails | Acme.Services/DocumentProcessingService.cs:301-316 | the records raise exactly when one of them has such a field |
| CsvFormatting.CsvTextFails | Acme.Services/DocumentProcessingService.cs:284-318 | building the text raises exactly when a data record has a non-blank field past the first record's width |
| CsvFormatting.BlankCellsAddNothing | Acme.Services/DocumentProcessingService.cs:303-313 | a record whose fields are all blank contributes no field line, only the record's closing empty line |
| CsvFormatting.AppendCells | Acme.Services/DocumentProcessingService.cs:303-313 | the field loop appends `CellsText` or raises its exception |
| CsvFormatting.BuildCsvText | Acme.Services/DocumentProcessingService.cs:284-318 | the record loop computes `CsvText` |
| Embeddings.Positions | Acme.Services/DocumentProcessingService.cs:423 | exactly the pages without a valid embedding and with a non-blank overview, in page order |
| Embeddings.OverviewTexts | Acme.Services/DocumentProcessingService.cs:432 | one text per page to embed |
| Embeddings.BatchCallsShape | Acme.Services/DocumentProcessingService.cs:434-440 | the requests carry every text once, in order, 1 to 50 per request, ceil(n/50) requests, none for no text |
| Embeddings.AssignedToCandidate | Acme.Services/DocumentProcessingService.cs:444-445 | a page to embed gets the provider's model and vector exactly when a vector came back for it, else the error model and an empty vector |
| Embeddings.EmbedFirst | Acme.Services/DocumentProcessingService.cs:442-455 | the assignment loop changes embeddings only |
| Embeddings.Embedded | Acme.Services/DocumentProcessingService.cs:421-456 | embedding changes embeddings only |
| Embeddings.EmbedFirstAt | Acme.Services/DocumentProcessingService.cs:442-455 | after n steps the first n pages to embed carry their assignment and all else is unchanged |
| Embeddings.EmbeddedPages | Acme.Services/DocumentProcessingService.cs:421-456 | the j-th page to embed gets assignment j; every other page is left exactly as it was |
| Embeddings.NoPositions | Acme.Services/DocumentProcessingService.cs:427-430 | with no page to embed nothing is sent |
| Embeddings.EmbeddedComplete | Acme.Services/DocumentProcessingService.cs:421-456 | when every text gets a vector, running the step again sends nothing |
| ProcessingStages.PdfStepKeeps | Acme.Services/DocumentProcessingService.cs:465-466 | one entry keeps pages in place, keeps an existing raw text, and leaves the page with that number holding a raw text |
| ProcessingStages.PdfTextsKeepExisting | Acme.Services/DocumentProcessingService.cs:463-467 | `RawText ??=`: an existing raw text is never overwritten |
| ProcessingStages.PdfTextsCover | Acme.Services/DocumentProcessingService.cs:463-467 | every extracted page number ends on a page with a raw text |
| ProcessingStages.PdfTextsAddBare | Acme.Services/DocumentProcessingService.cs:465 | pages the extraction adds have no embedding |
| ProcessingStages.PdfStepAppends | Acme.Services/DocumentProcessingService.cs:465-466 | a number above every page number appends the page with the NUL-free text |
| ProcessingStages.PdfTextsAppend | Acme.Services/DocumentProcessingService.cs:463-467 | ascending keys above the existing numbers append one page per entry, in order |
| ProcessingStages.PdfPages | Acme.Services/DocumentProcessingService.cs:458-468 | one page per PDF page |
| ProcessingStages.PdfTextsFromEmpty | Acme.Services/DocumentProcessingService.cs:458-468 | from no pages, exactly one page per PDF page, numbered from 1, holding its text |
| ProcessingStages.MediaPageImage | Acme.Services/DocumentProcessingService.cs:361-362 | page 1 ends with an image, its old one if it had one; nothing else changes but page 1 being added |
| ProcessingStages.MediaPageFromEmpty | Acme.Services/DocumentProcessingService.cs:361-362 | from no pages, a single page 1 holding the file as its image |
| ProcessingStages.CsvPage | Acme.Services/DocumentProcessingService.cs:278-321 | the CSV procedure makes embedding requests only |
| ProcessingStages.CsvPageResult | Acme.Services/DocumentProcessingService.cs:278-321 | it raises exactly on a wide field, leaving the decoded file on page 1; otherwise page 1 holds the text and one embedding from one single-text request, with the error model when there is no overview or no vector; no other page changes |
| ProcessingStages.CsvPageFails | Acme.Services/DocumentProcessingService.cs:284-318 | the CSV procedure raises exactly on a non-blank field past the header |
| ProcessingStages.Described | Acme.Services/DocumentProcessingService.cs:344-347 | the overview step changes overviews only |
| ProcessingStages.EmbedCalls | Acme.Services/DocumentProcessingService.cs:432-440 | embedding makes embedding requests only |
| ProcessingStages.DescribeAndEmbedKeepTexts | Acme.Services/DocumentProcessingService.cs:344-349 | overviews and embeddings keep page numbers and raw texts |
| ProcessingStages.ExcelPagesShape | Acme.Services/DocumentProcessingService.cs:324-350 | worksheets become pages only for a document without pages; overviews exactly when asked for; never section titles |
| ProcessingStages.PdfTextsShape | Acme.Services/DocumentProcessingService.cs:458-468 | the raw-text step already gives the PDF page shape |
| ProcessingStages.PdfDocumentPagesShape | Acme.Services/DocumentProcessingService.cs:398-419 | the PDF procedure gives that shape; overviews and section titles are requested exactly when asked for |
| ProcessingStages.Processed | Acme.Services/DocumentProcessingService.cs:193-205 | images make no calls; no procedure calls the callback |
| ProcessingStages.ProcessedOutcome | Acme.Services/DocumentProcessingService.cs:193-205 | it raises exactly for an unknown media type (changing nothing) or a CSV file with a wide field; without a file nothing changes |
| ProcessingStages.ProcessedRaises | Acme.Services/DocumentProcessingService.cs:193-205 | the exception depends on the media type and the file alone |
| ProcessingStages.Processings | Acme.Services/DocumentProcessingService.cs:31-40 | one result per list entry |
| ProcessingStages.ProcessingsSkip | Acme.Services/DocumentProcessingService.cs:33-37 | a null entry gives nothing |
| ProcessingStages.ProcessingsRaise | Acme.Services/DocumentProcessingService.cs:31-40 | each present document raises what its media type and file say, carries its name, and makes no callback itself |
| ProcessingStages.FirstFailure | Acme.Services/DocumentProcessingService.cs:31-47 | the first document that raises, or the end of the list |
| ProcessingStages.Names | Acme.Services/DocumentProcessingService.cs:43 | no more names than entries |
| ProcessingStages.NamesOfPresent | Acme.Services/DocumentProcessingService.cs:31-44 | the names reported are exactly those of the non-null entries |
| ProcessingStages.NamesAppend | Acme.Services/DocumentProcessingService.cs:31-47 | names follow list order: a concatenation's names are the concatenated names |
| ProcessingStages.NamesWithoutNulls | Acme.Services/DocumentProcessingService.cs:31-47 | with no null entry, the i-th name is the i-th document's |
| ProcessingStages.RunBatchRaisesFirst | Acme.Services/DocumentProcessingService.cs:31-47 | the batch raises what its first raising document raises, and completes when none does |
| ProcessingStages.RunBatchNotifiesInOrder | Acme.Services/DocumentProcessingService.cs:31-47 | the callback receives each document's name once, in order, up to the first that raises; nothing without a callback |
| DocumentProcessing.IsPageEmbeddingValid | Acme.Services/DocumentProcessingService.cs:470-473 | a vector is present and its model is not the error model |
| DocumentProcessing.EmbedBatches | Acme.Services/DocumentProcessingService.cs:433-440 | the batch loop collects `BatchVectors` with the requests `BatchCalls` |
| DocumentProcessing.AssignEmbedding | Acme.Services/DocumentProcessingService.cs:444-454 | one step of `EmbedFirst`, reusing the page's vector object or creating one |
| DocumentProcessing.AssignEmbeddings | Acme.Services/DocumentProcessingService.cs:442-455 | the assignment loop computes `EmbedFirst` over all pages to embed |
| DocumentProcessing.EmbedPositions | Acme.Services/DocumentProcessingService.cs:432-455 | requests and assignments give `EmbedAll` and `EmbedCalls` |
| DocumentProcessing.GetEmbeddings | Acme.Services/DocumentProcessingService.cs:421-456 | the pages end as `EmbedAll`, the requests are `EmbedCalls`, and a page's vector object is reused when present, otherwise new |
| DocumentProcessing.GeneratePageOverviews | Acme.Services/DocumentProcessingService.cs:346 | every page gets the generator's overview; one overview call |
| DocumentProcessing.ProcessMediaPages | Acme.Services/DocumentProcessingService.cs:352-366 | `MediaPage` of the old pages with the file's content, or nothing without a file |
| DocumentProcessing.WriteCsvPage | Acme.Services/DocumentProcessingService.cs:279-321 | the page part of the CSV procedure is `CsvPage`, with a new vector object on success |
| DocumentProcessing.ProcessCsvPages | Acme.Services/DocumentProcessingService.cs:269-322 | the CSV procedure is `CsvPage` of the decoded file and its records, or nothing without a file |
| DocumentProcessing.FillRawText | Acme.Services/DocumentProcessingService.cs:465-466 | one entry is one `PdfStep` |
| DocumentProcessing.GetPdfPagesRawTexts | Acme.Services/DocumentProcessingService.cs:458-468 | the pages end as `PdfTexts` of every page's extracted text |
| DocumentProcessing.DescribeAndEmbed | Acme.Services/DocumentProcessingService.cs:408-418 | overviews and titles when asked for, then embeddings; the pages end as `EmbedAll` of `Described` |
| DocumentProcessing.ChunkIfEmpty | Acme.Services/DocumentProcessingService.cs:333-342 | worksheets become pages only when there are none, and new pages have no vector |
| DocumentProcessing.ProcessExcelPages | Acme.Services/DocumentProcessingService.cs:324-350 | the Excel procedure is `ExcelPages`, or nothing without a file |
| DocumentProcessing.ProcessPdfPages | Acme.Services/DocumentProcessingService.cs:398-419 | the PDF procedure is `PdfDocumentPages`, or nothing without a file |
| DocumentProcessing.ProcessPages | Acme.Services/DocumentProcessingService.cs:193-205 | dispatch on the media type: outcome, pages and calls are `Processed` |
| DocumentProcessing.ProcessAndReport | Acme.Services/DocumentProcessingService.cs:39-44 | a document is processed and, if nothing was raised and a callback is set, reported by name |
| DocumentProcessing.ProcessEntry | Acme.Services/DocumentProcessingService.cs:31-46 | one document of the batch; later documents are untouched |
| DocumentProcessing.ProcessStep | Acme.Services/DocumentProcessingService.cs:31-47 | a null entry is skipped; a raising document ends the batch |
| DocumentProcessing.ProcessPending | Acme.Services/DocumentProcessingService.cs:31-47 | the loop computes `RunBatch` of the documents' processing |
| DocumentProcessing.ProcessDocuments | Acme.Services/DocumentProcessingService.cs:26-50 | the batch's completion and calls are `RunBatch` of each document processed from its own state when the batch began |

## Left out

- Logging is left out everywhere. Every `_logger` call only writes a message.
- Async and cancellation are left out. Every `await` in the core runs to
  completion before the next statement, and no method reads its
  `CancellationToken`. The methods are modelled as sequential code.
- `SetupPromptsAsync` of both analysis services is left out. The calls at
  Acme.Services/DocumentProcessingService.cs:29-30 and :55-56 do nothing the
  core can observe.
- The analysis providers are reduced to pure functions or recorded calls:
  - The overview generator is a function from a page's view to its overview.
  - The embedding provider is a function from texts to vectors.
  - The topic generator is a function of the page views.
  - `DetectSectionTitlesAsync` and `GenerateTocUsingModelToc` are recorded as
    calls that change nothing. Their effects live in `DocumentAnalysisService`,
    which is not part of this model.
- The CSV parser (CsvHelper) is reduced to the sequence of records it yields,
  each a sequence of fields. The first record supplies the column names,
  because `HeaderRecord` stays null until a header is read. Quoting, delimiter
  rules and culture are not modelled. UTF-8 decoding is a function of the
  bytes.
- The PDF library (Aspose.Pdf) is reduced to a page count and a per-page text
  extractor. `None` stands for an exception thrown while a page is read. The
  workbook library (Aspose.Cells) is reduced to the sequence of worksheet
  names.
- The JSON serialiser and deserialiser (Newtonsoft.Json) are parameters.
  `GetJsonSchema` and `ToString` (which is `ToJson(false)`) are not modelled.
  The `pretty` flag is folded into the serialiser parameter.
- `Environment.NewLine` is fixed to "\n" (CsvFormatting.NewLine) as a
  modelling choice. On Windows `AppendLine` emits "\r\n", so the CSV page
  text built at Acme.Services/DocumentProcessingService.cs:303-316 would
  differ from the modelled one in its line breaks.
- `ExcelSheetAnalysisService.ChunkSheetsAsync` takes a `chunkSize` parameter
  that is never read, so it is not modelled.
- The OCR branch of `ProcessMediaPagesAsync` is not modelled.
  `ProcessPagesAsync` always passes `shouldUseOcr: false`, so everything after
  the image assignment (Acme.Services/DocumentProcessingService.cs:363-395) is
  unreachable. `Page.Text` is written only there.
- Integers are unbounded. The 32-bit `int` width of `Block.Order`,
  `Workflow.Order`, `Page.PageNumber` and `Pages.Count + 1` is not modelled;
  it would matter only at 2^31 pages or blocks.
- Identifiers generated by `Guid.NewGuid()` are not modelled. The ids the core
  never reads are dropped: `Page.Id`, `EmbeddingVector.Id`, `Block.Id`,
  `Workflow.Id`, `RagSettings.Id` and `DocumentInfo.Id`. `Document.Id` is a
  constructor argument. The `EmbeddingVector` object itself stands for its
  `Id`, so "keeps its `Id`" is stated as "is the same object".
- `Dictionary` enumeration order is taken as insertion order. This holds for
  .NET dictionaries that never remove entries, which is the case in
  `PdfExtractor`.
- Fields the core never reads or writes are not modelled:
  `Block.ReplacementTag` and `Block.ShouldUsePageImages`.
- Exceptions are modelled as returned `Outcome` and `Result` values. The
  `NullReferenceException` of a null `Block` in `GetAllBlocks` cannot arise,
  because the block sequences hold no nulls.
- Documents.Document.Valid: the page procedures require that a document holds
  each page object once and that no two pages share a vector object. The
  source does not check this. Aliased pages would see each other's updates,
  and the model does not capture that.
- DocumentProcessing.ProcessDocuments: requires that no two list entries
  share a document, a page or a vector object. It does not model a batch that
  lists the same document twice. It states the batch's completion and calls;
  each document's pages afterwards are stated by DocumentProcessing.ProcessPages.
- Workflows.Workflow.Valid: the workflow tree is finite and acyclic, and the
  parent chain ends. The source assumes both without checking.
