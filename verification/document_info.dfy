/**
 * The link between a stored document and a workflow run: the document (which
 * may be missing), the identifier the caller recorded for it, and its class.
 * `DocumentId` is its own field: nothing ties it to the document's `Id`.
 */
module DocumentInfos {

  import opened Documents
  import opened Workflows

  datatype DocumentInfo = DocumentInfo(DocumentId: string, Document: Document?, DocumentClass: string)
  {
    /** Whether a block accepts documents of this class; reads only the block's class list. */
    function CanBeProcessedForBlock(block: Block): (r: bool)
      reads block`SupportedDocumentClasses
      ensures r == Eligible(block.SupportedDocumentClasses, DocumentClass)
    {
      Eligible(block.SupportedDocumentClasses, DocumentClass)
    }
  }

  /**
   * The class filter: "None" rejects everything, an empty list or "Any"
   * accepts everything, and otherwise the class must be listed.
   */
  function Eligible(classes: seq<string>, documentClass: string): (r: bool)
    ensures "None" in classes ==> !r
    ensures "None" !in classes && classes == [] ==> r
    ensures "None" !in classes && "Any" in classes ==> r
    ensures "None" !in classes && "Any" !in classes && classes != [] ==> (r <==> documentClass in classes)
  {
    "None" !in classes && (|classes| == 0 || "Any" in classes || documentClass in classes)
  }

  /** An accepted class is listed, or the list is empty, or it contains "Any". */
  lemma EligibleOnlyByListing(classes: seq<string>, documentClass: string)
    requires Eligible(classes, documentClass)
    ensures classes == [] || "Any" in classes || documentClass in classes
    ensures "None" !in classes
  {
  }

  /**
   * Adding a class other than "None" to a non-empty list never rejects a
   * class that was accepted, and always accepts the added class.
   */
  lemma EligibleGrowsWithList(classes: seq<string>, added: string, documentClass: string)
    requires classes != [] && added != "None"
    ensures Eligible(classes, documentClass) ==> Eligible(classes + [added], documentClass)
    ensures "None" !in classes ==> Eligible(classes + [added], added)
  {
    assert forall c :: c in classes ==> c in classes + [added];
    assert added in classes + [added];
    assert "None" !in classes ==> "None" !in classes + [added];
  }
}
