/**
 * The calls the services make to code outside the core: the analysis and
 * embedding providers and the caller's "document processed" callback. Each
 * service method returns the calls it made, in order, so that contracts can
 * state which calls happen and which never do.
 */
module ExternalCalls {

  import opened Documents

  datatype Call =
    /** Topic generation over the views of the workflow's pages. */
    | GenerateTopics(pages: seq<PageView>)
    /** Table-of-contents generation for a document with a model. */
    | GenerateToc(document: Document, model: string)
    /** Overview generation for every page of a document. */
    | GenerateOverviews(document: Document)
    /** Section-title detection on a document. */
    | DetectSectionTitles(document: Document)
    /** One request to the embedding provider, with its texts. */
    | Embed(texts: seq<string>)
    /** The caller's callback, with the document name. */
    | DocumentProcessed(name: string)
}
