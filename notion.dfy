/** The values the puller receives from the document service, and the page
    record (`NotionPage`) it builds from them.  The service itself is a
    `Remote`: a bundle of functions standing for its endpoints, each already
    seen through the rate-limited, retrying wrapper (module `Retry`). */
module Notion {
  import opened Common

  /** A thrown error object; JavaScript errors may lack `code` or `message`. */
  datatype Exception = Exception(code: Option<string>, message: Option<string>)

  /** How a promise settles. */
  datatype Settled<+T> = Resolved(value: T) | Rejected(error: Exception)

  datatype PageType = DatabasePage | StandardPage

  /** What `pages.retrieve` tells about a page, as far as the core reads it.
      `subtype` is the flag the crawler writes on category pages with an index. */
  datatype Metadata = Metadata(
    nameOrTitle: string,
    slug: string,
    pageType: PageType,
    status: Option<string>,
    subtype: Option<string>)

  /** One page of the outline as the crawler registers it. */
  datatype NotionPage = NotionPage(
    layoutContext: string,
    parentId: string,
    pageId: string,
    order: int,
    metadata: Metadata,
    foundDirectlyInOutline: bool)

  /** A listed child block: either a full record or a partial one (no `type`). */
  datatype Block =
    | PartialBlock(id: string)
    | FullBlock(id: string, blockType: string, number: Option<int>)

  /** One response of `blocks.children.list`. */
  datatype ListResponse = ListResponse(results: seq<Block>, nextCursor: Option<string>)

  /** An `{id, order}` reference to a child page or a linked page. */
  datatype PageRef = PageRef(id: string, order: int)

  /** What `NotionPage.getContentInfo` derives from a page's blocks. */
  datatype ContentInfo = ContentInfo(
    hasContent: bool,
    childPageIdsAndOrder: seq<PageRef>,
    linksPageIdsAndOrder: seq<PageRef>)

  /** The document service.  `retrieve` and `list` give the settled outcome of
      one retried call; `maxPages` bounds how many cursors a listing follows. */
  datatype Remote = Remote(
    retrieve: string -> Settled<Metadata>,
    list: (string, Option<string>) -> Settled<ListResponse>,
    contentInfo: seq<Block> -> ContentInfo,
    maxPages: nat)

  /** Why a crawl stops: a rethrown exception, the process exit on a partial
      block, or one of the two bounds standing in for non-termination. */
  datatype FetchError =
    | Thrown(exception: Exception)
    | NotFullBlocks(blockId: string)
    | CursorChainTooLong(blockId: string)
    | OutlineTooDeep(pageId: string)
}
