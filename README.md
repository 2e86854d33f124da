# docu-notion core, modelled in Dafny

docu-notion mirrors a tree of pages kept in Notion into a tree of markdown
files for a static-site generator. This project models the part of it that
decides what gets written:

- **The outline crawler** (`src/pull.ts`).
  - The root page's child pages are the *tabs*. Each tab is walked depth-first.
  - Every page visited is sorted into one of four cases:
    - a category with an index page;
    - a category without one;
    - a simple content page;
    - an empty page.
  - Each tab's pages go into a registry stored under the tab's lowercased title.
  - Afterwards every registered page is written, or skipped for its status.
- **The fetch layer** (`src/pull.ts`).
  - One rate-limiter token per call.
  - Up to ten attempts, with linear backoff after transient errors.
  - Cursor-following listing of a block's children, which stops on a partial block.
  - Renumbering of numbered-list runs.
- **The link resolver** (`src/plugins/internalLinks.ts`). It rewrites a Notion page URL, or a markdown link to a Notion page, into a local path under the tab that holds the page.
- **The layout-strategy base class** (`src/LayoutStrategy.ts`). It provides the markdown root directory, a page's link path, and the `.mdx` files already present under a directory.

## Modules

| Module | File | Contents |
|---|---|---|
| `Common` | `common.dfy` | `Option`, `Result`, and the string operations the code borrows from JavaScript (`startsWith`, `endsWith`, `includes`, `toLowerCase`). |
| `Notion` | `notion.dfy` | The values the service returns, the `NotionPage` record, and `Remote`. |
| `Retry` | `retry.dfy` | `executeWithRateLimitAndRetries`, as a loop. Also a closed form of its policy, proved equal to the loop. |
| `BlockChildren` | `block_children.dfy` | `getBlockChildren`, a cursor loop proved against a function. `numberChildrenIfNumberedList`, which works in place on an array. |
| `Layout` | `layout.dfy` | The `LayoutStrategy` class with its `rootDirectory` field. `getLinkPathForPage` with a faithful `replaceAll`. `getListOfExistingFiles` over a directory-tree datatype. |
| `InternalLinks` | `internal_links.dfy` | `parseLinkId`, `convertLinkHref`, `convertLinkLabel`, `convertInternalUrl` and `convertInternalLink`. The two regular expressions are written as scanners, and each scanner is proved sound and complete against a declarative statement of its pattern. |
| `Pull` | `pull.dfy` | The module-level state of `pull.ts` becomes the fields of class `Puller`: `layoutStrategy`, `allTabsPages`, `currentTabPages`, `counts`, and a log of written files. `getTabs`, `getTabsPagesRecursively` and `outputPages` are its methods. Each method is proved against a function over the whole crawl (`TabsOf`, `Walk`, `Writes`). Lemmas state what those functions promise. |

`Remote` stands for the service. It is a bundle of functions:

- `retrieve`: page metadata;
- `list`: one listing call, given a block id and a cursor;
- `contentInfo`: `NotionPage.getContentInfo`, which is not part of this model;
- `maxPages`: the model's bound on cursor chains.

`retrieve` and `list` give the settled outcome of the retrying wrapper. The
wrapper itself is modelled and proved separately, in `Retry`.

`newLevel` and `getPathForPage` belong to `HierarchicalNamedLayoutStrategy`, and
`matchesLinkId` to `NotionPage`. Neither is part of this model, so all three are
function parameters. The markdown renderer is a parameter too.

Where the code's own comments and what the code does disagree, or where the
code behaves in a way a reader may not expect, the model follows the code:

- The limiter token is taken once per wrapped call, not once per attempt (`src/pull.ts:318`).
- After ten transient failures the last exception itself is rethrown (`src/pull.ts:349`). No new "failed after N retries" error is raised.
- `getLinkPathForPage` replaces `//` by `/` once, left to right, so a slug holding `///` still yields a doubled separator (`src/LayoutStrategy.ts:27`). This is proved as an if-and-only-if, with a concrete instance.
- The status counter is reset at the start of every tab (`src/pull.ts:469`). After `outputPages` it therefore holds the last tab's count only.
- Paths are computed by the module-level strategy (`src/pull.ts:472`, `src/pull.ts:291`). That is the instance created for the last tab (`src/pull.ts:145`).
- A page found in a tab whose lowercased title is empty counts as not found (`src/plugins/internalLinks.ts:27`, `:70`). This is because the code checks the tab name for truthiness.

## Model

| member | source | states |
|---|---|---|
| Retry.Classify | src/pull.ts:326-334 | The timeout code is retried whatever the message. Any other thrown value without a message makes the test itself throw, even with one of the two codes tested last. A message-bearing error with either of those codes is retried. Otherwise the error is retried exactly when its message holds `timeout`, `Timeout`, `limit` or `Limit`. |
| Retry.ExecuteWithRateLimitAndRetries | src/pull.ts:314-350 | The outcome and the effect log (token, invocations, sleeps) are exactly `Execution` of the remote behaviour. |
| Retry.ExecutionIsClosedForm | src/pull.ts:318-349 | The loop equals the closed-form policy. That policy is: take one token; back off on every attempt before the first one that is not a transient failure; settle on that attempt, or rethrow attempt 9's exception when all ten fail. |
| Retry.RetrySucceedsAfterTransientFailures | src/pull.ts:321-341 | After `k < 10` transient failures and a success, the value is returned after exactly `k` invoke/sleep pairs, followed by the successful invocation. |
| Retry.FatalErrorIsRethrownImmediately | src/pull.ts:324-344 | A non-transient error on attempt `k` is rethrown unchanged. Nothing follows invocation `k`. |
| Retry.LastExceptionRethrownAfterTenFailures | src/pull.ts:346-349 | After ten transient failures the tenth exception itself is thrown, after ten invocations and ten sleeps. |
| Retry.TokenTakenOncePerCall | src/pull.ts:318 | The effect log starts with the one token taken, followed by invocation 0. No token is taken after that, whatever the retries. |
| Retry.BackoffAt | src/pull.ts:335-341 | The sleep after attempt `i` lasts `i + 1` seconds, so delays grow linearly. |
| Retry.AtMostTenAttempts | src/pull.ts:319-321 | Two remote behaviours that agree on attempts 0..9 give the same run: at most ten attempts are made. |
| BlockChildren.GetBlockChildren | src/pull.ts:359-396 | The cursor loop returns exactly `BlockChildrenOf`. That is the concatenated pages of results, renumbered, or the first error. |
| BlockChildren.ListAllPages | src/pull.ts:368-384 | The do-while cursor loop returns exactly `Pages` of the chain that starts without a cursor: every response's results in order, or the first error. |
| BlockChildren.PagesConcatenatesChain | src/pull.ts:368-384 | For a cursor chain ending in a response without a cursor, the result is the in-order concatenation of every response's results. |
| BlockChildren.PartialBlockAborts | src/pull.ts:386-391 | Any partial block among the listed children stops the run with an error. Nothing is returned. |
| BlockChildren.NumberChildrenIfNumberedList | src/pull.ts:430-444 | The array, updated in place, equals `Numbered` of its old contents. |
| BlockChildren.RunPositionInMaximalRun | src/pull.ts:433-442 | A numbered item's number is its 1-based position in the maximal run of consecutive numbered items containing it. |
| BlockChildren.NumberingKeepsBlocks | src/pull.ts:435-443 | Numbering keeps the length and the order. It leaves every other block unchanged, and changes each numbered item only in its `number`, which is at least 1. |
| BlockChildren.NumberingRestartsAfterInterruption | src/pull.ts:440-442 | A numbered item right after a block of another kind is numbered 1. |
| Layout.LayoutStrategy.constructor | src/LayoutStrategy.ts:7 | `rootDirectory` starts empty. |
| Layout.LayoutStrategy.SetRootDirectoryForMarkdown | src/LayoutStrategy.ts:9-11 | Sets `rootDirectory` to the given path. Nothing else changes. |
| Layout.GetLinkPathForPage | src/LayoutStrategy.ts:25-28 | The link path starts with `/`. It is exactly `"/" + slug` when the slug holds no `/`. |
| Layout.ReplaceDoubleSlashes | src/LayoutStrategy.ts:27 | The left-to-right, non-overlapping `replaceAll("//", "/")` never lengthens its input and keeps its first character. |
| Layout.LinkPathNormalisedIffNoTriple | src/LayoutStrategy.ts:25-28 | The link path has no doubled separator, and a second replacement leaves it as it is, exactly when `"/" + slug` holds no `///`. |
| Layout.ReplaceWithoutDoubleSlash | src/LayoutStrategy.ts:27 | `replaceAll("//", "/")` leaves a string without `//` unchanged. |
| Layout.DoubledSeparatorSurvivesIffTriple | src/LayoutStrategy.ts:27 | The replacement leaves a `//` exactly when the input holds `///`. |
| Layout.TripleSlashSlugKeepsDoubledSeparator | src/LayoutStrategy.ts:27 | The slug `a///b` is linked as `/a//b`. This is one instance of `DoubledSeparatorSurvivesIffTriple`, which covers every input. |
| Layout.GetListOfExistingFiles | src/LayoutStrategy.ts:30-41 | Every listed path ends in `.mdx` and lies under `dir + "/"`. |
| Layout.ExistingFilesAreTheMdxFiles | src/LayoutStrategy.ts:30-41 | The listing equals the `.mdx` paths among all file paths `dir + "/" + name` of the tree, in depth-first listing order. |
| Layout.ExistingFilesMembership | src/LayoutStrategy.ts:33-39 | A path is listed iff it is a file path of the tree ending in `.mdx`. No directory and no other file is listed. |
| InternalLinks.ParseLinkId | src/plugins/internalLinks.ts:114-123 | Base and fragment concatenate to the input. The base holds no `#`. The fragment is empty exactly when the input holds no `#`, and otherwise starts with `#`. |
| InternalLinks.NotionUrlId | src/plugins/internalLinks.ts:11-18 | There is no id exactly when nowhere in the url is the prefix followed by `[a-z0-9]`. Otherwise the id is the maximal non-empty `[a-z0-9]` run after the leftmost such prefix. |
| InternalLinks.FindTarget | src/plugins/internalLinks.ts:19-25 | The result is the first matching page of the first tab that holds one, or none when no tab does. |
| InternalLinks.FindTargetFindsFirstMatch | src/plugins/internalLinks.ts:62-68 | First match wins: the search returns exactly the first match in tab order, then page order. |
| InternalLinks.ConvertLinkHref | src/plugins/internalLinks.ts:92-108 | The href starts with `"/" + tab + "/"` and ends with the fragment of the url given. |
| InternalLinks.ConvertInternalUrl | src/plugins/internalLinks.ts:10-16 | The result is undefined exactly when the url pattern matches nowhere. |
| InternalLinks.ResolvedUrl | src/plugins/internalLinks.ts:19-28 | A resolved url becomes `"/" + tab + getLinkPathForPage(page) + fragment`. |
| InternalLinks.UnresolvedUrl | src/plugins/internalLinks.ts:29-32 | An id no registry holds yields `id + "[broken link]"`. |
| InternalLinks.EmptyTabNameGivesBrokenUrl | src/plugins/internalLinks.ts:27 | The first match lies in a tab named `""`, so the url is reported broken. |
| InternalLinks.LinkAtSound | src/plugins/internalLinks.ts:41 | What the link scanner finds at a position is a match of the inline-link pattern. |
| InternalLinks.LinkAtComplete | src/plugins/internalLinks.ts:41 | Every match of the pattern at a position is what the scanner finds there. |
| InternalLinks.MailtoLookaheadExcludesNothing | src/plugins/internalLinks.ts:41 | No href accepted by either alternative starts with `mailto:`. |
| InternalLinks.MarkdownLinkMatch | src/plugins/internalLinks.ts:41-42 | Groups are returned only for a match with none to its left. Nothing is returned exactly when the pattern matches nowhere. |
| InternalLinks.MarkdownLinkMatchIsLeftmost | src/plugins/internalLinks.ts:41-42 | `exec` returns the groups of the leftmost match. |
| InternalLinks.TrimToLastSpecialChar | src/plugins/internalLinks.ts:57-60 | The trimmed href is the suffix after the last `-` or `/`. It holds neither character, and is the whole href when there is none. |
| InternalLinks.ConvertLinkLabel | src/plugins/internalLinks.ts:83-85 | The label `mention` becomes the page's title. Any other label is kept. |
| InternalLinks.ConvertInternalLink | src/plugins/internalLinks.ts:40-78 | Only a link the pattern finds, and not one to an image, is rewritten. It becomes a markdown link `[...](...)`, or its text followed by `[broken link]`. |
| InternalLinks.UnmatchedLinkUnchanged | src/plugins/internalLinks.ts:42-46 | Text the pattern does not match is returned unchanged. |
| InternalLinks.ImageLinkUnchanged | src/plugins/internalLinks.ts:50-55 | A link whose href ends in an image extension is returned unchanged. |
| InternalLinks.ResolvedLink | src/plugins/internalLinks.ts:70-73 | A resolved link becomes `[label](href)`. The label is the page's title exactly when the text is `mention`. The href is built from the trimmed href. |
| InternalLinks.UnresolvedLink | src/plugins/internalLinks.ts:74-77 | An unresolved link becomes its text followed by `[broken link]`. |
| Pull.FromPageId | src/pull.ts:403-425 | The page fails exactly when its metadata cannot be retrieved, with that exception. Otherwise it carries the id, order, layout context, parent and outline flag asked for, and the metadata retrieved. |
| Pull.Classify | src/pull.ts:190-287 | Exactly one of the four cases holds for every page. Each is characterised by content and by whether there are children or links. |
| Pull.ContentPageKeepsContext | src/pull.ts:274-277 | A content page is registered alone, as retrieved, at the incoming layout context. |
| Pull.IndexedCategoryOrder | src/pull.ts:190-233 | Category with an index, in this order: (1) the page at `newLevel(...)`, flagged `categoryindex`; (2) its children's pages, walked at that level; (3) one page per link at that level, not found in the outline. |
| Pull.UnindexedCategoryOmitsPage | src/pull.ts:236-271 | A category without an index registers its children's pages and then its links, never itself. |
| Pull.EmptyPageCountedOnce | src/pull.ts:280-287 | An empty page registers nothing and adds exactly 1 to `skipped_because_empty`. |
| Pull.LinkPagesAreTheLinks | src/pull.ts:221-232 | Links are registered one per link, in order, with the link's id and order, under the linking page. None is walked. |
| Pull.WalkRegistersFetchedPages | src/pull.ts:173-180 | Every registered page carries the retrieved metadata of its id. The only possible change is the index flag. |
| Pull.WalkChildrenStops | src/pull.ts:212-220 | Once a child's walk fails, no later child is visited. |
| Pull.SetTab | src/pull.ts:158 | After the store, the key maps to the new pages, and every other key's lookup is unchanged. |
| Pull.SetTabKeys | src/pull.ts:158 | A known key keeps its place. A new key is added last. Distinct keys stay distinct. |
| Pull.EachTabGetsItsOwnRegistry | src/pull.ts:130-158 | After a run with no error, every tab whose lowercased title no later tab shares finds under that title exactly what its own walk registered. The current pages are the last tab's. |
| Pull.CrawlTabsRegistry | src/pull.ts:130-160 | The registry changes only once a tab has started. Keys stay distinct. |
| Pull.Puller.constructor | src/pull.ts:43-51 | All counters start at 0, and the registries start empty. |
| Pull.Puller.GetTabsPagesRecursively | src/pull.ts:166-288 | Appends `Walk`'s pages to `currentTabPages` and adds its empty-page count. It returns its error. Nothing else changes. |
| Pull.Puller.RegisterPage | src/pull.ts:189-287 | The four cases, once the page and its content are known, append exactly `WalkPage`'s pages, add its empty count and return its error. |
| Pull.Puller.VisitCategory | src/pull.ts:211-232 | A category's children are walked, and then its links are registered only if no child failed. The result is exactly `WalkChildren` followed by `LinkPages`. |
| Pull.Puller.VisitChildren | src/pull.ts:212-220 | The child loop appends exactly what `WalkChildren` registers. |
| Pull.Puller.PushLinks | src/pull.ts:221-232 | The link loop appends exactly what `LinkPages` registers and counts nothing. |
| Pull.Puller.GetTabs | src/pull.ts:107-161 | The registry, the current tab's pages, the empty-page count and the error are those of `TabsOf`. When a tab started, the strategy is a fresh instance rooted at the markdown output path. |
| Pull.Puller.PullTabs | src/pull.ts:130-160 | The tab loop leaves exactly `CrawlTabs`: registry, empty count and error. It stops at the first error. Keys stay distinct. |
| Pull.Puller.NextTab | src/pull.ts:130-159 | One pass: the tab is fetched and pulled, and its pages are stored under its lowercased title only if its walk succeeded, exactly as `CrawlTab` says. |
| Pull.Puller.PullTab | src/pull.ts:143-154 | A fresh strategy rooted at the output path becomes the module-level one. The tab's pages are reset and then walked. |
| Pull.Puller.WritePage | src/pull.ts:290-295 | Writes the page's markdown to the lowercased path given by the module-level strategy, and adds 1 to `output_normally`. |
| Pull.Puller.OutputTab | src/pull.ts:471-482 | Writes exactly `TabWrites` for the tab. `output_normally` grows by the number of writes, and `skipped_because_status` by `StatusSkips`. |
| Pull.Puller.OutputPages | src/pull.ts:446-489 | Writes exactly `Writes` of the registry, using the last tab's strategy root. `skipped_because_status` ends as the last tab's count. |
| Pull.PublishedMembership | src/pull.ts:476-481 | A page is written iff it is not a database page whose status differs from a tag other than `*`. |
| Pull.StatusPartition | src/pull.ts:476-481 | Every page of a tab is either written or skipped for status, never both. |
| Pull.NothingSkippedWithoutStatusFilter | src/pull.ts:476 | With tag `*`, or when no page is a database page, nothing is skipped. |
| Pull.TabWritesArePublishedPages | src/pull.ts:471-481 | One file per published page, in order, each holding that page's rendered markdown. |

## Left out

- Logging (`warning`, `verbose`, `info`, `group`, `error`) and the `label` and `isLink` parameters, which only feed log messages. They are I/O only.
- The token bucket and `setTimeout`. `Retry` records the token it takes and the sleeps it requests as effects. It does not model waiting or real time.
- `Retry.ExecuteWithRateLimitAndRetries`: a thrown value without a `message`, whose code is not the timeout code, makes the JavaScript classifier throw a `TypeError`. That error is modelled as a fixed exception value (`MessageTypeError`), not as the real TypeError object.
- Thrown values are modelled as objects with an optional `code` and an optional `message` (`Exception`). A thrown `null` or `undefined`, for which reading `e.message` itself fails in the classifier, has no representation.
- File-system effects. `writeFileSync` becomes an append to the `written` log. `mkdir` of the output root and `readdirSync`/`statSync` are left out; the listing is modelled over a `DirEntry` tree. Symbolic links are not distinguished.
- `process.exit(1)` on a partial block becomes the `NotFullBlocks` error. Any thrown error stops the run through the error part of a `Result` or `Crawl`.
- Termination on cyclic or unbounded remote data. The crawl depth is bounded by a `fuel` parameter (`OutlineTooDeep`), and the cursor chain by `Remote.maxPages` (`CursorChainTooLong`). The code itself has no such bounds.
- `HierarchicalNamedLayoutStrategy.newLevel`/`getPathForPage` are not part of this model; they are function parameters.
- `NotionPage` and its getters (`matchesLinkId`, `getContentInfo`) are not part of this model. `slug`, `nameOrTitle`, `type` and `status` are fields of `Metadata`, and the other two are function parameters.
- Markdown rendering (`getMarkdownForPage`, `NotionToMarkdown`) and `loadConfigAsync` are left out. The renderer is a function of the tab and the page.
- The context fields `outputPages` sets for the renderer (`directoryContainingMarkdown`, `relativeFilePathToFolderContainingPage`, `imports`) are left out. They only matter to the renderer.
- The `notionPull` driver is left out: the root-page reachability check, option redaction, image setup, and the call sequence.
- `src/plugins/ColumnListTransformer.ts` is left out. It is glue around an unseen renderer.
- `Lower`: `toLowerCase` is modelled on ASCII letters only.
- JavaScript enumerates integer-like object keys (such as a tab titled `2024`) in numeric order before the other keys. The model enumerates tabs in insertion order.
- `Puller.currentTabPages` starts as `[]`. In the code it is `undefined` until the first tab starts.
- Full JavaScript regular-expression semantics. Each of the two patterns is a scanner proved equal to a declarative description of the pattern.
