/** The outline crawler of src/pull.ts: the module-level state (`layoutStrategy`,
    `allTabsPages`, `currentTabPages`, `counts`) becomes the fields of a
    `Puller`, and `getTabs`, `getTabsPagesRecursively` and `outputPages` its
    methods.  Each method is proved against a function that says, for the
    whole crawl, which pages are registered, which are counted and where the
    run stops. */
module Pull {
  import opened Common
  import opened Notion
  import BlockChildren
  import Layout
  import InternalLinks

  /** `layoutStrategy.newLevel(rootDir, order, context, title)`: the layout
      context of a new sidebar level.  It belongs to
      HierarchicalNamedLayoutStrategy, which is not part of this model. */
  type NewLevel = (string, int, string, string) -> string

  /** `layoutStrategy.getPathForPage(page, extension)`, given the strategy's
      root directory (HierarchicalNamedLayoutStrategy). */
  type PathForPage = (string, NotionPage, string) -> string

  /** `getMarkdownForPage(context, page)`, given the current tab. */
  type Render = (string, NotionPage) -> string

  type TabPages = InternalLinks.TabPages

  /** The options the core reads. */
  datatype Options = Options(rootPage: string, markdownOutputPath: string, statusTag: string)

  /** The module-level `counts` object. */
  datatype Counts = Counts(outputNormally: nat, skippedBecauseEmpty: nat, skippedBecauseStatus: nat)

  const CategoryIndexSubtype := "categoryindex"
  const AnyStatus := "*"
  const MarkdownExtension := ".mdx"

  /** `fromPageId`: the page record built from the retrieved metadata. */
  function FromPageId(remote: Remote, layoutContext: string, parentId: string, pageId: string,
                      order: int, foundDirectlyInOutline: bool): (r: Result<NotionPage, FetchError>)
    ensures r.Failure? <==> remote.retrieve(pageId).Rejected?
    ensures r.Failure? ==> r.error == Thrown(remote.retrieve(pageId).error)
    ensures r.Success? ==>
      && r.value.pageId == pageId && r.value.metadata == remote.retrieve(pageId).value
      && r.value.layoutContext == layoutContext && r.value.parentId == parentId
      && r.value.order == order && r.value.foundDirectlyInOutline == foundDirectlyInOutline
  {
    match remote.retrieve(pageId)
    case Rejected(e) => Failure(Thrown(e))
    case Resolved(metadata) =>
      Success(NotionPage(layoutContext, parentId, pageId, order, metadata, foundDirectlyInOutline))
  }

  // ---------------------------------------------------------------------
  // Classifying a page

  /** The four cases of `getTabsPagesRecursively`. */
  datatype Category = IndexedCategory | UnindexedCategory | ContentPage | EmptyPage

  predicate HasChildrenOrLinks(info: ContentInfo) {
    |info.childPageIdsAndOrder| > 0 || |info.linksPageIdsAndOrder| > 0
  }

  /** Exactly one case applies to every page, decided by whether it has
      content and whether it has child pages or links. */
  function Classify(info: ContentInfo): (c: Category)
    ensures c == IndexedCategory <==> info.hasContent && HasChildrenOrLinks(info)
    ensures c == UnindexedCategory <==> !info.hasContent && HasChildrenOrLinks(info)
    ensures c == ContentPage <==> info.hasContent && !HasChildrenOrLinks(info)
    ensures c == EmptyPage <==> !info.hasContent && !HasChildrenOrLinks(info)
  {
    if info.hasContent && HasChildrenOrLinks(info) then IndexedCategory
    else if !info.hasContent && HasChildrenOrLinks(info) then UnindexedCategory
    else if info.hasContent then ContentPage
    else EmptyPage
  }

  /** A category page as registered: flagged as an index and placed at its
      own new level. */
  function IndexPage(page: NotionPage, layoutContext: string): NotionPage {
    page.(layoutContext := layoutContext,
          metadata := page.metadata.(subtype := Some(CategoryIndexSubtype)))
  }

  // ---------------------------------------------------------------------
  // The crawl as a function

  /** What a part of the crawl appends to the registry, how many empty pages
      it counts, and the error that stopped it, if any. */
  datatype Crawl = Crawl(pages: seq<NotionPage>, skipped: nat, error: Option<FetchError>) {
    /** This part followed by `next`, which does not run once this one stopped. */
    function Then(next: Crawl): Crawl {
      if error.Some? then this
      else Crawl(pages + next.pages, skipped + next.skipped, next.error)
    }
  }

  const Nothing := Crawl([], 0, None)

  function Fail(e: FetchError): Crawl {
    Crawl([], 0, Some(e))
  }

  /** `getTabsPagesRecursively(options, incomingContext, parentId, pageId, pageOrder)`;
      `fuel` bounds the depth of the outline the model follows. */
  function Walk(remote: Remote, newLevel: NewLevel, options: Options, incomingContext: string,
                parentId: string, pageId: string, pageOrder: int, fuel: nat): Crawl
    decreases fuel, 0
  {
    if fuel == 0 then Fail(OutlineTooDeep(pageId))
    else match FromPageId(remote, incomingContext, parentId, pageId, pageOrder, true)
    case Failure(e) => Fail(e)
    case Success(currentPage) =>
      match BlockChildren.BlockChildrenOf(remote, currentPage.pageId)
      case Failure(e) => Fail(e)
      case Success(r) => WalkPage(remote, newLevel, options, incomingContext, currentPage, remote.contentInfo(r), fuel - 1)
  }

  /** The page `currentPage`, fetched with content `info`, registered by its
      category; `fuel` is left for its children. */
  function WalkPage(remote: Remote, newLevel: NewLevel, options: Options, incomingContext: string,
                    currentPage: NotionPage, info: ContentInfo, fuel: nat): Crawl
    decreases fuel, 2
  {
    var level := newLevel(options.markdownOutputPath, currentPage.order, incomingContext,
                          currentPage.metadata.nameOrTitle);
    match Classify(info)
    case IndexedCategory =>
      Crawl([IndexPage(currentPage, level)], 0, None)
        .Then(WalkChildren(remote, newLevel, options, level, currentPage.pageId, info.childPageIdsAndOrder, fuel))
        .Then(LinkPages(remote, level, currentPage.pageId, info.linksPageIdsAndOrder))
    case UnindexedCategory =>
      WalkChildren(remote, newLevel, options, level, currentPage.pageId, info.childPageIdsAndOrder, fuel)
        .Then(LinkPages(remote, level, currentPage.pageId, info.linksPageIdsAndOrder))
    case ContentPage => Crawl([currentPage], 0, None)
    case EmptyPage => Crawl([], 1, None)
  }

  /** The children walked one after the other, in listing order. */
  function WalkChildren(remote: Remote, newLevel: NewLevel, options: Options, layoutContext: string,
                        parentId: string, children: seq<PageRef>, fuel: nat): Crawl
    decreases fuel, 1, |children|
  {
    if children == [] then Nothing
    else
      var last := children[|children| - 1];
      WalkChildren(remote, newLevel, options, layoutContext, parentId, children[..|children| - 1], fuel)
        .Then(Walk(remote, newLevel, options, layoutContext, parentId, last.id, last.order, fuel))
  }

  /** A linked page, registered as it is, without being walked. */
  function LinkPage(remote: Remote, layoutContext: string, parentId: string, link: PageRef): Crawl {
    match FromPageId(remote, layoutContext, parentId, link.id, link.order, false)
    case Failure(e) => Fail(e)
    case Success(page) => Crawl([page], 0, None)
  }

  function LinkPages(remote: Remote, layoutContext: string, parentId: string, links: seq<PageRef>): Crawl
    decreases |links|
  {
    if links == [] then Nothing
    else
      LinkPages(remote, layoutContext, parentId, links[..|links| - 1])
        .Then(LinkPage(remote, layoutContext, parentId, links[|links| - 1]))
  }

  // ---------------------------------------------------------------------
  // Properties of the crawl

  /** Once a part of the crawl has stopped, nothing after it runs. */
  lemma ErrorIsFinal(c: Crawl, next: Crawl)
    requires c.error.Some?
    ensures c.Then(next) == c
  {
  }

  lemma ThenAssociative(a: Crawl, b: Crawl, c: Crawl)
    ensures a.Then(b).Then(c) == a.Then(b.Then(c))
  {
    if a.error.None? && b.error.None? {
      AppendAssociative(a.pages, b.pages, c.pages);
    }
  }

  /** A child list cut at a child whose walk stopped gives the same crawl as
      the whole list: the remaining children are never visited. */
  lemma {:induction false} WalkChildrenStops(remote: Remote, newLevel: NewLevel, options: Options, layoutContext: string,
                                             parentId: string, children: seq<PageRef>, fuel: nat, i: nat)
    requires i <= |children|
    requires WalkChildren(remote, newLevel, options, layoutContext, parentId, children[..i], fuel).error.Some?
    ensures WalkChildren(remote, newLevel, options, layoutContext, parentId, children, fuel) ==
            WalkChildren(remote, newLevel, options, layoutContext, parentId, children[..i], fuel)
    decreases |children| - i
  {
    if i < |children| {
      var n := |children|;
      assert children[..n - 1][..i] == children[..i];
      WalkChildrenStops(remote, newLevel, options, layoutContext, parentId, children[..n - 1], fuel, i);
    } else {
      assert children[..i] == children;
    }
  }

  lemma {:induction false} LinkPagesStops(remote: Remote, layoutContext: string, parentId: string, links: seq<PageRef>, i: nat)
    requires i <= |links|
    requires LinkPages(remote, layoutContext, parentId, links[..i]).error.Some?
    ensures LinkPages(remote, layoutContext, parentId, links) == LinkPages(remote, layoutContext, parentId, links[..i])
    decreases |links| - i
  {
    if i < |links| {
      var n := |links|;
      assert links[..n - 1][..i] == links[..i];
      LinkPagesStops(remote, layoutContext, parentId, links[..n - 1], i);
    } else {
      assert links[..i] == links;
    }
  }

  /** Linked pages are registered one per link, in link order, at the given
      layout context, under the linking page, never as found in the outline,
      and none of them is walked: nothing is counted as empty. */
  lemma {:induction false} LinkPagesAreTheLinks(remote: Remote, layoutContext: string, parentId: string, links: seq<PageRef>)
    requires LinkPages(remote, layoutContext, parentId, links).error.None?
    ensures var c := LinkPages(remote, layoutContext, parentId, links);
      && |c.pages| == |links| && c.skipped == 0
      && forall k :: 0 <= k < |links| ==>
           && c.pages[k].pageId == links[k].id && c.pages[k].order == links[k].order
           && c.pages[k].layoutContext == layoutContext && c.pages[k].parentId == parentId
           && !c.pages[k].foundDirectlyInOutline
           && remote.retrieve(links[k].id) == Resolved(c.pages[k].metadata)
    decreases |links|
  {
    if links != [] {
      var n := |links|;
      var prefix := LinkPages(remote, layoutContext, parentId, links[..n - 1]);
      LinkPagesAreTheLinks(remote, layoutContext, parentId, links[..n - 1]);
      var c := LinkPages(remote, layoutContext, parentId, links);
      forall k | 0 <= k < n - 1 ensures c.pages[k] == prefix.pages[k] && links[k] == links[..n - 1][k] {
      }
    }
  }

  /** The registered page carries the metadata the service returned for its
      id, except for the index flag the crawler may have set. */
  predicate IsFetched(remote: Remote, p: NotionPage) {
    && remote.retrieve(p.pageId).Resolved?
    && p.metadata.(subtype := remote.retrieve(p.pageId).value.subtype) == remote.retrieve(p.pageId).value
    && (p.metadata.subtype == remote.retrieve(p.pageId).value.subtype ||
        p.metadata.subtype == Some(CategoryIndexSubtype))
  }

  predicate AllFetched(remote: Remote, pages: seq<NotionPage>) {
    forall k :: 0 <= k < |pages| ==> IsFetched(remote, pages[k])
  }

  lemma ThenFetched(remote: Remote, a: Crawl, b: Crawl)
    requires AllFetched(remote, a.pages) && AllFetched(remote, b.pages)
    ensures AllFetched(remote, a.Then(b).pages)
  {
    if a.error.None? {
      var p := a.pages + b.pages;
      forall k | 0 <= k < |p| ensures IsFetched(remote, p[k]) {
        if k >= |a.pages| { assert p[k] == b.pages[k - |a.pages|]; }
      }
    }
  }

  /** Every page the crawl registers is a page the service returned, under
      the id it was fetched by. */
  lemma {:induction false} WalkRegistersFetchedPages(remote: Remote, newLevel: NewLevel, options: Options,
                                                     incomingContext: string, parentId: string, pageId: string,
                                                     pageOrder: int, fuel: nat)
    ensures AllFetched(remote, Walk(remote, newLevel, options, incomingContext, parentId, pageId, pageOrder, fuel).pages)
    decreases fuel, 0
  {
    if fuel > 0 {
      var fetched := FromPageId(remote, incomingContext, parentId, pageId, pageOrder, true);
      if fetched.Success? {
        var currentPage := fetched.value;
        var children := BlockChildren.BlockChildrenOf(remote, currentPage.pageId);
        if children.Success? {
          var info := remote.contentInfo(children.value);
          var level := newLevel(options.markdownOutputPath, currentPage.order, incomingContext,
                                currentPage.metadata.nameOrTitle);
          var walked := WalkChildren(remote, newLevel, options, level, currentPage.pageId, info.childPageIdsAndOrder, fuel - 1);
          var linked := LinkPages(remote, level, currentPage.pageId, info.linksPageIdsAndOrder);
          WalkChildrenRegistersFetchedPages(remote, newLevel, options, level, currentPage.pageId, info.childPageIdsAndOrder, fuel - 1);
          LinkPagesRegisterFetchedPages(remote, level, currentPage.pageId, info.linksPageIdsAndOrder);
          var head := Crawl([IndexPage(currentPage, level)], 0, None);
          ThenFetched(remote, head, walked);
          ThenFetched(remote, head.Then(walked), linked);
          ThenFetched(remote, walked, linked);
        }
      }
    }
  }

  lemma {:induction false} WalkChildrenRegistersFetchedPages(remote: Remote, newLevel: NewLevel, options: Options,
                                                             layoutContext: string, parentId: string,
                                                             children: seq<PageRef>, fuel: nat)
    ensures AllFetched(remote, WalkChildren(remote, newLevel, options, layoutContext, parentId, children, fuel).pages)
    decreases fuel, 1, |children|
  {
    if children != [] {
      var n := |children|;
      var last := children[n - 1];
      WalkChildrenRegistersFetchedPages(remote, newLevel, options, layoutContext, parentId, children[..n - 1], fuel);
      WalkRegistersFetchedPages(remote, newLevel, options, layoutContext, parentId, last.id, last.order, fuel);
      ThenFetched(remote, WalkChildren(remote, newLevel, options, layoutContext, parentId, children[..n - 1], fuel),
                  Walk(remote, newLevel, options, layoutContext, parentId, last.id, last.order, fuel));
    }
  }

  lemma {:induction false} LinkPagesRegisterFetchedPages(remote: Remote, layoutContext: string, parentId: string, links: seq<PageRef>)
    ensures AllFetched(remote, LinkPages(remote, layoutContext, parentId, links).pages)
    decreases |links|
  {
    if links != [] {
      var n := |links|;
      LinkPagesRegisterFetchedPages(remote, layoutContext, parentId, links[..n - 1]);
      ThenFetched(remote, LinkPages(remote, layoutContext, parentId, links[..n - 1]),
                  LinkPage(remote, layoutContext, parentId, links[n - 1]));
    }
  }

  /** The outcome of the page's own fetches: its record and its content. */
  predicate Visited(remote: Remote, incomingContext: string, parentId: string, pageId: string, pageOrder: int,
                    page: NotionPage, info: ContentInfo)
  {
    && FromPageId(remote, incomingContext, parentId, pageId, pageOrder, true) == Success(page)
    && BlockChildren.BlockChildrenOf(remote, pageId).Success?
    && remote.contentInfo(BlockChildren.BlockChildrenOf(remote, pageId).value) == info
  }

  /** A page that was fetched and listed is registered by its category. */
  lemma WalkVisited(remote: Remote, newLevel: NewLevel, options: Options, incomingContext: string,
                    parentId: string, pageId: string, pageOrder: int, fuel: nat,
                    page: NotionPage, info: ContentInfo)
    requires fuel > 0 && Visited(remote, incomingContext, parentId, pageId, pageOrder, page, info)
    ensures page.pageId == pageId && page.order == pageOrder
    ensures Walk(remote, newLevel, options, incomingContext, parentId, pageId, pageOrder, fuel) ==
            WalkPage(remote, newLevel, options, incomingContext, page, info, fuel - 1)
  {
  }

  /** A category page: itself, when it has content, then its children walked
      at its new level, then its links at that level. */
  lemma CategoryCrawl(remote: Remote, newLevel: NewLevel, options: Options, incomingContext: string,
                      parentId: string, pageId: string, pageOrder: int, fuel: nat,
                      page: NotionPage, info: ContentInfo)
    requires fuel > 0 && Visited(remote, incomingContext, parentId, pageId, pageOrder, page, info)
    requires HasChildrenOrLinks(info)
    ensures page.pageId == pageId && page.foundDirectlyInOutline
    ensures var level := newLevel(options.markdownOutputPath, pageOrder, incomingContext, page.metadata.nameOrTitle);
      var walked := WalkChildren(remote, newLevel, options, level, pageId, info.childPageIdsAndOrder, fuel - 1);
      var linked := LinkPages(remote, level, pageId, info.linksPageIdsAndOrder);
      Walk(remote, newLevel, options, incomingContext, parentId, pageId, pageOrder, fuel) ==
        (if info.hasContent then Crawl([IndexPage(page, level)], 0, None).Then(walked) else walked).Then(linked)
  {
    WalkVisited(remote, newLevel, options, incomingContext, parentId, pageId, pageOrder, fuel, page, info);
  }

  /** The shape of an index page followed by two parts of the crawl, the
      second of which registers one page per link. */
  lemma IndexedShape(c: Crawl, index: NotionPage, walked: Crawl, linked: Crawl, links: seq<PageRef>, level: string)
    requires c == Crawl([index], 0, None).Then(walked).Then(linked) && c.error.None?
    requires |linked.pages| == |links| && linked.skipped == 0
    requires forall k :: 0 <= k < |links| ==>
      linked.pages[k].pageId == links[k].id && linked.pages[k].layoutContext == level &&
      !linked.pages[k].foundDirectlyInOutline
    ensures |c.pages| == 1 + |walked.pages| + |links| && c.pages[0] == index
    ensures c.pages[1..1 + |walked.pages|] == walked.pages
    ensures forall k :: 1 + |walked.pages| <= k < |c.pages| ==>
      c.pages[k].pageId == links[k - 1 - |walked.pages|].id && c.pages[k].layoutContext == level &&
      !c.pages[k].foundDirectlyInOutline
    ensures c.skipped == walked.skipped
  {
    assert c.pages == [index] + walked.pages + linked.pages;
    assert c.pages[1..1 + |walked.pages|] == walked.pages;
    forall k | 1 + |walked.pages| <= k < |c.pages|
      ensures c.pages[k] == linked.pages[k - 1 - |walked.pages|]
    {
    }
  }

  /** The shape of two parts of the crawl, the second of which registers one
      page per link. */
  lemma UnindexedShape(c: Crawl, walked: Crawl, linked: Crawl, links: seq<PageRef>, level: string)
    requires c == walked.Then(linked) && c.error.None?
    requires |linked.pages| == |links| && linked.skipped == 0
    requires forall k :: 0 <= k < |links| ==>
      linked.pages[k].pageId == links[k].id && linked.pages[k].layoutContext == level &&
      !linked.pages[k].foundDirectlyInOutline
    ensures |c.pages| == |walked.pages| + |links|
    ensures c.pages[..|walked.pages|] == walked.pages
    ensures forall k :: |walked.pages| <= k < |c.pages| ==>
      c.pages[k].pageId == links[k - |walked.pages|].id && c.pages[k].layoutContext == level &&
      !c.pages[k].foundDirectlyInOutline
    ensures c.skipped == walked.skipped
  {
    assert c.pages == walked.pages + linked.pages;
    assert c.pages[..|walked.pages|] == walked.pages;
    forall k | |walked.pages| <= k < |c.pages|
      ensures c.pages[k] == linked.pages[k - |walked.pages|]
    {
    }
  }

  /** An empty page registers nothing and is counted exactly once. */
  lemma EmptyPageCountedOnce(remote: Remote, newLevel: NewLevel, options: Options, incomingContext: string,
                             parentId: string, pageId: string, pageOrder: int, fuel: nat,
                             page: NotionPage, info: ContentInfo)
    requires fuel > 0 && Visited(remote, incomingContext, parentId, pageId, pageOrder, page, info)
    requires !info.hasContent && |info.childPageIdsAndOrder| == 0 && |info.linksPageIdsAndOrder| == 0
    ensures Walk(remote, newLevel, options, incomingContext, parentId, pageId, pageOrder, fuel) == Crawl([], 1, None)
  {
  }

  /** A content page without children or links is registered alone, at the
      layout context it was reached with, without a new level. */
  lemma ContentPageKeepsContext(remote: Remote, newLevel: NewLevel, options: Options, incomingContext: string,
                                parentId: string, pageId: string, pageOrder: int, fuel: nat,
                                page: NotionPage, info: ContentInfo)
    requires fuel > 0 && Visited(remote, incomingContext, parentId, pageId, pageOrder, page, info)
    requires info.hasContent && !HasChildrenOrLinks(info)
    ensures var c := Walk(remote, newLevel, options, incomingContext, parentId, pageId, pageOrder, fuel);
      c.error.None? && c.skipped == 0 && |c.pages| == 1 &&
      c.pages[0].layoutContext == incomingContext && c.pages[0].pageId == pageId &&
      c.pages[0].foundDirectlyInOutline && c.pages[0].metadata == remote.retrieve(pageId).value
  {
  }

  /** A category with an index: the page comes first, at its new level and
      flagged as an index; then everything its children register, walked at
      that level in listing order; then its links, at the same level. */
  lemma IndexedCategoryOrder(remote: Remote, newLevel: NewLevel, options: Options, incomingContext: string,
                             parentId: string, pageId: string, pageOrder: int, fuel: nat,
                             page: NotionPage, info: ContentInfo)
    requires fuel > 0 && Visited(remote, incomingContext, parentId, pageId, pageOrder, page, info)
    requires info.hasContent && HasChildrenOrLinks(info)
    requires Walk(remote, newLevel, options, incomingContext, parentId, pageId, pageOrder, fuel).error.None?
    ensures var c := Walk(remote, newLevel, options, incomingContext, parentId, pageId, pageOrder, fuel);
      var level := newLevel(options.markdownOutputPath, pageOrder, incomingContext, page.metadata.nameOrTitle);
      var walked := WalkChildren(remote, newLevel, options, level, pageId, info.childPageIdsAndOrder, fuel - 1);
      var links := info.linksPageIdsAndOrder;
      && |c.pages| == 1 + |walked.pages| + |links|
      && c.pages[0].pageId == pageId && c.pages[0].layoutContext == level
      && c.pages[0].metadata.subtype == Some(CategoryIndexSubtype) && c.pages[0].foundDirectlyInOutline
      && c.pages[1..1 + |walked.pages|] == walked.pages
      && (forall k :: 1 + |walked.pages| <= k < |c.pages| ==>
            c.pages[k].pageId == links[k - 1 - |walked.pages|].id && c.pages[k].layoutContext == level &&
            !c.pages[k].foundDirectlyInOutline)
      && c.skipped == walked.skipped
  {
    var level := newLevel(options.markdownOutputPath, pageOrder, incomingContext, page.metadata.nameOrTitle);
    var walked := WalkChildren(remote, newLevel, options, level, pageId, info.childPageIdsAndOrder, fuel - 1);
    var linked := LinkPages(remote, level, pageId, info.linksPageIdsAndOrder);
    CategoryCrawl(remote, newLevel, options, incomingContext, parentId, pageId, pageOrder, fuel, page, info);
    LinkPagesAreTheLinks(remote, level, pageId, info.linksPageIdsAndOrder);
    IndexedShape(Walk(remote, newLevel, options, incomingContext, parentId, pageId, pageOrder, fuel),
                 IndexPage(page, level), walked, linked, info.linksPageIdsAndOrder, level);
  }

  /** A category without an index never registers the page itself: what it
      registers is what its children register, walked at its new level,
      followed by its links at that level. */
  lemma UnindexedCategoryOmitsPage(remote: Remote, newLevel: NewLevel, options: Options, incomingContext: string,
                                   parentId: string, pageId: string, pageOrder: int, fuel: nat,
                                   page: NotionPage, info: ContentInfo)
    requires fuel > 0 && Visited(remote, incomingContext, parentId, pageId, pageOrder, page, info)
    requires !info.hasContent && HasChildrenOrLinks(info)
    requires Walk(remote, newLevel, options, incomingContext, parentId, pageId, pageOrder, fuel).error.None?
    ensures var c := Walk(remote, newLevel, options, incomingContext, parentId, pageId, pageOrder, fuel);
      var level := newLevel(options.markdownOutputPath, pageOrder, incomingContext, page.metadata.nameOrTitle);
      var walked := WalkChildren(remote, newLevel, options, level, pageId, info.childPageIdsAndOrder, fuel - 1);
      var links := info.linksPageIdsAndOrder;
      && |c.pages| == |walked.pages| + |links|
      && c.pages[..|walked.pages|] == walked.pages
      && (forall k :: |walked.pages| <= k < |c.pages| ==>
            c.pages[k].pageId == links[k - |walked.pages|].id && c.pages[k].layoutContext == level &&
            !c.pages[k].foundDirectlyInOutline)
      && c.skipped == walked.skipped
  {
    var level := newLevel(options.markdownOutputPath, pageOrder, incomingContext, page.metadata.nameOrTitle);
    var walked := WalkChildren(remote, newLevel, options, level, pageId, info.childPageIdsAndOrder, fuel - 1);
    var linked := LinkPages(remote, level, pageId, info.linksPageIdsAndOrder);
    CategoryCrawl(remote, newLevel, options, incomingContext, parentId, pageId, pageOrder, fuel, page, info);
    LinkPagesAreTheLinks(remote, level, pageId, info.linksPageIdsAndOrder);
    UnindexedShape(Walk(remote, newLevel, options, incomingContext, parentId, pageId, pageOrder, fuel),
                   walked, linked, info.linksPageIdsAndOrder, level);
  }

  // ---------------------------------------------------------------------
  // Tabs

  /** The keys of the registry, in enumeration order. */
  function Keys(registry: TabPages): (r: seq<string>)
    ensures |r| == |registry|
  {
    if registry == [] then [] else [registry[0].0] + Keys(registry[1..])
  }

  /** No key is stored twice. */
  predicate DistinctKeys(registry: TabPages) {
    registry == [] || (registry[0].0 !in Keys(registry[1..]) && DistinctKeys(registry[1..]))
  }

  /** `allTabsPages[key]` */
  function Lookup(registry: TabPages, key: string): Option<seq<NotionPage>> {
    if registry == [] then None
    else if registry[0].0 == key then Some(registry[0].1)
    else Lookup(registry[1..], key)
  }

  /** `allTabsPages[key] = pages`: a known key keeps its place, a new one is
      added last. */
  function SetTab(registry: TabPages, key: string, pages: seq<NotionPage>): (r: TabPages)
    ensures Lookup(r, key) == Some(pages)
    ensures forall k :: k != key ==> Lookup(r, k) == Lookup(registry, k)
  {
    if registry == [] then [(key, pages)]
    else if registry[0].0 == key then [(key, pages)] + registry[1..]
    else [registry[0]] + SetTab(registry[1..], key, pages)
  }

  /** Storing under a known key keeps the keys and their order; a new key is
      added last; distinct keys stay distinct. */
  lemma {:induction false} SetTabKeys(registry: TabPages, key: string, pages: seq<NotionPage>)
    ensures var r := SetTab(registry, key, pages);
      && (key in Keys(registry) ==> Keys(r) == Keys(registry))
      && (key !in Keys(registry) ==> Keys(r) == Keys(registry) + [key])
      && (DistinctKeys(registry) ==> DistinctKeys(r))
    decreases |registry|
  {
    if registry != [] && registry[0].0 != key {
      var rest := SetTab(registry[1..], key, pages);
      SetTabKeys(registry[1..], key, pages);
      assert SetTab(registry, key, pages)[1..] == rest;
      assert [registry[0].0] + (Keys(registry[1..]) + [key]) == [registry[0].0] + Keys(registry[1..]) + [key];
    } else if registry != [] {
      assert SetTab(registry, key, pages)[1..] == registry[1..];
    }
  }

  /** What `getTabs` leaves behind: the registry of all tabs, the pages of the
      last tab it started (none if it started none), the empty pages counted,
      and the error that stopped it. */
  datatype TabsRun = TabsRun(registry: TabPages, current: Option<seq<NotionPage>>, skipped: nat, error: Option<FetchError>)

  /** One pass of the tab loop of `getTabs`, after the passes summed up in
      `prev`: the tab is fetched, walked from the root page with an empty
      layout context, and its pages stored under its lowercased title. */
  function CrawlTab(remote: Remote, newLevel: NewLevel, options: Options, incomingContext: string,
                    parentId: string, prev: TabsRun, tabRef: PageRef, fuel: nat): TabsRun
  {
    if prev.error.Some? then prev
    else match FromPageId(remote, incomingContext, parentId, tabRef.id, tabRef.order, false)
      case Failure(e) => prev.(error := Some(e))
      case Success(currentTab) =>
        var c := Walk(remote, newLevel, options, "", options.rootPage, currentTab.pageId, 0, fuel);
        var registry' :=
          if c.error.None? then SetTab(prev.registry, Lower(currentTab.metadata.nameOrTitle), c.pages)
          else prev.registry;
        TabsRun(registry', Some(c.pages), prev.skipped + c.skipped, c.error)
  }

  /** The tab loop of `getTabs` over `tabs`, from the registry `registry`. */
  function CrawlTabs(remote: Remote, newLevel: NewLevel, options: Options, incomingContext: string,
                     parentId: string, registry: TabPages, tabs: seq<PageRef>, fuel: nat): TabsRun
    decreases |tabs|
  {
    if tabs == [] then TabsRun(registry, None, 0, None)
    else
      CrawlTab(remote, newLevel, options, incomingContext, parentId,
               CrawlTabs(remote, newLevel, options, incomingContext, parentId, registry, tabs[..|tabs| - 1], fuel),
               tabs[|tabs| - 1], fuel)
  }

  /** `getTabs(options, incomingContext, parentId, pageId)`: the tabs are the
      child pages of the root page. */
  function TabsOf(remote: Remote, newLevel: NewLevel, options: Options, incomingContext: string,
                  parentId: string, pageId: string, registry: TabPages, fuel: nat): TabsRun
  {
    match FromPageId(remote, "", parentId, pageId, 0, true)
    case Failure(e) => TabsRun(registry, None, 0, Some(e))
    case Success(rootPage) =>
      match BlockChildren.BlockChildrenOf(remote, rootPage.pageId)
      case Failure(e) => TabsRun(registry, None, 0, Some(e))
      case Success(r) =>
        CrawlTabs(remote, newLevel, options, incomingContext, parentId, registry,
                  remote.contentInfo(r).childPageIdsAndOrder, fuel)
  }

  lemma {:induction false} CrawlTabsStops(remote: Remote, newLevel: NewLevel, options: Options, incomingContext: string,
                                          parentId: string, registry: TabPages, tabs: seq<PageRef>, fuel: nat, i: nat)
    requires i <= |tabs|
    requires CrawlTabs(remote, newLevel, options, incomingContext, parentId, registry, tabs[..i], fuel).error.Some?
    ensures CrawlTabs(remote, newLevel, options, incomingContext, parentId, registry, tabs, fuel) ==
            CrawlTabs(remote, newLevel, options, incomingContext, parentId, registry, tabs[..i], fuel)
    decreases |tabs| - i
  {
    if i < |tabs| {
      var n := |tabs|;
      assert tabs[..n - 1][..i] == tabs[..i];
      CrawlTabsStops(remote, newLevel, options, incomingContext, parentId, registry, tabs[..n - 1], fuel, i);
    } else {
      assert tabs[..i] == tabs;
    }
  }

  /** The key a tab is stored under: its lowercased title, once retrieved. */
  function TabKey(remote: Remote, tabId: string): Option<string> {
    match remote.retrieve(tabId)
    case Resolved(metadata) => Some(Lower(metadata.nameOrTitle))
    case Rejected(_) => None
  }

  /** After a run with no error, every tab whose lowercased title no later tab
      shares finds, under that title, what its own walk registered and
      nothing from the other tabs; the pages of the last tab are the current
      ones. */
  lemma {:induction false} EachTabGetsItsOwnRegistry(remote: Remote, newLevel: NewLevel, options: Options,
                                                     incomingContext: string, parentId: string,
                                                     registry: TabPages, tabs: seq<PageRef>, fuel: nat, i: nat)
    requires i < |tabs|
    requires CrawlTabs(remote, newLevel, options, incomingContext, parentId, registry, tabs, fuel).error.None?
    requires forall j :: i < j < |tabs| ==> TabKey(remote, tabs[j].id) != TabKey(remote, tabs[i].id)
    ensures var run := CrawlTabs(remote, newLevel, options, incomingContext, parentId, registry, tabs, fuel);
      && TabKey(remote, tabs[i].id).Some?
      && Lookup(run.registry, TabKey(remote, tabs[i].id).value) ==
           Some(Walk(remote, newLevel, options, "", options.rootPage, tabs[i].id, 0, fuel).pages)
      && run.current == Some(Walk(remote, newLevel, options, "", options.rootPage, tabs[|tabs| - 1].id, 0, fuel).pages)
    decreases |tabs|
  {
    var n := |tabs|;
    var prev := CrawlTabs(remote, newLevel, options, incomingContext, parentId, registry, tabs[..n - 1], fuel);
    var last := tabs[n - 1];
    CrawlTabStored(remote, newLevel, options, incomingContext, parentId, prev, last, fuel);
    if i < n - 1 {
      var init := tabs[..n - 1];
      forall j | i < j < |init| ensures TabKey(remote, init[j].id) != TabKey(remote, init[i].id) {
        assert init[j] == tabs[j] && init[i] == tabs[i];
      }
      EachTabGetsItsOwnRegistry(remote, newLevel, options, incomingContext, parentId, registry, init, fuel, i);
      assert init[i] == tabs[i];
      assert TabKey(remote, last.id) != TabKey(remote, tabs[i].id);
    }
  }

  /** A pass that ends without an error stores the tab's walk under its key. */
  lemma CrawlTabStored(remote: Remote, newLevel: NewLevel, options: Options, incomingContext: string,
                       parentId: string, prev: TabsRun, tabRef: PageRef, fuel: nat)
    requires CrawlTab(remote, newLevel, options, incomingContext, parentId, prev, tabRef, fuel).error.None?
    ensures prev.error.None? && TabKey(remote, tabRef.id).Some?
    ensures var run := CrawlTab(remote, newLevel, options, incomingContext, parentId, prev, tabRef, fuel);
      var c := Walk(remote, newLevel, options, "", options.rootPage, tabRef.id, 0, fuel);
      run.registry == SetTab(prev.registry, TabKey(remote, tabRef.id).value, c.pages) && run.current == Some(c.pages)
  {
  }

  /** The registry only changes once a tab has been started, and distinct keys
      stay distinct. */
  lemma {:induction false} CrawlTabsRegistry(remote: Remote, newLevel: NewLevel, options: Options,
                                             incomingContext: string, parentId: string,
                                             registry: TabPages, tabs: seq<PageRef>, fuel: nat)
    ensures var run := CrawlTabs(remote, newLevel, options, incomingContext, parentId, registry, tabs, fuel);
      && (run.current.None? ==> run.registry == registry)
      && (DistinctKeys(registry) ==> DistinctKeys(run.registry))
    decreases |tabs|
  {
    if tabs != [] {
      var prev := CrawlTabs(remote, newLevel, options, incomingContext, parentId, registry, tabs[..|tabs| - 1], fuel);
      CrawlTabsRegistry(remote, newLevel, options, incomingContext, parentId, registry, tabs[..|tabs| - 1], fuel);
      var tabRef := tabs[|tabs| - 1];
      var fetched := FromPageId(remote, incomingContext, parentId, tabRef.id, tabRef.order, false);
      if prev.error.None? && fetched.Success? {
        var c := Walk(remote, newLevel, options, "", options.rootPage, fetched.value.pageId, 0, fuel);
        SetTabKeys(prev.registry, Lower(fetched.value.metadata.nameOrTitle), c.pages);
      }
    }
  }

  // ---------------------------------------------------------------------
  // Status filter and output

  /** The test of `outputPages`: a database page whose status is not the
      wanted one, unless every status is wanted. */
  predicate SkippedForStatus(page: NotionPage, statusTag: string) {
    page.metadata.pageType == DatabasePage && statusTag != AnyStatus && page.metadata.status != Some(statusTag)
  }

  /** The pages of a tab that are written, in order. */
  function Published(pages: seq<NotionPage>, statusTag: string): seq<NotionPage>
    decreases |pages|
  {
    if pages == [] then []
    else
      var last := pages[|pages| - 1];
      Published(pages[..|pages| - 1], statusTag) + (if SkippedForStatus(last, statusTag) then [] else [last])
  }

  /** A page is written iff it belongs to the tab and is not skipped for its
      status. */
  lemma {:induction false} PublishedMembership(pages: seq<NotionPage>, statusTag: string, p: NotionPage)
    ensures p in Published(pages, statusTag) <==> p in pages && !SkippedForStatus(p, statusTag)
    decreases |pages|
  {
    if pages != [] {
      var init, last := pages[..|pages| - 1], pages[|pages| - 1];
      PublishedMembership(init, statusTag, p);
      assert pages == init + [last];
    }
  }

  /** How many pages of a tab are skipped for their status. */
  function StatusSkips(pages: seq<NotionPage>, statusTag: string): nat
    decreases |pages|
  {
    if pages == [] then 0
    else
      StatusSkips(pages[..|pages| - 1], statusTag) + (if SkippedForStatus(pages[|pages| - 1], statusTag) then 1 else 0)
  }

  /** Every page is either written or skipped for its status, never both. */
  lemma {:induction false} StatusPartition(pages: seq<NotionPage>, statusTag: string)
    ensures |Published(pages, statusTag)| + StatusSkips(pages, statusTag) == |pages|
    decreases |pages|
  {
    if pages != [] {
      StatusPartition(pages[..|pages| - 1], statusTag);
    }
  }

  /** With the tag `*`, or for pages that are not database pages, nothing is
      skipped. */
  lemma NothingSkippedWithoutStatusFilter(pages: seq<NotionPage>, statusTag: string)
    requires statusTag == AnyStatus || forall k :: 0 <= k < |pages| ==> pages[k].metadata.pageType != DatabasePage
    ensures Published(pages, statusTag) == pages && StatusSkips(pages, statusTag) == 0
  {
    NoneSkippedKeepsAll(pages, statusTag);
  }

  lemma {:induction false} NoneSkippedKeepsAll(pages: seq<NotionPage>, statusTag: string)
    requires forall k :: 0 <= k < |pages| ==> !SkippedForStatus(pages[k], statusTag)
    ensures Published(pages, statusTag) == pages && StatusSkips(pages, statusTag) == 0
    decreases |pages|
  {
    if pages != [] {
      var init, last := pages[..|pages| - 1], pages[|pages| - 1];
      assert !SkippedForStatus(last, statusTag);
      assert forall k :: 0 <= k < |init| ==> !SkippedForStatus(init[k], statusTag) by {
        forall k | 0 <= k < |init| ensures !SkippedForStatus(init[k], statusTag) {
          assert init[k] == pages[k];
        }
      }
      NoneSkippedKeepsAll(init, statusTag);
      calc {
        Published(pages, statusTag);
        Published(init, statusTag) + [last];
        init + [last];
        pages;
      }
    }
  }

  /** `writePage`: the file a page is written to. */
  function PagePath(root: string, page: NotionPage, getPathForPage: PathForPage): string {
    Lower(getPathForPage(root, page, MarkdownExtension))
  }

  /** The files written for one tab, in page order. */
  function TabWrites(tab: string, pages: seq<NotionPage>, root: string, statusTag: string,
                     getPathForPage: PathForPage, render: Render): seq<(string, string)>
    decreases |pages|
  {
    if pages == [] then []
    else
      var last := pages[|pages| - 1];
      TabWrites(tab, pages[..|pages| - 1], root, statusTag, getPathForPage, render) +
      (if SkippedForStatus(last, statusTag) then [] else [(PagePath(root, last, getPathForPage), render(tab, last))])
  }

  /** The files written for every tab, in the registry's order. */
  function Writes(registry: TabPages, root: string, statusTag: string,
                  getPathForPage: PathForPage, render: Render): seq<(string, string)>
    decreases |registry|
  {
    if registry == [] then []
    else
      var last := registry[|registry| - 1];
      Writes(registry[..|registry| - 1], root, statusTag, getPathForPage, render) +
      TabWrites(last.0, last.1, root, statusTag, getPathForPage, render)
  }

  /** The status counter after `outputPages`: it restarts with each tab, so
      it holds the last tab's count, or `initial` when there is no tab. */
  function LastTabStatusSkips(registry: TabPages, statusTag: string, initial: nat): nat {
    if registry == [] then initial else StatusSkips(registry[|registry| - 1].1, statusTag)
  }

  /** One file per published page, in order: its lowercased path under the
      strategy's root and its markdown rendered for the tab. */
  lemma {:induction false} TabWritesArePublishedPages(tab: string, pages: seq<NotionPage>, root: string, statusTag: string,
                                                      getPathForPage: PathForPage, render: Render)
    ensures var w := TabWrites(tab, pages, root, statusTag, getPathForPage, render);
      var published := Published(pages, statusTag);
      |w| == |published| &&
      forall k :: 0 <= k < |w| ==> w[k] == (PagePath(root, published[k], getPathForPage), render(tab, published[k]))
    decreases |pages|
  {
    if pages != [] {
      TabWritesArePublishedPages(tab, pages[..|pages| - 1], root, statusTag, getPathForPage, render);
    }
  }

  // ---------------------------------------------------------------------
  // The puller's state

  // ---------------------------------------------------------------------
  // One pass of each loop of the crawler and the writer

  lemma WalkChildrenStep(remote: Remote, newLevel: NewLevel, options: Options, layoutContext: string,
                         parentId: string, children: seq<PageRef>, i: nat, fuel: nat)
    requires i < |children|
    ensures WalkChildren(remote, newLevel, options, layoutContext, parentId, children[..i + 1], fuel) ==
            WalkChildren(remote, newLevel, options, layoutContext, parentId, children[..i], fuel)
              .Then(Walk(remote, newLevel, options, layoutContext, parentId, children[i].id, children[i].order, fuel))
  {
    assert children[..i + 1][..i] == children[..i];
  }

  lemma CrawlTabsStep(remote: Remote, newLevel: NewLevel, options: Options, incomingContext: string,
                      parentId: string, registry: TabPages, tabs: seq<PageRef>, i: nat, fuel: nat)
    requires i < |tabs|
    ensures CrawlTabs(remote, newLevel, options, incomingContext, parentId, registry, tabs[..i + 1], fuel) ==
            CrawlTab(remote, newLevel, options, incomingContext, parentId,
                     CrawlTabs(remote, newLevel, options, incomingContext, parentId, registry, tabs[..i], fuel),
                     tabs[i], fuel)
  {
    assert tabs[..i + 1][..i] == tabs[..i];
  }

  lemma TabWritesStep(tab: string, pages: seq<NotionPage>, j: nat, root: string, statusTag: string,
                      getPathForPage: PathForPage, render: Render)
    requires j < |pages|
    ensures TabWrites(tab, pages[..j + 1], root, statusTag, getPathForPage, render) ==
            TabWrites(tab, pages[..j], root, statusTag, getPathForPage, render) +
            (if SkippedForStatus(pages[j], statusTag) then []
             else [(PagePath(root, pages[j], getPathForPage), render(tab, pages[j]))])
    ensures StatusSkips(pages[..j + 1], statusTag) ==
            StatusSkips(pages[..j], statusTag) + (if SkippedForStatus(pages[j], statusTag) then 1 else 0)
  {
    assert pages[..j + 1][..j] == pages[..j];
  }

  lemma WritesStep(registry: TabPages, t: nat, root: string, statusTag: string,
                   getPathForPage: PathForPage, render: Render, initial: nat)
    requires t < |registry|
    ensures Writes(registry[..t + 1], root, statusTag, getPathForPage, render) ==
            Writes(registry[..t], root, statusTag, getPathForPage, render) +
            TabWrites(registry[t].0, registry[t].1, root, statusTag, getPathForPage, render)
    ensures LastTabStatusSkips(registry[..t + 1], statusTag, initial) == StatusSkips(registry[t].1, statusTag)
  {
    assert registry[..t + 1][..t] == registry[..t];
  }

  class Puller {
    /** The strategy of the tab started last (`undefined` before any). */
    var layoutStrategy: Layout.LayoutStrategy?
    var allTabsPages: TabPages
    var currentTabPages: seq<NotionPage>
    var counts: Counts
    /** The files written so far, as (path, markdown). */
    var written: seq<(string, string)>

    /** A registry is only ever filled once a tab, and so a strategy, exists. */
    ghost predicate Valid()
      reads this
    {
      && (layoutStrategy == null ==> allTabsPages == [])
      && DistinctKeys(allTabsPages)
    }

    constructor ()
      ensures layoutStrategy == null && allTabsPages == [] && currentTabPages == []
      ensures counts == Counts(0, 0, 0) && written == []
      ensures Valid()
    {
      layoutStrategy := null;
      allTabsPages := [];
      currentTabPages := [];
      counts := Counts(0, 0, 0);
      written := [];
    }

    method GetTabsPagesRecursively(remote: Remote, newLevel: NewLevel, options: Options, incomingContext: string,
                                   parentId: string, pageId: string, pageOrder: int, fuel: nat)
      returns (err: Option<FetchError>)
      modifies this
      ensures var c := Walk(remote, newLevel, options, incomingContext, parentId, pageId, pageOrder, fuel);
        && currentTabPages == old(currentTabPages) + c.pages
        && counts == old(counts).(skippedBecauseEmpty := old(counts.skippedBecauseEmpty) + c.skipped)
        && err == c.error
      ensures layoutStrategy == old(layoutStrategy) && allTabsPages == old(allTabsPages) && written == old(written)
      decreases fuel, 0
    {
      if fuel == 0 {
        return Some(OutlineTooDeep(pageId));
      }
      var fetched := FromPageId(remote, incomingContext, parentId, pageId, pageOrder, true);
      if fetched.Failure? {
        return Some(fetched.error);
      }
      var currentPage := fetched.value;
      var r := BlockChildren.GetBlockChildren(remote, currentPage.pageId);
      if r.Failure? {
        return Some(r.error);
      }
      var pageInfo := remote.contentInfo(r.value);
      err := RegisterPage(remote, newLevel, options, incomingContext, currentPage, pageInfo, fuel - 1);
    }

    /** The four cases of `getTabsPagesRecursively` once the page and its
        content are known. */
    method RegisterPage(remote: Remote, newLevel: NewLevel, options: Options, incomingContext: string,
                        currentPage: NotionPage, pageInfo: ContentInfo, fuel: nat)
      returns (err: Option<FetchError>)
      modifies this
      ensures var c := WalkPage(remote, newLevel, options, incomingContext, currentPage, pageInfo, fuel);
        && currentTabPages == old(currentTabPages) + c.pages
        && counts == old(counts).(skippedBecauseEmpty := old(counts.skippedBecauseEmpty) + c.skipped)
        && err == c.error
      ensures layoutStrategy == old(layoutStrategy) && allTabsPages == old(allTabsPages) && written == old(written)
      decreases fuel, 3
    {
      var children := pageInfo.childPageIdsAndOrder;
      var links := pageInfo.linksPageIdsAndOrder;
      if pageInfo.hasContent && (|children| > 0 || |links| > 0) {
        var layoutContext := newLevel(options.markdownOutputPath, currentPage.order, incomingContext,
                                      currentPage.metadata.nameOrTitle);
        var indexPage := IndexPage(currentPage, layoutContext);
        currentTabPages := currentTabPages + [indexPage];
        ghost var rest := WalkChildren(remote, newLevel, options, layoutContext, currentPage.pageId, children, fuel)
                            .Then(LinkPages(remote, layoutContext, currentPage.pageId, links));
        err := VisitCategory(remote, newLevel, options, layoutContext, currentPage.pageId, children, links, fuel);
        AppendAssociative(old(currentTabPages), [indexPage], rest.pages);
        ThenAssociative(Crawl([indexPage], 0, None),
                        WalkChildren(remote, newLevel, options, layoutContext, currentPage.pageId, children, fuel),
                        LinkPages(remote, layoutContext, currentPage.pageId, links));
      } else if !pageInfo.hasContent && (|children| > 0 || |links| > 0) {
        var layoutContext := newLevel(options.markdownOutputPath, currentPage.order, incomingContext,
                                      currentPage.metadata.nameOrTitle);
        err := VisitCategory(remote, newLevel, options, layoutContext, currentPage.pageId, children, links, fuel);
      } else if pageInfo.hasContent {
        currentTabPages := currentTabPages + [currentPage];
        err := None;
      } else {
        counts := counts.(skippedBecauseEmpty := counts.skippedBecauseEmpty + 1);
        err := None;
      }
    }

    /** A category's child pages, walked at its new level, then its links. */
    method VisitCategory(remote: Remote, newLevel: NewLevel, options: Options, layoutContext: string,
                         parentId: string, children: seq<PageRef>, links: seq<PageRef>, fuel: nat)
      returns (err: Option<FetchError>)
      modifies this
      ensures var c := WalkChildren(remote, newLevel, options, layoutContext, parentId, children, fuel)
                         .Then(LinkPages(remote, layoutContext, parentId, links));
        && currentTabPages == old(currentTabPages) + c.pages
        && counts == old(counts).(skippedBecauseEmpty := old(counts.skippedBecauseEmpty) + c.skipped)
        && err == c.error
      ensures layoutStrategy == old(layoutStrategy) && allTabsPages == old(allTabsPages) && written == old(written)
      decreases fuel, 2
    {
      err := VisitChildren(remote, newLevel, options, layoutContext, parentId, children, fuel);
      if err.Some? {
        return;
      }
      err := PushLinks(remote, layoutContext, parentId, links);
      AppendAssociative(old(currentTabPages),
                        WalkChildren(remote, newLevel, options, layoutContext, parentId, children, fuel).pages,
                        LinkPages(remote, layoutContext, parentId, links).pages);
    }

    /** The `for` loop over the child pages of a category. */
    method VisitChildren(remote: Remote, newLevel: NewLevel, options: Options, layoutContext: string,
                         parentId: string, children: seq<PageRef>, fuel: nat)
      returns (err: Option<FetchError>)
      modifies this
      ensures var c := WalkChildren(remote, newLevel, options, layoutContext, parentId, children, fuel);
        && currentTabPages == old(currentTabPages) + c.pages
        && counts == old(counts).(skippedBecauseEmpty := old(counts.skippedBecauseEmpty) + c.skipped)
        && err == c.error
      ensures layoutStrategy == old(layoutStrategy) && allTabsPages == old(allTabsPages) && written == old(written)
      decreases fuel, 1
    {
      var i := 0;
      while i < |children|
        invariant 0 <= i <= |children|
        invariant var c := WalkChildren(remote, newLevel, options, layoutContext, parentId, children[..i], fuel);
          && c.error.None?
          && currentTabPages == old(currentTabPages) + c.pages
          && counts == old(counts).(skippedBecauseEmpty := old(counts.skippedBecauseEmpty) + c.skipped)
        invariant layoutStrategy == old(layoutStrategy) && allTabsPages == old(allTabsPages) && written == old(written)
      {
        ghost var before := WalkChildren(remote, newLevel, options, layoutContext, parentId, children[..i], fuel);
        err := GetTabsPagesRecursively(remote, newLevel, options, layoutContext, parentId, children[i].id, children[i].order, fuel);
        ghost var step := Walk(remote, newLevel, options, layoutContext, parentId, children[i].id, children[i].order, fuel);
        WalkChildrenStep(remote, newLevel, options, layoutContext, parentId, children, i, fuel);
        AppendAssociative(old(currentTabPages), before.pages, step.pages);
        if err.Some? {
          WalkChildrenStops(remote, newLevel, options, layoutContext, parentId, children, fuel, i + 1);
          return;
        }
        i := i + 1;
      }
      assert children[..i] == children;
      err := None;
    }

    /** The `for` loop that registers the linked pages of a category. */
    method PushLinks(remote: Remote, layoutContext: string, parentId: string, links: seq<PageRef>)
      returns (err: Option<FetchError>)
      modifies this
      ensures var c := LinkPages(remote, layoutContext, parentId, links);
        currentTabPages == old(currentTabPages) + c.pages && c.skipped == 0 && err == c.error
      ensures layoutStrategy == old(layoutStrategy) && allTabsPages == old(allTabsPages) && written == old(written)
      ensures counts == old(counts)
    {
      var i := 0;
      while i < |links|
        invariant 0 <= i <= |links|
        invariant var c := LinkPages(remote, layoutContext, parentId, links[..i]);
          c.error.None? && c.skipped == 0 && currentTabPages == old(currentTabPages) + c.pages
        invariant layoutStrategy == old(layoutStrategy) && allTabsPages == old(allTabsPages) && written == old(written)
        invariant counts == old(counts)
      {
        assert links[..i + 1][..i] == links[..i];
        var fetched := FromPageId(remote, layoutContext, parentId, links[i].id, links[i].order, false);
        if fetched.Failure? {
          LinkPagesStops(remote, layoutContext, parentId, links, i + 1);
          return Some(fetched.error);
        }
        AppendAssociative(old(currentTabPages), LinkPages(remote, layoutContext, parentId, links[..i]).pages, [fetched.value]);
        currentTabPages := currentTabPages + [fetched.value];
        i := i + 1;
      }
      assert links[..i] == links;
      err := None;
    }

    /** The body of the tab loop once the tab is fetched: a new strategy
        rooted at the output path becomes the module-level one, the current
        tab's pages are reset and the tab is walked from the root page. */
    method PullTab(remote: Remote, newLevel: NewLevel, options: Options, currentTab: NotionPage, fuel: nat)
      returns (err: Option<FetchError>)
      modifies this
      ensures var c := Walk(remote, newLevel, options, "", options.rootPage, currentTab.pageId, 0, fuel);
        && currentTabPages == c.pages
        && counts == old(counts).(skippedBecauseEmpty := old(counts.skippedBecauseEmpty) + c.skipped)
        && err == c.error
      ensures layoutStrategy != null && fresh(layoutStrategy)
      ensures layoutStrategy.rootDirectory == options.markdownOutputPath
      ensures allTabsPages == old(allTabsPages) && written == old(written)
    {
      var strategy := new Layout.LayoutStrategy();
      layoutStrategy := strategy;
      currentTabPages := [];
      strategy.SetRootDirectoryForMarkdown(options.markdownOutputPath);
      err := GetTabsPagesRecursively(remote, newLevel, options, "", options.rootPage, currentTab.pageId, 0, fuel);
    }

    method GetTabs(remote: Remote, newLevel: NewLevel, options: Options, incomingContext: string,
                   parentId: string, pageId: string, fuel: nat)
      returns (err: Option<FetchError>)
      requires Valid()
      modifies this
      ensures var run := TabsOf(remote, newLevel, options, incomingContext, parentId, pageId, old(allTabsPages), fuel);
        && allTabsPages == run.registry
        && counts == old(counts).(skippedBecauseEmpty := old(counts.skippedBecauseEmpty) + run.skipped)
        && err == run.error
        && (run.current.None? ==> currentTabPages == old(currentTabPages) && layoutStrategy == old(layoutStrategy))
        && (run.current.Some? ==>
              currentTabPages == run.current.value && layoutStrategy != null && fresh(layoutStrategy) &&
              layoutStrategy.rootDirectory == options.markdownOutputPath)
      ensures written == old(written)
      ensures Valid()
    {
      var rootFetched := FromPageId(remote, "", parentId, pageId, 0, true);
      if rootFetched.Failure? {
        return Some(rootFetched.error);
      }
      var rootPage := rootFetched.value;
      var r := BlockChildren.GetBlockChildren(remote, rootPage.pageId);
      if r.Failure? {
        return Some(r.error);
      }
      err := PullTabs(remote, newLevel, options, incomingContext, parentId, remote.contentInfo(r.value).childPageIdsAndOrder, fuel);
    }

    /** The tab loop of `getTabs`. */
    method PullTabs(remote: Remote, newLevel: NewLevel, options: Options, incomingContext: string,
                    parentId: string, tabs: seq<PageRef>, fuel: nat)
      returns (err: Option<FetchError>)
      requires Valid()
      modifies this
      ensures var run := CrawlTabs(remote, newLevel, options, incomingContext, parentId, old(allTabsPages), tabs, fuel);
        && allTabsPages == run.registry
        && counts == old(counts).(skippedBecauseEmpty := old(counts.skippedBecauseEmpty) + run.skipped)
        && err == run.error
        && (run.current.None? ==> currentTabPages == old(currentTabPages) && layoutStrategy == old(layoutStrategy))
        && (run.current.Some? ==>
              currentTabPages == run.current.value && layoutStrategy != null && fresh(layoutStrategy) &&
              layoutStrategy.rootDirectory == options.markdownOutputPath)
      ensures written == old(written)
      ensures Valid()
    {
      ghost var registry := allTabsPages;
      ghost var run := TabsRun(registry, None, 0, None);
      var i := 0;
      while i < |tabs|
        invariant 0 <= i <= |tabs|
        invariant run == CrawlTabs(remote, newLevel, options, incomingContext, parentId, registry, tabs[..i], fuel)
        invariant run.error.None? && allTabsPages == run.registry
        invariant counts == old(counts).(skippedBecauseEmpty := old(counts.skippedBecauseEmpty) + run.skipped)
        invariant run.current.None? ==> currentTabPages == old(currentTabPages) && layoutStrategy == old(layoutStrategy)
        invariant run.current.Some? ==>
          currentTabPages == run.current.value && layoutStrategy != null && fresh(layoutStrategy) &&
          layoutStrategy.rootDirectory == options.markdownOutputPath
        invariant written == old(written)
        invariant Valid()
      {
        CrawlTabsStep(remote, newLevel, options, incomingContext, parentId, registry, tabs, i, fuel);
        ghost var prev := run;
        run := CrawlTab(remote, newLevel, options, incomingContext, parentId, prev, tabs[i], fuel);
        err := NextTab(remote, newLevel, options, incomingContext, parentId, tabs[i], fuel, prev);
        if err.Some? {
          CrawlTabsStops(remote, newLevel, options, incomingContext, parentId, registry, tabs, fuel, i + 1);
          return;
        }
        i := i + 1;
      }
      assert tabs[..i] == tabs;
      err := None;
    }

    /** One pass of the tab loop of `getTabs`: fetch the tab, pull it, and
        store its pages under its lowercased title. */
    method NextTab(remote: Remote, newLevel: NewLevel, options: Options, incomingContext: string,
                   parentId: string, tabRef: PageRef, fuel: nat, ghost prev: TabsRun)
      returns (err: Option<FetchError>)
      requires prev.error.None? && allTabsPages == prev.registry && DistinctKeys(allTabsPages)
      modifies this
      ensures var run := CrawlTab(remote, newLevel, options, incomingContext, parentId, prev, tabRef, fuel);
        && err == run.error && allTabsPages == run.registry && DistinctKeys(allTabsPages)
        && run.skipped >= prev.skipped
        && counts == old(counts).(skippedBecauseEmpty := old(counts.skippedBecauseEmpty) + (run.skipped - prev.skipped))
        && ((run.current == prev.current && currentTabPages == old(currentTabPages) &&
             layoutStrategy == old(layoutStrategy)) ||
            (run.current == Some(currentTabPages) && layoutStrategy != null && fresh(layoutStrategy) &&
             layoutStrategy.rootDirectory == options.markdownOutputPath))
      ensures written == old(written)
    {
      var tabFetched := FromPageId(remote, incomingContext, parentId, tabRef.id, tabRef.order, false);
      if tabFetched.Failure? {
        return Some(tabFetched.error);
      }
      var currentTab := tabFetched.value;
      err := PullTab(remote, newLevel, options, currentTab, fuel);
      if err.None? {
        SetTabKeys(allTabsPages, Lower(currentTab.metadata.nameOrTitle), currentTabPages);
        allTabsPages := SetTab(allTabsPages, Lower(currentTab.metadata.nameOrTitle), currentTabPages);
      }
    }

    /** `writePage` */
    method WritePage(page: NotionPage, finalMarkdown: string, getPathForPage: PathForPage)
      requires layoutStrategy != null
      modifies this
      ensures layoutStrategy == old(layoutStrategy)
      ensures written == old(written) + [(PagePath(layoutStrategy.rootDirectory, page, getPathForPage), finalMarkdown)]
      ensures counts == old(counts).(outputNormally := old(counts.outputNormally) + 1)
      ensures allTabsPages == old(allTabsPages)
      ensures currentTabPages == old(currentTabPages)
    {
      var mdPath := Lower(getPathForPage(layoutStrategy.rootDirectory, page, MarkdownExtension));
      written := written + [(mdPath, finalMarkdown)];
      counts := counts.(outputNormally := counts.outputNormally + 1);
    }

    /** The pages of one tab, written or skipped for their status, with the
        paths of the module-level strategy. */
    method OutputTab(tab: string, tabPages: seq<NotionPage>, options: Options,
                     getPathForPage: PathForPage, render: Render)
      requires layoutStrategy != null
      modifies this
      ensures layoutStrategy == old(layoutStrategy)
      ensures var w := TabWrites(tab, tabPages, layoutStrategy.rootDirectory, options.statusTag, getPathForPage, render);
        && written == old(written) + w
        && counts.outputNormally == old(counts.outputNormally) + |w|
        && counts.skippedBecauseEmpty == old(counts.skippedBecauseEmpty)
        && counts.skippedBecauseStatus == old(counts.skippedBecauseStatus) + StatusSkips(tabPages, options.statusTag)
      ensures allTabsPages == old(allTabsPages) && currentTabPages == old(currentTabPages)
    {
      ghost var root := layoutStrategy.rootDirectory;
      ghost var w: seq<(string, string)> := [];
      var j := 0;
      while j < |tabPages|
        invariant 0 <= j <= |tabPages|
        invariant layoutStrategy == old(layoutStrategy) && root == layoutStrategy.rootDirectory
        invariant w == TabWrites(tab, tabPages[..j], root, options.statusTag, getPathForPage, render)
        invariant written == old(written) + w
        invariant counts.outputNormally == old(counts.outputNormally) + |w|
        invariant counts.skippedBecauseEmpty == old(counts.skippedBecauseEmpty)
        invariant counts.skippedBecauseStatus == old(counts.skippedBecauseStatus) + StatusSkips(tabPages[..j], options.statusTag)
        invariant allTabsPages == old(allTabsPages) && currentTabPages == old(currentTabPages)
      {
        var page := tabPages[j];
        TabWritesStep(tab, tabPages, j, root, options.statusTag, getPathForPage, render);
        if page.metadata.pageType == DatabasePage && options.statusTag != AnyStatus &&
           page.metadata.status != Some(options.statusTag) {
          counts := counts.(skippedBecauseStatus := counts.skippedBecauseStatus + 1);
        } else {
          var markdown := render(tab, page);
          WritePage(page, markdown, getPathForPage);
          AppendAssociative(old(written), w, [(PagePath(root, page, getPathForPage), markdown)]);
          w := w + [(PagePath(root, page, getPathForPage), markdown)];
        }
        j := j + 1;
      }
      assert tabPages[..j] == tabPages;
    }

    /** `outputPages`: every page of every tab is written or skipped for its
        status, and the status counter restarts with each tab, so that it
        ends with the last tab's count.  Paths come from the module-level
        strategy, which is the last tab's. */
    method OutputPages(options: Options, getPathForPage: PathForPage, render: Render)
      requires Valid()
      modifies this
      ensures layoutStrategy == old(layoutStrategy) && allTabsPages == old(allTabsPages)
      ensures currentTabPages == old(currentTabPages)
      ensures var root := if layoutStrategy == null then "" else layoutStrategy.rootDirectory;
        var w := Writes(allTabsPages, root, options.statusTag, getPathForPage, render);
        && written == old(written) + w
        && counts == old(counts).(outputNormally := old(counts.outputNormally) + |w|,
                                 skippedBecauseStatus := LastTabStatusSkips(allTabsPages, options.statusTag, old(counts.skippedBecauseStatus)))
    {
      ghost var root := if layoutStrategy == null then "" else layoutStrategy.rootDirectory;
      ghost var w: seq<(string, string)> := [];
      var t := 0;
      while t < |allTabsPages|
        invariant 0 <= t <= |allTabsPages|
        invariant layoutStrategy == old(layoutStrategy) && allTabsPages == old(allTabsPages)
        invariant currentTabPages == old(currentTabPages)
        invariant root == if layoutStrategy == null then "" else layoutStrategy.rootDirectory
        invariant w == Writes(allTabsPages[..t], root, options.statusTag, getPathForPage, render)
        invariant written == old(written) + w
        invariant counts.outputNormally == old(counts.outputNormally) + |w|
        invariant counts.skippedBecauseEmpty == old(counts.skippedBecauseEmpty)
        invariant counts.skippedBecauseStatus ==
          LastTabStatusSkips(allTabsPages[..t], options.statusTag, old(counts.skippedBecauseStatus))
      {
        var tab := allTabsPages[t].0;
        var tabPages := allTabsPages[t].1;
        WritesStep(allTabsPages, t, root, options.statusTag, getPathForPage, render, old(counts.skippedBecauseStatus));
        counts := counts.(skippedBecauseStatus := 0);
        OutputTab(tab, tabPages, options, getPathForPage, render);
        AppendAssociative(old(written), w, TabWrites(tab, tabPages, root, options.statusTag, getPathForPage, render));
        w := w + TabWrites(tab, tabPages, root, options.statusTag, getPathForPage, render);
        t := t + 1;
      }
      assert allTabsPages[..t] == allTabsPages;
    }
  }
}
