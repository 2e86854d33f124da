/** The internal-link plugin (src/plugins/internalLinks.ts): turn a link to a
    page of the document service into a root-relative local link, looking
    the page up in the registries of all tabs.  The two regular expressions
    are written out as scanners, each proved equal to a declarative statement
    of what its pattern matches. */
module InternalLinks {
  import opened Common
  import opened Notion
  import Layout

  /** Tab names in enumeration order, each with its registry of pages. */
  type TabPages = seq<(string, seq<NotionPage>)>

  /** The part of the plugin context the resolver reads.  `matchesLinkId`
      stands for `NotionPage.matchesLinkId`, which is not part of this model. */
  datatype Context = Context(allTabsPages: TabPages, matchesLinkId: (NotionPage, string) -> bool)

  const NotionPrefix := "https://www.notion.so/"
  const MailtoPrefix := "mailto:"
  const BrokenLinkMarker := "[broken link]"
  const MentionLabel := "mention"
  const ImageFileExtensions := [".png", ".jpg", ".jpeg", ".gif", ".svg"]

  // ---------------------------------------------------------------------
  // Searching strings

  /** `s.indexOf(c, from)` */
  function IndexOfFrom(s: string, c: char, from: nat): (r: int)
    requires from <= |s|
    ensures r == -1 || (from <= r < |s| && s[r] == c)
    ensures forall j :: from <= j < (if r == -1 then |s| else r) ==> s[j] != c
    decreases |s| - from
  {
    if from == |s| then -1
    else if s[from] == c then from
    else IndexOfFrom(s, c, from + 1)
  }

  /** The first `)` or `,` at or after `from`, or -1. */
  function IndexOfCloseOrComma(s: string, from: nat): (r: int)
    requires from <= |s|
    ensures r == -1 || (from <= r < |s| && (s[r] == ')' || s[r] == ','))
    ensures forall j :: from <= j < (if r == -1 then |s| else r) ==> s[j] != ')' && s[j] != ','
    decreases |s| - from
  {
    if from == |s| then -1
    else if s[from] == ')' || s[from] == ',' then from
    else IndexOfCloseOrComma(s, from + 1)
  }

  /** The last index below `end` holding `c`, or -1. */
  function LastIndexBefore(s: string, c: char, end: nat): (r: int)
    requires end <= |s|
    ensures -1 <= r < end
    ensures r >= 0 ==> s[r] == c
    ensures forall j :: r < j < end ==> s[j] != c
    decreases end
  {
    if end == 0 then -1
    else if s[end - 1] == c then end - 1
    else LastIndexBefore(s, c, end - 1)
  }

  /** `s.lastIndexOf(c)` */
  function LastIndexOf(s: string, c: char): (r: int)
    ensures -1 <= r < |s|
    ensures r >= 0 ==> s[r] == c
    ensures forall j :: r < j < |s| ==> s[j] != c
  {
    LastIndexBefore(s, c, |s|)
  }

  // ---------------------------------------------------------------------
  // parseLinkId

  datatype LinkId = LinkId(baseLinkId: string, fragmentId: string)

  /** Split a link id at its first `#`. */
  function ParseLinkId(fullLinkId: string): (r: LinkId)
    ensures r.baseLinkId + r.fragmentId == fullLinkId
    ensures '#' !in r.baseLinkId
    ensures r.fragmentId == [] || r.fragmentId[0] == '#'
    ensures r.fragmentId == [] <==> '#' !in fullLinkId
  {
    var iHash := IndexOfFrom(fullLinkId, '#', 0);
    if iHash >= 0 then
      assert fullLinkId[..iHash] + fullLinkId[iHash..] == fullLinkId;
      LinkId(fullLinkId[..iHash], fullLinkId[iHash..])
    else
      LinkId(fullLinkId, "")
  }

  // ---------------------------------------------------------------------
  // The page-url pattern /https:\/\/www\.notion\.so\/([a-z0-9]+).*/

  predicate IsIdChar(c: char) {
    'a' <= c <= 'z' || '0' <= c <= '9'
  }

  /** The pattern can start matching at `p`: the prefix and one id character. */
  predicate UrlMatchAt(url: string, p: nat) {
    p + |NotionPrefix| < |url| && url[p..p + |NotionPrefix|] == NotionPrefix && IsIdChar(url[p + |NotionPrefix|])
  }

  /** The leftmost position at or after `p` where the pattern matches. */
  function FindUrlMatch(url: string, p: nat): (r: Option<nat>)
    requires p <= |url|
    ensures r.None? ==> forall q: nat :: p <= q ==> !UrlMatchAt(url, q)
    ensures r.Some? ==> p <= r.value && UrlMatchAt(url, r.value) &&
                        forall q: nat :: p <= q < r.value ==> !UrlMatchAt(url, q)
    decreases |url| - p
  {
    if UrlMatchAt(url, p) then Some(p)
    else if p == |url| then None
    else FindUrlMatch(url, p + 1)
  }

  /** What the greedy `[a-z0-9]+` takes from the start of `s`. */
  function IdRun(s: string): (r: string)
    ensures r <= s
    ensures forall i :: 0 <= i < |r| ==> IsIdChar(r[i])
    ensures |r| == |s| || !IsIdChar(s[|r|])
  {
    if s != [] && IsIdChar(s[0]) then [s[0]] + IdRun(s[1..]) else []
  }

  /** `match[1]` of the page-url pattern: undefined when nothing matches,
      otherwise the maximal id run after the leftmost match of the prefix. */
  function NotionUrlId(url: string): (r: Option<string>)
    ensures r.None? <==> forall q: nat :: !UrlMatchAt(url, q)
    ensures r.Some? ==>
      exists p: nat :: UrlMatchAt(url, p) && (forall q: nat :: q < p ==> !UrlMatchAt(url, q)) &&
                       r.value == IdRun(url[p + |NotionPrefix|..]) && |r.value| > 0
  {
    match FindUrlMatch(url, 0)
    case None => None
    case Some(p) => Some(IdRun(url[p + |NotionPrefix|..]))
  }

  // ---------------------------------------------------------------------
  // The inline-link pattern
  // /\[([^\]]+)?\]\((?!mailto:)(https:\/\/www\.notion\.so\/[^)]+|\/[^),]+)\)/

  /** The second group: a page url with at least one character other than `)`
      after the prefix, or `/` and at least one character other than `)` and
      `,`.  The pattern's `(?!mailto:)` lookahead adds nothing to this, as
      `MailtoLookaheadExcludesNothing` shows. */
  predicate IsLinkHref(h: string) {
    ((StartsWith(h, NotionPrefix) && |h| > |NotionPrefix| && ')' !in h) ||
     (|h| >= 2 && h[0] == '/' && ')' !in h && ',' !in h))
  }

  /** The pattern matches at `q` with groups `text` and `href`. */
  predicate IsLinkAt(s: string, q: nat, text: string, href: string) {
    var c := q + 1 + |text|;
    var e := c + 2 + |href|;
    && ']' !in text && IsLinkHref(href) && e < |s|
    && s[q] == '[' && s[q + 1..c] == text && s[c] == ']'
    && s[c + 1] == '(' && s[c + 2..e] == href && s[e] == ')'
  }

  /** Both alternatives of the href group start with `h` or `/`, so no href
      they accept starts with `mailto:`. */
  lemma MailtoLookaheadExcludesNothing(h: string)
    requires IsLinkHref(h)
    ensures !StartsWith(h, MailtoPrefix)
  {
    assert h[0] == 'h' || h[0] == '/' by {
      if StartsWith(h, NotionPrefix) {
        assert h[0] == h[..|NotionPrefix|][0] == NotionPrefix[0];
      }
    }
    assert MailtoPrefix[0] == 'm';
  }

  /** The leftmost match of the pattern in `s` is at `q`. */
  ghost predicate IsFirstLinkAt(s: string, q: nat, text: string, href: string) {
    IsLinkAt(s, q, text, href) &&
    forall p: nat, l: string, h: string :: p < q ==> !IsLinkAt(s, p, l, h)
  }

  /** The href group, scanned from index `r`. */
  function HrefAt(s: string, r: nat): Option<string>
    requires r <= |s|
  {
    if StartsWith(s[r..], MailtoPrefix) then None
    else if StartsWith(s[r..], NotionPrefix) then
      var t := IndexOfFrom(s, ')', r + |NotionPrefix|);
      if t > r + |NotionPrefix| then Some(s[r..t]) else None
    else if r < |s| && s[r] == '/' then
      var t := IndexOfCloseOrComma(s, r + 1);
      if t > r + 1 && s[t] == ')' then Some(s[r..t]) else None
    else None
  }

  /** The whole pattern, scanned from index `q`. */
  function LinkAt(s: string, q: nat): Option<(string, string)>
    requires q <= |s|
  {
    if q < |s| && s[q] == '[' then
      var c := IndexOfFrom(s, ']', q + 1);
      if c >= 0 && c + 1 < |s| && s[c + 1] == '(' then
        match HrefAt(s, c + 2)
        case Some(h) => Some((s[q + 1..c], h))
        case None => None
      else None
    else None
  }

  lemma HrefAtSound(s: string, r: nat, h: string)
    requires r <= |s| && HrefAt(s, r) == Some(h)
    ensures IsLinkHref(h) && r + |h| < |s| && s[r..r + |h|] == h && s[r + |h|] == ')'
  {
    assert |h| >= |MailtoPrefix| ==> s[r..][..|MailtoPrefix|] == h[..|MailtoPrefix|];
    if StartsWith(s[r..], NotionPrefix) {
      assert h[..|NotionPrefix|] == s[r..][..|NotionPrefix|];
      assert ')' !in h by {
        forall j | 0 <= j < |h| ensures h[j] != ')' {
          assert h[j] == s[r + j];
          if j < |NotionPrefix| { assert NotionPrefix[j] == h[j]; }
        }
      }
    } else {
      forall j | 0 <= j < |h| ensures h[j] != ')' && h[j] != ',' {
        assert h[j] == s[r + j];
      }
    }
  }

  lemma HrefAtComplete(s: string, r: nat, h: string)
    requires r <= |s|
    requires IsLinkHref(h) && r + |h| < |s| && s[r..r + |h|] == h && s[r + |h|] == ')'
    ensures HrefAt(s, r) == Some(h)
  {
    assert s[r..][..|h|] == h;
    MailtoLookaheadExcludesNothing(h);
    assert |h| >= |MailtoPrefix| ==> h[..|MailtoPrefix|] == s[r..][..|MailtoPrefix|];
    assert |h| < |MailtoPrefix| ==> s[r] == h[0] == '/' && MailtoPrefix[0] == 'm';
    if StartsWith(h, NotionPrefix) {
      assert s[r..][..|NotionPrefix|] == h[..|NotionPrefix|];
      var t := IndexOfFrom(s, ')', r + |NotionPrefix|);
      forall j | r + |NotionPrefix| <= j < r + |h| ensures s[j] != ')' {
        assert s[j] == h[j - r];
      }
      assert t == r + |h|;
    } else {
      assert s[r] == h[0] == '/';
      assert !StartsWith(s[r..], NotionPrefix) by { assert NotionPrefix[0] == 'h'; }
      var t := IndexOfCloseOrComma(s, r + 1);
      forall j | r + 1 <= j < r + |h| ensures s[j] != ')' && s[j] != ',' {
        assert s[j] == h[j - r];
      }
      assert t == r + |h|;
    }
  }

  /** What the scanner finds at `q` is a match of the pattern. */
  lemma LinkAtSound(s: string, q: nat, text: string, href: string)
    requires q <= |s| && LinkAt(s, q) == Some((text, href))
    ensures IsLinkAt(s, q, text, href)
  {
    LinkAtShape(s, q, text, href);
    ShapeIsLink(s, q, text, href);
  }

  /** The positions the scanner reads a match at. */
  lemma LinkAtShape(s: string, q: nat, text: string, href: string)
    requires q <= |s| && LinkAt(s, q) == Some((text, href))
    ensures var c := q + 1 + |text|;
      c + 1 < |s| && s[q] == '[' && s[q + 1..c] == text && ']' !in text && s[c] == ']' && s[c + 1] == '(' &&
      HrefAt(s, c + 2) == Some(href)
  {
    var c := IndexOfFrom(s, ']', q + 1);
    NotInSlice(s, q + 1, c, ']');
  }

  lemma ShapeIsLink(s: string, q: nat, text: string, href: string)
    requires var c := q + 1 + |text|;
      c + 1 < |s| && s[q] == '[' && s[q + 1..c] == text && ']' !in text && s[c] == ']' && s[c + 1] == '(' &&
      HrefAt(s, c + 2) == Some(href)
    ensures IsLinkAt(s, q, text, href)
  {
    var c := q + 1 + |text|;
    HrefAtSound(s, c + 2, href);
  }

  lemma NotInSlice(s: string, i: nat, j: nat, c: char)
    requires i <= j <= |s|
    requires forall k :: i <= k < j ==> s[k] != c
    ensures c !in s[i..j]
  {
    forall k | 0 <= k < j - i ensures s[i..j][k] != c { assert s[i..j][k] == s[i + k]; }
  }

  /** `indexOf` finds the first occurrence. */
  lemma IndexOfFromIs(s: string, c: char, from: nat, r: nat)
    requires from <= r < |s| && s[r] == c
    requires forall j :: from <= j < r ==> s[j] != c
    ensures IndexOfFrom(s, c, from) == r
  {
  }

  /** Every match of the pattern at `q` is what the scanner finds there. */
  lemma LinkAtComplete(s: string, q: nat, text: string, href: string)
    requires IsLinkAt(s, q, text, href)
    ensures LinkAt(s, q) == Some((text, href))
  {
    LinkShape(s, q, text, href);
    ShapeIsLinkAt(s, q, text, href);
  }

  /** Where a match of the pattern puts its brackets. */
  lemma LinkShape(s: string, q: nat, text: string, href: string)
    requires IsLinkAt(s, q, text, href)
    ensures var c := q + 1 + |text|;
      c + 1 < |s| && s[q] == '[' && s[q + 1..c] == text && IndexOfFrom(s, ']', q + 1) == c &&
      s[c + 1] == '(' && HrefAt(s, c + 2) == Some(href)
  {
    var c := q + 1 + |text|;
    forall j | q + 1 <= j < c ensures s[j] != ']' {
      assert s[j] == text[j - q - 1];
    }
    IndexOfFromIs(s, ']', q + 1, c);
    HrefAtComplete(s, c + 2, href);
  }

  lemma ShapeIsLinkAt(s: string, q: nat, text: string, href: string)
    requires var c := q + 1 + |text|;
      c + 1 < |s| && s[q] == '[' && s[q + 1..c] == text && IndexOfFrom(s, ']', q + 1) == c &&
      s[c + 1] == '(' && HrefAt(s, c + 2) == Some(href)
    ensures LinkAt(s, q) == Some((text, href))
  {
  }

  /** The leftmost position at or after `q` where the scanner matches. */
  function FindLinkFrom(s: string, q: nat): (r: Option<nat>)
    requires q <= |s|
    ensures r.Some? ==> q <= r.value <= |s| && LinkAt(s, r.value).Some?
    ensures forall p :: q <= p <= |s| && (r.None? || p < r.value) ==> LinkAt(s, p).None?
    decreases |s| - q
  {
    if LinkAt(s, q).Some? then Some(q)
    else if q == |s| then None
    else FindLinkFrom(s, q + 1)
  }

  /** `linkRegExp.exec(markdownLink)`: the two groups of the leftmost match. */
  function MarkdownLinkMatch(s: string): (r: Option<(string, string)>)
    ensures r.Some? ==> exists q: nat :: IsFirstLinkAt(s, q, r.value.0, r.value.1)
    ensures r.None? <==> forall q: nat, text: string, href: string :: !IsLinkAt(s, q, text, href)
  {
    match FindLinkFrom(s, 0)
    case None => NoLinkFound(s); None
    case Some(p) => FirstLinkFound(s, p); LinkAt(s, p)
  }

  lemma NoLinkFound(s: string)
    requires FindLinkFrom(s, 0).None?
    ensures forall q: nat, text: string, href: string :: !IsLinkAt(s, q, text, href)
  {
    forall q: nat, text: string, href: string ensures !IsLinkAt(s, q, text, href) {
      if IsLinkAt(s, q, text, href) {
        LinkAtComplete(s, q, text, href);
      }
    }
  }

  lemma FirstLinkFound(s: string, p: nat)
    requires FindLinkFrom(s, 0) == Some(p)
    ensures LinkAt(s, p).Some? && IsFirstLinkAt(s, p, LinkAt(s, p).value.0, LinkAt(s, p).value.1)
  {
    var m := LinkAt(s, p).value;
    LinkAtSound(s, p, m.0, m.1);
    forall q: nat, text: string, href: string | q < p ensures !IsLinkAt(s, q, text, href) {
      if IsLinkAt(s, q, text, href) {
        LinkAtComplete(s, q, text, href);
      }
    }
  }

  /** The scanner returns the groups of the leftmost match, if any. */
  lemma MarkdownLinkMatchIsLeftmost(s: string, q: nat, text: string, href: string)
    requires IsFirstLinkAt(s, q, text, href)
    ensures MarkdownLinkMatch(s) == Some((text, href))
  {
    LinkAtComplete(s, q, text, href);
    var r := FindLinkFrom(s, 0);
    assert r.Some?;
    var m := LinkAt(s, r.value).value;
    LinkAtSound(s, r.value, m.0, m.1);
    assert r.value == q;
  }

  // ---------------------------------------------------------------------
  // Looking a page up in the tabs

  /** Page `i` of tab `t` is the first page, in tab order and then page order,
      for which `matchesLinkId` holds. */
  predicate IsFirstMatch(tabs: TabPages, id: string, matches: (NotionPage, string) -> bool, t: nat, i: nat) {
    && t < |tabs| && i < |tabs[t].1| && matches(tabs[t].1[i], id)
    && (forall j :: 0 <= j < i ==> !matches(tabs[t].1[j], id))
    && (forall u, j :: 0 <= u < t && 0 <= j < |tabs[u].1| ==> !matches(tabs[u].1[j], id))
  }

  predicate NoMatch(tabs: TabPages, id: string, matches: (NotionPage, string) -> bool) {
    forall u, j :: 0 <= u < |tabs| && 0 <= j < |tabs[u].1| ==> !matches(tabs[u].1[j], id)
  }

  /** `pages.find(p => p.matchesLinkId(id))`, as an index, from index `j`. */
  function FindPage(pages: seq<NotionPage>, id: string, matches: (NotionPage, string) -> bool, j: nat): (r: Option<nat>)
    requires j <= |pages|
    ensures r.None? ==> forall k :: j <= k < |pages| ==> !matches(pages[k], id)
    ensures r.Some? ==> j <= r.value < |pages| && matches(pages[r.value], id) &&
                        forall k :: j <= k < r.value ==> !matches(pages[k], id)
    decreases |pages| - j
  {
    if j == |pages| then None
    else if matches(pages[j], id) then Some(j)
    else FindPage(pages, id, matches, j + 1)
  }

  /** The `for (const tab in allTabsPages)` loop that breaks at the first tab
      holding a matching page, from tab `t` on. */
  function FindTarget(tabs: TabPages, id: string, matches: (NotionPage, string) -> bool, t: nat): (r: Option<(nat, nat)>)
    requires t <= |tabs|
    requires forall u, j :: 0 <= u < t && 0 <= j < |tabs[u].1| ==> !matches(tabs[u].1[j], id)
    ensures r.None? ==> NoMatch(tabs, id, matches)
    ensures r.Some? ==> IsFirstMatch(tabs, id, matches, r.value.0, r.value.1)
    decreases |tabs| - t
  {
    if t == |tabs| then None
    else match FindPage(tabs[t].1, id, matches, 0)
      case Some(i) => Some((t, i))
      case None => FindTarget(tabs, id, matches, t + 1)
  }

  /** The first match is unique, so the search finds exactly it. */
  lemma FindTargetFindsFirstMatch(tabs: TabPages, id: string, matches: (NotionPage, string) -> bool, t: nat, i: nat)
    requires IsFirstMatch(tabs, id, matches, t, i)
    ensures FindTarget(tabs, id, matches, 0) == Some((t, i))
  {
    var r := FindTarget(tabs, id, matches, 0);
    assert r.Some?;
    var (t', i') := r.value;
    assert matches(tabs[t'].1[i'], id) && matches(tabs[t].1[i], id);
  }

  // ---------------------------------------------------------------------
  // Building the local link

  /** `convertLinkHref`: the tab, the page's link path, and the fragment of
      the given url or href. */
  function ConvertLinkHref(tab: string, page: NotionPage, url: string): (r: string)
    ensures StartsWith(r, "/" + tab + "/")
    ensures EndsWith(r, ParseLinkId(url).fragmentId)
  {
    var path := Layout.GetLinkPathForPage(page);
    var fragment := ParseLinkId(url).fragmentId;
    var r := "/" + tab + path + fragment;
    assert r[..|"/" + tab + "/"|] == "/" + tab + "/";
    assert r[|r| - |fragment|..] == fragment;
    r
  }

  /** `convertLinkLabel` */
  function ConvertLinkLabel(page: NotionPage, text: string): (r: string)
    ensures text == MentionLabel ==> r == page.metadata.nameOrTitle
    ensures text != MentionLabel ==> r == text
  {
    if text == MentionLabel then page.metadata.nameOrTitle else text
  }

  /** `convertInternalUrl`: `None` stands for `undefined`.  A page found in a
      tab whose name is the empty string counts as not found, because the
      code tests the tab name for truthiness. */
  function ConvertInternalUrl(context: Context, url: string): (r: Option<string>)
    ensures r.None? <==> forall q: nat :: !UrlMatchAt(url, q)
  {
    match NotionUrlId(url)
    case None => None
    case Some(id) =>
      var tabs := context.allTabsPages;
      match FindTarget(tabs, id, context.matchesLinkId, 0)
      case Some((t, i)) =>
        if tabs[t].0 != "" then Some(ConvertLinkHref(tabs[t].0, tabs[t].1[i], url))
        else Some(id + BrokenLinkMarker)
      case None => Some(id + BrokenLinkMarker)
  }

  /** A resolved url: the first matching page of the first tab that has one,
      linked under that tab, with the fragment that follows the url's first
      `#` appended unchanged. */
  lemma ResolvedUrl(context: Context, url: string, id: string, t: nat, i: nat)
    requires NotionUrlId(url) == Some(id)
    requires IsFirstMatch(context.allTabsPages, id, context.matchesLinkId, t, i)
    requires context.allTabsPages[t].0 != ""
    ensures var tab := context.allTabsPages[t].0;
      var page := context.allTabsPages[t].1[i];
      var fragment := ParseLinkId(url).fragmentId;
      ConvertInternalUrl(context, url) == Some("/" + tab + Layout.GetLinkPathForPage(page) + fragment)
  {
    FindTargetFindsFirstMatch(context.allTabsPages, id, context.matchesLinkId, t, i);
  }

  /** An id that no registry holds yields the broken-link placeholder. */
  lemma UnresolvedUrl(context: Context, url: string, id: string)
    requires NotionUrlId(url) == Some(id)
    requires NoMatch(context.allTabsPages, id, context.matchesLinkId)
    ensures ConvertInternalUrl(context, url) == Some(id + BrokenLinkMarker)
  {
  }

  /** The search stops at the first tab with a match even when that tab's
      name is empty, and the link is then reported broken although a later
      tab may hold a matching page too. */
  lemma EmptyTabNameGivesBrokenUrl(context: Context, url: string, id: string, t: nat, i: nat)
    requires NotionUrlId(url) == Some(id)
    requires IsFirstMatch(context.allTabsPages, id, context.matchesLinkId, t, i)
    requires context.allTabsPages[t].0 == ""
    ensures ConvertInternalUrl(context, url) == Some(id + BrokenLinkMarker)
  {
    FindTargetFindsFirstMatch(context.allTabsPages, id, context.matchesLinkId, t, i);
  }

  // ---------------------------------------------------------------------
  // convertInternalLink

  predicate IsImageLink(href: string) {
    exists k :: 0 <= k < |ImageFileExtensions| && EndsWith(href, ImageFileExtensions[k])
  }

  /** The href cut after its last `-` or `/`, where the page id sits. */
  function TrimToLastSpecialChar(href: string): (r: string)
    ensures |r| <= |href| && r == href[|href| - |r|..]
    ensures '-' !in r && '/' !in r
    ensures '-' in href || '/' in href ==> |r| < |href| && href[|href| - |r| - 1] in {'-', '/'}
    ensures '-' !in href && '/' !in href ==> r == href
  {
    var dash := LastIndexOf(href, '-');
    var slash := LastIndexOf(href, '/');
    var lastSpecialCharIndex := if dash > slash then dash else slash;
    if lastSpecialCharIndex != -1 then
      assert href[lastSpecialCharIndex + 1..] == href[|href| - |href[lastSpecialCharIndex + 1..]|..];
      SuffixAvoids(href, dash, lastSpecialCharIndex, '-');
      SuffixAvoids(href, slash, lastSpecialCharIndex, '/');
      href[lastSpecialCharIndex + 1..]
    else
      href
  }

  /** Past the last occurrence of `c`, no later suffix holds `c`. */
  lemma SuffixAvoids(s: string, last: int, k: int, c: char)
    requires -1 <= last <= k < |s|
    requires last == -1 ==> c !in s
    requires last >= 0 ==> c !in s[last + 1..]
    ensures c !in s[k + 1..]
  {
    forall j | k + 1 <= j < |s| ensures s[j] != c {
      if last >= 0 {
        assert s[j] == s[last + 1..][j - last - 1];
      }
    }
  }

  /** `convertInternalLink`: the markdown link rewritten to its local target,
      the link text followed by the broken-link marker, or the input unchanged. */
  function ConvertInternalLink(context: Context, markdownLink: string): (r: string)
    // only a link the pattern finds, and not one to an image, is rewritten
    ensures r != markdownLink ==>
      MarkdownLinkMatch(markdownLink).Some? && !IsImageLink(MarkdownLinkMatch(markdownLink).value.1)
    // into a local markdown link, or into its text marked as broken
    ensures r != markdownLink ==>
      (|r| >= 2 && r[0] == '[' && r[|r| - 1] == ')') || EndsWith(r, BrokenLinkMarker)
  {
    match MarkdownLinkMatch(markdownLink)
    case None => markdownLink
    case Some((labelFromNotion, hrefFromNotion)) =>
      if IsImageLink(hrefFromNotion) then markdownLink
      else
        var href := TrimToLastSpecialChar(hrefFromNotion);
        var tabs := context.allTabsPages;
        match FindTarget(tabs, href, context.matchesLinkId, 0)
        case Some((t, i)) =>
          if tabs[t].0 != "" then
            var page := tabs[t].1[i];
            "[" + ConvertLinkLabel(page, labelFromNotion) + "](" + ConvertLinkHref(tabs[t].0, page, href) + ")"
          else labelFromNotion + BrokenLinkMarker
        case None => labelFromNotion + BrokenLinkMarker
  }

  /** Text in which the pattern matches nowhere is returned unchanged. */
  lemma UnmatchedLinkUnchanged(context: Context, markdownLink: string)
    requires forall p: nat, l: string, h: string :: !IsLinkAt(markdownLink, p, l, h)
    ensures ConvertInternalLink(context, markdownLink) == markdownLink
  {
    assert MarkdownLinkMatch(markdownLink).None?;
  }

  /** A link to an image file is returned unchanged. */
  lemma ImageLinkUnchanged(context: Context, markdownLink: string, q: nat, text: string, href: string)
    requires IsFirstLinkAt(markdownLink, q, text, href)
    requires IsImageLink(href)
    ensures ConvertInternalLink(context, markdownLink) == markdownLink
  {
    MarkdownLinkMatchIsLeftmost(markdownLink, q, text, href);
  }

  /** A resolved link: the link text becomes the page's title exactly when it is
      `mention`, and the target is the page's local link under its tab, with
      the fragment of the trimmed href. */
  lemma ResolvedLink(context: Context, markdownLink: string, q: nat, text: string, href: string, t: nat, i: nat)
    requires IsFirstLinkAt(markdownLink, q, text, href)
    requires !IsImageLink(href)
    requires IsFirstMatch(context.allTabsPages, TrimToLastSpecialChar(href), context.matchesLinkId, t, i)
    requires context.allTabsPages[t].0 != ""
    ensures var tab := context.allTabsPages[t].0;
      var page := context.allTabsPages[t].1[i];
      var shownText := if text == MentionLabel then page.metadata.nameOrTitle else text;
      ConvertInternalLink(context, markdownLink) ==
        "[" + shownText + "](" + ConvertLinkHref(tab, page, TrimToLastSpecialChar(href)) + ")"
  {
    MarkdownLinkMatchIsLeftmost(markdownLink, q, text, href);
    FindTargetFindsFirstMatch(context.allTabsPages, TrimToLastSpecialChar(href), context.matchesLinkId, t, i);
    ConvertFound(context, markdownLink, text, href, t, i);
  }

  lemma ConvertFound(context: Context, markdownLink: string, text: string, href: string, t: nat, i: nat)
    requires MarkdownLinkMatch(markdownLink) == Some((text, href))
    requires !IsImageLink(href)
    requires FindTarget(context.allTabsPages, TrimToLastSpecialChar(href), context.matchesLinkId, 0) == Some((t, i))
    requires context.allTabsPages[t].0 != ""
    ensures var tab := context.allTabsPages[t].0;
      var page := context.allTabsPages[t].1[i];
      var shownText := if text == MentionLabel then page.metadata.nameOrTitle else text;
      ConvertInternalLink(context, markdownLink) ==
        "[" + shownText + "](" + ConvertLinkHref(tab, page, TrimToLastSpecialChar(href)) + ")"
  {
  }

  /** An href whose id no registry holds yields the text and the marker. */
  lemma UnresolvedLink(context: Context, markdownLink: string, q: nat, text: string, href: string)
    requires IsFirstLinkAt(markdownLink, q, text, href)
    requires !IsImageLink(href)
    requires NoMatch(context.allTabsPages, TrimToLastSpecialChar(href), context.matchesLinkId)
    ensures ConvertInternalLink(context, markdownLink) == text + BrokenLinkMarker
  {
    MarkdownLinkMatchIsLeftmost(markdownLink, q, text, href);
    NoMatchFindsNothing(context.allTabsPages, TrimToLastSpecialChar(href), context.matchesLinkId);
    ConvertNotFound(context, markdownLink, text, href);
  }

  lemma NoMatchFindsNothing(tabs: TabPages, id: string, matches: (NotionPage, string) -> bool)
    requires NoMatch(tabs, id, matches)
    ensures FindTarget(tabs, id, matches, 0).None?
  {
  }

  lemma ConvertNotFound(context: Context, markdownLink: string, text: string, href: string)
    requires MarkdownLinkMatch(markdownLink) == Some((text, href))
    requires !IsImageLink(href)
    requires FindTarget(context.allTabsPages, TrimToLastSpecialChar(href), context.matchesLinkId, 0).None?
    ensures ConvertInternalLink(context, markdownLink) == text + BrokenLinkMarker
  {
  }
}
