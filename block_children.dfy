/** `getBlockChildren` and `numberChildrenIfNumberedList` (src/pull.ts): follow
    the listing cursor, concatenate the pages of results, stop the run on a
    partial block, and renumber runs of numbered-list items. */
module BlockChildren {
  import opened Common
  import opened Notion

  const NumberedListItem := "numbered_list_item"

  /** `"type" in block && block.type === "numbered_list_item"` */
  predicate IsNumbered(b: Block) {
    b.FullBlock? && b.blockType == NumberedListItem
  }

  // ---------------------------------------------------------------------
  // Numbered lists

  /** How many numbered items end at index `i` without an interruption. */
  function RunPosition(s: seq<Block>, i: nat): nat
    requires i < |s|
  {
    if !IsNumbered(s[i]) then 0
    else if i == 0 then 1
    else 1 + RunPosition(s, i - 1)
  }

  /** Every numbered item numbered by its position in its run; every other
      block as it was. */
  function Numbered(s: seq<Block>): seq<Block> {
    seq(|s|, i requires 0 <= i < |s| =>
      if IsNumbered(s[i]) then s[i].(number := Some(RunPosition(s, i))) else s[i])
  }

  /** `RunPosition` is the 1-based position of a numbered item within the
      maximal run of consecutive numbered items that contains it. */
  lemma {:induction false} RunPositionInMaximalRun(s: seq<Block>, i: nat)
    requires i < |s| && IsNumbered(s[i])
    ensures var k := RunPosition(s, i);
      1 <= k <= i + 1 &&
      (forall j :: i - k < j <= i ==> IsNumbered(s[j])) &&
      (k <= i ==> !IsNumbered(s[i - k]))
  {
    if i > 0 && IsNumbered(s[i - 1]) {
      RunPositionInMaximalRun(s, i - 1);
    }
  }

  /** Numbering keeps the length, the order, every block other than a
      numbered item, and each item apart from its `number`. */
  lemma NumberingKeepsBlocks(s: seq<Block>)
    ensures |Numbered(s)| == |s|
    ensures forall i :: 0 <= i < |s| && !IsNumbered(s[i]) ==> Numbered(s)[i] == s[i]
    ensures forall i :: 0 <= i < |s| && IsNumbered(s[i]) ==>
      Numbered(s)[i].FullBlock? && Numbered(s)[i].id == s[i].id &&
      Numbered(s)[i].blockType == s[i].blockType && Numbered(s)[i].number.Some? &&
      Numbered(s)[i].number.value >= 1
  {
    forall i | 0 <= i < |s| && IsNumbered(s[i])
      ensures RunPosition(s, i) >= 1
    {
      RunPositionInMaximalRun(s, i);
    }
  }

  /** A run broken by another block restarts at 1. */
  lemma NumberingRestartsAfterInterruption(s: seq<Block>, i: nat)
    requires 0 < i < |s| && IsNumbered(s[i]) && !IsNumbered(s[i - 1])
    ensures Numbered(s)[i].number == Some(1)
  {
    assert Numbered(s)[i] == s[i].(number := Some(RunPosition(s, i)));
  }

  method NumberChildrenIfNumberedList(blocks: array<Block>)
    modifies blocks
    ensures blocks[..] == Numbered(old(blocks[..]))
  {
    ghost var original := blocks[..];
    var numberedListIndex := 0;
    var i := 0;
    while i < blocks.Length
      invariant 0 <= i <= blocks.Length
      invariant forall j :: 0 <= j < i ==> blocks[j] == Numbered(original)[j]
      invariant forall j :: i <= j < blocks.Length ==> blocks[j] == original[j]
      invariant numberedListIndex == if i == 0 then 0 else RunPosition(original, i - 1)
    {
      var block := blocks[i];
      if block.FullBlock? && block.blockType == NumberedListItem {
        numberedListIndex := numberedListIndex + 1;
        blocks[i] := block.(number := Some(numberedListIndex));
      } else {
        numberedListIndex := 0;
      }
      i := i + 1;
    }
  }

  // ---------------------------------------------------------------------
  // Pagination

  /** The results of the listing from `cursor` on, concatenated; `fuel` is the
      number of calls the model is willing to make. */
  function Pages(remote: Remote, id: string, cursor: Option<string>, fuel: nat): Result<seq<Block>, FetchError>
    decreases fuel
  {
    if fuel == 0 then Failure(CursorChainTooLong(id))
    else match remote.list(id, cursor)
      case Rejected(e) => Failure(Thrown(e))
      case Resolved(response) =>
        match response.nextCursor
        case None => Success(response.results)
        case Some(next) =>
          match Pages(remote, id, Some(next), fuel - 1)
          case Failure(err) => Failure(err)
          case Success(rest) => Success(response.results + rest)
  }

  predicate AllFull(blocks: seq<Block>) {
    forall i :: 0 <= i < |blocks| ==> blocks[i].FullBlock?
  }

  /** What `getBlockChildren(id)` returns, or why the run stops. */
  function BlockChildrenOf(remote: Remote, id: string): Result<seq<Block>, FetchError> {
    match Pages(remote, id, None, remote.maxPages)
    case Failure(err) => Failure(err)
    case Success(raw) => if AllFull(raw) then Success(Numbered(raw)) else Failure(NotFullBlocks(id))
  }

  function Flatten(responses: seq<ListResponse>): seq<Block> {
    if responses == [] then [] else Flatten(responses[..|responses| - 1]) + responses[|responses| - 1].results
  }

  /** `responses` is what successive calls return, starting from `cursor` and
      each following the previous one's cursor, until one reports no cursor. */
  predicate IsCursorChain(remote: Remote, id: string, cursor: Option<string>, responses: seq<ListResponse>) {
    && |responses| > 0
    && remote.list(id, cursor) == Resolved(responses[0])
    && (forall k :: 0 <= k < |responses| - 1 ==>
          responses[k].nextCursor.Some? && remote.list(id, responses[k].nextCursor) == Resolved(responses[k + 1]))
    && responses[|responses| - 1].nextCursor.None?
  }

  lemma {:induction false} FlattenCons(first: ListResponse, rest: seq<ListResponse>)
    ensures Flatten([first] + rest) == first.results + Flatten(rest)
    decreases |rest|
  {
    if rest != [] {
      var all := [first] + rest;
      assert all[..|all| - 1] == [first] + rest[..|rest| - 1];
      FlattenCons(first, rest[..|rest| - 1]);
    } else {
      assert [first] + rest == [first];
      assert [first][..0] == [];
    }
  }

  /** A cursor chain no longer than the budget yields the in-order
      concatenation of every response's results. */
  lemma {:induction false} PagesConcatenatesChain(remote: Remote, id: string, cursor: Option<string>, responses: seq<ListResponse>, fuel: nat)
    requires IsCursorChain(remote, id, cursor, responses)
    requires |responses| <= fuel
    ensures Pages(remote, id, cursor, fuel) == Success(Flatten(responses))
    decreases fuel
  {
    if |responses| == 1 {
      assert responses[..0] == [];
      assert Flatten(responses) == responses[0].results;
    } else {
      var rest := responses[1..];
      assert IsCursorChain(remote, id, responses[0].nextCursor, rest) by {
        forall k | 0 <= k < |rest| - 1
          ensures rest[k].nextCursor.Some? && remote.list(id, rest[k].nextCursor) == Resolved(rest[k + 1])
        {
          assert rest[k] == responses[k + 1] && rest[k + 1] == responses[k + 2];
        }
      }
      PagesConcatenatesChain(remote, id, responses[0].nextCursor, rest, fuel - 1);
      assert responses == [responses[0]] + rest;
      FlattenCons(responses[0], rest);
    }
  }

  /** Any partial block among the listed children stops the run: nothing is
      returned. */
  lemma PartialBlockAborts(remote: Remote, id: string, raw: seq<Block>, i: nat)
    requires Pages(remote, id, None, remote.maxPages) == Success(raw)
    requires i < |raw| && raw[i].PartialBlock?
    ensures BlockChildrenOf(remote, id) == Failure(NotFullBlocks(id))
  {
  }

  /** A listing outcome with `prefix` put in front of its results. */
  function Prefixed(prefix: seq<Block>, r: Result<seq<Block>, FetchError>): Result<seq<Block>, FetchError> {
    match r
    case Failure(err) => Failure(err)
    case Success(rest) => Success(prefix + rest)
  }

  method GetBlockChildren(remote: Remote, id: string) returns (r: Result<seq<Block>, FetchError>)
    ensures r == BlockChildrenOf(remote, id)
  {
    var listed := ListAllPages(remote, id);
    if listed.Failure? {
      return Failure(listed.error);
    }
    var results := listed.value;
    if exists i | 0 <= i < |results| :: results[i].PartialBlock? {
      return Failure(NotFullBlocks(id));
    }
    var blocks := new Block[|results|](i requires 0 <= i < |results| => results[i]);
    assert blocks[..] == results;
    NumberChildrenIfNumberedList(blocks);
    r := Success(blocks[..]);
  }

  /** The `do … while (start_cursor)` loop of `getBlockChildren`. */
  method ListAllPages(remote: Remote, id: string) returns (r: Result<seq<Block>, FetchError>)
    ensures r == Pages(remote, id, None, remote.maxPages)
  {
    var results: seq<Block> := [];
    var startCursor: Option<string> := None;
    var fuel := remote.maxPages;
    PrefixedNothing(Pages(remote, id, None, remote.maxPages));
    while true
      invariant Pages(remote, id, None, remote.maxPages) == Prefixed(results, Pages(remote, id, startCursor, fuel))
      decreases fuel
    {
      if fuel == 0 {
        return Failure(CursorChainTooLong(id));
      }
      var response := remote.list(id, startCursor);
      if response.Rejected? {
        return Failure(Thrown(response.error));
      }
      var page := response.value;
      PagesStep(remote, id, startCursor, fuel, page);
      PrefixedPrefixed(results, page.results, Rest(remote, id, page, fuel - 1));
      results := results + page.results;
      if page.nextCursor.None? {
        assert results + [] == results;
        return Success(results);
      }
      startCursor := page.nextCursor;
      fuel := fuel - 1;
    }
  }

  /** What the listing yields after `page`, with `fuel` calls left. */
  function Rest(remote: Remote, id: string, page: ListResponse, fuel: nat): Result<seq<Block>, FetchError> {
    if page.nextCursor.None? then Success([]) else Pages(remote, id, page.nextCursor, fuel)
  }

  lemma PagesStep(remote: Remote, id: string, cursor: Option<string>, fuel: nat, page: ListResponse)
    requires fuel > 0 && remote.list(id, cursor) == Resolved(page)
    ensures Pages(remote, id, cursor, fuel) == Prefixed(page.results, Rest(remote, id, page, fuel - 1))
  {
    if page.nextCursor.None? {
      assert page.results + [] == page.results;
    }
  }

  lemma PrefixedNothing(r: Result<seq<Block>, FetchError>)
    ensures Prefixed([], r) == r
  {
    if r.Success? { assert [] + r.value == r.value; }
  }

  lemma PrefixedPrefixed(a: seq<Block>, b: seq<Block>, r: Result<seq<Block>, FetchError>)
    ensures Prefixed(a, Prefixed(b, r)) == Prefixed(a + b, r)
  {
    if r.Success? { assert a + (b + r.value) == a + b + r.value; }
  }
}
