/** The two ways the shipments resolvers cut a window out of the filtered,
    sorted list: `offset`/`limit` in `shipments`, and the Relay-style cursor
    connection of `shipmentsPaginated`. */
module QueryWindow {
  import opened Wrappers
  import opened JsArray
  import opened Records
  import opened Data

  // ------------------------------------------------------ offset and limit

  /** `result.slice(offset)` when `offset` is not undefined, then
      `result.slice(0, limit)` when `limit` is not undefined. A null argument
      converts to 0, so a null offset keeps everything and a null limit keeps
      nothing; negative arguments count from the end, as `slice` does. */
  function OffsetWindow(xs: seq<Shipment>, offset: Nullable<int>, limit: Nullable<int>): (r: seq<Shipment>)
    ensures |r| <= |xs|
  {
    var skipped := if offset.Undefined? then xs else Slice(xs, NullToZero(offset), |xs|);
    if limit.Undefined? then skipped else Slice(skipped, 0, NullToZero(limit))
  }

  /** With natural offset and limit the window is `xs[offset..]` cut to
      `limit` records, of length `min(limit, max(0, n - offset))`. */
  lemma OffsetWindowNatural(xs: seq<Shipment>, offset: nat, limit: nat)
    ensures var r := OffsetWindow(xs, Defined(offset), Defined(limit));
      var from := Min(offset, |xs|);
      && |r| == Min(limit, Max(0, |xs| - offset))
      && r == xs[from..from + |r|]
  {
    var from := Min(offset, |xs|);
    SliceNonNegative(xs, offset, |xs|);
    var skipped := Slice(xs, offset, |xs|);
    assert skipped == xs[from..];
    SliceNonNegative(skipped, 0, limit);
  }

  /** Neither argument given: the whole list. */
  lemma OffsetWindowNone(xs: seq<Shipment>)
    ensures OffsetWindow(xs, Undefined, Undefined) == xs
  {
  }

  /** An explicit null limit empties the result, a null offset is no offset. */
  lemma OffsetWindowNulls(xs: seq<Shipment>, limit: Nullable<int>)
    ensures OffsetWindow(xs, Null, limit) == OffsetWindow(xs, Undefined, limit)
    ensures OffsetWindow(xs, Null, Null) == []
  {
    SliceNonNegative(xs, 0, |xs|);
    assert xs[0..|xs|] == xs;
  }

  /** A negative offset `-k` keeps the last `k` records. */
  lemma NegativeOffsetKeepsTail(xs: seq<Shipment>, k: int)
    requires 0 < k <= |xs|
    ensures OffsetWindow(xs, Defined(-k), Undefined) == xs[|xs| - k..]
  {
    SliceFromEnd(xs, k);
  }

  // ----------------------------------------------------- cursor connection

  /** The default of the `first` argument. */
  const DefaultFirst: int := 10

  /** `first = 10` applies only to an omitted argument; an explicit null takes
      part in `startIndex + first` as 0. */
  function FirstCount(first: Nullable<int>): int
  {
    match first
    case Undefined => DefaultFirst
    case Null => 0
    case Defined(n) => n
  }

  /** Where the page starts: just past the first record whose id is the
      (truthy) `after` cursor, or at 0 when there is none or it is not found. */
  function StartIndex(result: seq<Shipment>, after: Option<string>): (r: nat)
    ensures r <= |result|
    ensures r > 0 ==> after.Some? && result[r - 1].id == after.value &&
                      forall j :: 0 <= j < r - 1 ==> result[j].id != after.value
    ensures r == 0 && after.Some? && after.value != "" ==>
              forall j :: 0 <= j < |result| ==> result[j].id != after.value
    ensures after.None? || after.value == "" ==> r == 0
  {
    if after.Some? && after.value != "" then
      var k := IndexOfShipment(result, after.value);
      if k != -1 then k + 1 else 0
    else 0
  }

  datatype Edge = Edge(node: Shipment, cursor: string)

  datatype PageInfo = PageInfo(
    hasNextPage: bool,
    hasPreviousPage: bool,
    startCursor: Option<string>,
    endCursor: Option<string>)

  datatype Connection = Connection(edges: seq<Edge>, pageInfo: PageInfo, totalCount: nat)

  /** `paginatedResults.map(node => ({ node, cursor: node.id }))`. */
  function EdgesOf(page: seq<Shipment>): (r: seq<Edge>)
    ensures |r| == |page|
  {
    seq(|page|, i requires 0 <= i < |page| => Edge(page[i], page[i].id))
  }

  /** The nodes of a list of edges. */
  function Nodes(edges: seq<Edge>): (r: seq<Shipment>)
    ensures |r| == |edges|
  {
    seq(|edges|, i requires 0 <= i < |edges| => edges[i].node)
  }

  /** Every edge carries its node's id as the cursor, and the nodes are the page. */
  lemma NodesOfEdges(page: seq<Shipment>)
    ensures forall i :: 0 <= i < |page| ==> EdgesOf(page)[i] == Edge(page[i], page[i].id)
    ensures Nodes(EdgesOf(page)) == page
  {
    assert forall i :: 0 <= i < |page| ==> Nodes(EdgesOf(page))[i] == page[i];
  }

  /** The nodes of joined edge lists are the joined nodes. */
  lemma NodesConcat(a: seq<Edge>, b: seq<Edge>)
    ensures Nodes(a + b) == Nodes(a) + Nodes(b)
  {
    assert forall i :: 0 <= i < |a| + |b| ==> Nodes(a + b)[i] == (Nodes(a) + Nodes(b))[i];
  }

  /** `record?.id || null`: an empty id counts as no cursor. */
  function CursorOf(s: Shipment): (r: Option<string>)
    ensures r.Some? <==> s.id != ""
  {
    if s.id != "" then Some(s.id) else None
  }

  lemma PageSlice(result: seq<Shipment>, start: nat, n: int)
    requires start <= |result|
    ensures n >= 0 ==> Slice(result, start, start + n) == result[start..Min(start + n, |result|)]
  {
    if n >= 0 {
      SliceNonNegative(result, start, start + n);
    }
  }

  /** `shipmentsPaginated` after filtering and sorting. */
  function Paginate(result: seq<Shipment>, first: Nullable<int>, after: Option<string>): (c: Connection)
  {
    var start, n := StartIndex(result, after), FirstCount(first);
    var page := Slice(result, start, start + n);
    Connection(
      EdgesOf(page),
      PageInfo(
        start + n < |result|,
        start > 0,
        if page == [] then None else CursorOf(page[0]),
        if page == [] then None else CursorOf(page[|page| - 1])),
      |result|)
  }

  /** The page is `result[start .. start + first]`, `hasNextPage` iff
      `start + first < length`, `hasPreviousPage` iff `start > 0`, the total
      is the length, every cursor is its node's id, and the start and end
      cursors are the first and last ids, or null on an empty page. */
  lemma PaginateMeaning(result: seq<Shipment>, first: Nullable<int>, after: Option<string>)
    ensures var c, start, n := Paginate(result, first, after), StartIndex(result, after), FirstCount(first);
      && (n >= 0 ==> Nodes(c.edges) == result[start..Min(start + n, |result|)])
      && (c.pageInfo.hasNextPage <==> start + n < |result|)
      && (c.pageInfo.hasPreviousPage <==> start > 0)
      && c.totalCount == |result|
      && (forall i :: 0 <= i < |c.edges| ==> c.edges[i].cursor == c.edges[i].node.id)
      && (c.edges == [] ==> c.pageInfo.startCursor.None? && c.pageInfo.endCursor.None?)
      && (c.edges != [] ==> c.pageInfo.startCursor == CursorOf(c.edges[0].node) &&
                            c.pageInfo.endCursor == CursorOf(c.edges[|c.edges| - 1].node))
  {
    var start, n := StartIndex(result, after), FirstCount(first);
    var page := Slice(result, start, start + n);
    var c := Paginate(result, first, after);
    assert c.edges == EdgesOf(page);
    PageSlice(result, start, n);
    NodesOfEdges(page);
    assert c.edges == [] <==> page == [];
  }

  // ------------------------------------------------- following endCursor

  /** What makes the cursor walk sound: ids present and pairwise distinct. */
  ghost predicate CursorSafe(result: seq<Shipment>)
  {
    UniqueIds(result) && forall i :: 0 <= i < |result| ==> result[i].id != ""
  }

  /** A full page ends on the record `first - 1` places after its start. */
  lemma FullPageEnd(result: seq<Shipment>, first: int, after: Option<string>)
    requires first > 0 && StartIndex(result, after) + first <= |result|
    ensures Paginate(result, Defined(first), after).pageInfo.endCursor ==
            CursorOf(result[StartIndex(result, after) + first - 1])
  {
    var start := StartIndex(result, after);
    var page := Slice(result, start, start + first);
    PageSlice(result, start, first);
    assert page == result[start..start + first];
    assert Paginate(result, Defined(first), after).pageInfo.endCursor == CursorOf(page[first - 1]);
  }

  /** When a page has a successor, its `endCursor` starts the next page right
      after it. */
  lemma EndCursorAdvances(result: seq<Shipment>, first: int, after: Option<string>)
    requires CursorSafe(result) && first > 0
    requires Paginate(result, Defined(first), after).pageInfo.hasNextPage
    ensures StartIndex(result, Paginate(result, Defined(first), after).pageInfo.endCursor) ==
            StartIndex(result, after) + first
  {
    var last := StartIndex(result, after) + first - 1;
    FullPageEnd(result, first, after);
    IndexOfUniqueId(result, last);
  }

  /** A client that requests the first page and then keeps passing
      `after: endCursor` while `hasNextPage` holds, collecting the nodes. */
  function Crawl(result: seq<Shipment>, first: int, after: Option<string>): seq<Shipment>
    requires CursorSafe(result) && first > 0
    decreases |result| - StartIndex(result, after)
  {
    var c := Paginate(result, Defined(first), after);
    if c.pageInfo.hasNextPage then
      EndCursorAdvances(result, first, after);
      Nodes(c.edges) + Crawl(result, first, c.pageInfo.endCursor)
    else
      Nodes(c.edges)
  }

  /** One step of the walk: the page, then the walk from its `endCursor`. */
  lemma CrawlUnfold(result: seq<Shipment>, first: int, after: Option<string>)
    requires CursorSafe(result) && first > 0
    ensures var c := Paginate(result, Defined(first), after);
      && (c.pageInfo.hasNextPage ==>
            Crawl(result, first, after) == Nodes(c.edges) + Crawl(result, first, c.pageInfo.endCursor))
      && (!c.pageInfo.hasNextPage ==> Crawl(result, first, after) == Nodes(c.edges))
  {
  }

  /** The nodes of an explicit page of `first` records, and when it has a
      successor. */
  lemma PageNodes(result: seq<Shipment>, first: int, after: Option<string>)
    requires first > 0
    ensures var c, start := Paginate(result, Defined(first), after), StartIndex(result, after);
      && Nodes(c.edges) == result[start..Min(start + first, |result|)]
      && (c.pageInfo.hasNextPage <==> start + first < |result|)
  {
    var start := StartIndex(result, after);
    var page := Slice(result, start, start + first);
    assert Paginate(result, Defined(first), after).edges == EdgesOf(page);
    PageSlice(result, start, first);
    NodesOfEdges(page);
  }

  /** When there is a next page, the page holds exactly `first` records from
      the start and the next walk begins right after them. */
  lemma CrawlPage(result: seq<Shipment>, first: int, after: Option<string>)
    requires CursorSafe(result) && first > 0
    ensures var c, start := Paginate(result, Defined(first), after), StartIndex(result, after);
      && (c.pageInfo.hasNextPage ==>
            && start + first < |result|
            && Nodes(c.edges) == result[start..start + first]
            && StartIndex(result, c.pageInfo.endCursor) == start + first)
      && (!c.pageInfo.hasNextPage ==> Nodes(c.edges) == result[start..])
  {
    var start := StartIndex(result, after);
    PageNodes(result, first, after);
    if start + first < |result| {
      EndCursorAdvances(result, first, after);
    } else {
      assert Min(start + first, |result|) == |result|;
    }
  }

  /** The page of one step of the walk as plain values: whether the walk
      goes on, from which cursor, and the nodes it yields, which followed by
      the records from the next start are the records from this start. */
  lemma PageStep(result: seq<Shipment>, first: int, after: Option<string>)
    returns (more: bool, next: Option<string>, nodes: seq<Shipment>)
    requires CursorSafe(result) && first > 0
    ensures var c := Paginate(result, Defined(first), after);
      more == c.pageInfo.hasNextPage && next == c.pageInfo.endCursor && nodes == Nodes(c.edges)
    ensures var start := StartIndex(result, after);
      && (more ==> && StartIndex(result, next) > start
                   && nodes + result[StartIndex(result, next)..] == result[start..])
      && (!more ==> nodes == result[start..])
  {
    CrawlPage(result, first, after);
    var c := Paginate(result, Defined(first), after);
    more, next, nodes := c.pageInfo.hasNextPage, c.pageInfo.endCursor, Nodes(c.edges);
    if more {
      var start := StartIndex(result, after);
      JoinSlices(result, start, start + first, nodes, StartIndex(result, next));
    }
  }

  lemma JoinSlices<T>(s: seq<T>, i: nat, j: nat, front: seq<T>, k: nat)
    requires i <= j <= |s| && front == s[i..j] && k == j
    ensures front + s[k..] == s[i..]
  {
    assert s[i..] == s[i..j] + s[j..];
  }

  /** One step of the walk as plain facts: either the walk yields `nodes`
      and goes on from `next`, where `nodes` followed by the records from
      `next`'s start are the records from this start; or it ends with the
      rest of the list. */
  lemma CrawlStep(result: seq<Shipment>, first: int, after: Option<string>)
    returns (more: bool, next: Option<string>, nodes: seq<Shipment>)
    requires CursorSafe(result) && first > 0
    ensures var start := StartIndex(result, after);
      && (more ==> && StartIndex(result, next) > start
                   && Crawl(result, first, after) == nodes + Crawl(result, first, next)
                   && nodes + result[StartIndex(result, next)..] == result[start..])
      && (!more ==> Crawl(result, first, after) == result[start..])
  {
    more, next, nodes := PageStep(result, first, after);
    CrawlUnfold(result, first, after);
  }

  /** Following the cursors from any page visits every later record exactly
      once, in order. */
  lemma {:induction false} CrawlFromCovers(result: seq<Shipment>, first: int, after: Option<string>)
    requires CursorSafe(result) && first > 0
    ensures Crawl(result, first, after) == result[StartIndex(result, after)..]
    decreases |result| - StartIndex(result, after)
  {
    var more, next, nodes := CrawlStep(result, first, after);
    if more {
      CrawlFromCovers(result, first, next);
    }
  }

  /** From the first page, the walk yields the whole filtered, sorted list. */
  lemma CrawlCoversAll(result: seq<Shipment>, first: int)
    requires CursorSafe(result) && first > 0
    ensures Crawl(result, first, None) == result
  {
    CrawlFromCovers(result, first, None);
  }

  /** The walk resumes right after the first record carrying the cursor's id. */
  lemma StartAfterFirst(result: seq<Shipment>, i: nat)
    requires i < |result| && result[i].id != ""
    requires forall k :: 0 <= k < i ==> result[k].id != result[i].id
    ensures StartIndex(result, Some(result[i].id)) == i + 1
  {
    assert IndexOfShipment(result, result[i].id) == i;
  }

  /** Without distinct ids the walk can stall: when record `i` is the first
      with some id and a later record `j` has the same id, pages of
      `j - i` records after that id end on record `j`. Their endCursor is the
      very cursor they were asked with, and they still report a next page
      while `j` is not the last record, so a client following `endCursor`
      asks for the same page forever. */
  lemma DuplicateIdsStall(result: seq<Shipment>, i: nat, j: nat)
    requires i < j && j + 1 < |result|
    requires result[i].id != "" && result[j].id == result[i].id
    requires forall k :: 0 <= k < i ==> result[k].id != result[i].id
    ensures StartIndex(result, Some(result[i].id)) == i + 1
    ensures Nodes(Paginate(result, Defined(j - i), Some(result[i].id)).edges) == result[i + 1..j + 1]
    ensures Paginate(result, Defined(j - i), Some(result[i].id)).pageInfo.hasNextPage
    ensures Paginate(result, Defined(j - i), Some(result[i].id)).pageInfo.endCursor == Some(result[i].id)
  {
    var id := result[i].id;
    StartAfterFirst(result, i);
    FullPageAt(result, j - i, Some(id), i + 1, j + 1);
    assert CursorOf(result[j]) == Some(id);
  }

  /** A page that ends before the list does holds the records from `start`
      to `stop`, has a successor, and ends on the cursor of record `stop - 1`. */
  lemma FullPageAt(result: seq<Shipment>, first: int, after: Option<string>, start: nat, stop: nat)
    requires first > 0 && start == StartIndex(result, after) && stop == start + first && stop < |result|
    ensures var c := Paginate(result, Defined(first), after);
      && Nodes(c.edges) == result[start..stop]
      && c.pageInfo.hasNextPage
      && c.pageInfo.endCursor == CursorOf(result[stop - 1])
  {
    PageNodes(result, first, after);
    assert Min(start + first, |result|) == stop;
    FullPageEnd(result, first, after);
  }
}
