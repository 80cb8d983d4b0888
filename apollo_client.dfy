/** The Apollo client of the front end: the link that adds the
    Authorization header, and the cache merge policies of the two shipment
    queries. The stored token is a parameter (`localStorage` returns a
    string or null). */
module ApolloClient {
  import opened Wrappers
  import opened Records
  import opened Auth
  import opened QueryWindow

  const AuthorizationHeader: string := "authorization"

  /** The header value: "Bearer " and the token when one is stored and it is
      not empty, '' otherwise. */
  function AuthorizationValue(token: Option<string>): string
  {
    if token.Some? && token.value != "" then BearerPrefix + token.value else ""
  }

  /** `authLink`: `{ ...headers, authorization: ... }`. */
  function AuthHeaders(headers: map<string, string>, token: Option<string>): (r: map<string, string>)
    ensures r.Keys == headers.Keys + {AuthorizationHeader}
    ensures r[AuthorizationHeader] == AuthorizationValue(token)
    ensures forall k :: k in headers && k != AuthorizationHeader ==> r[k] == headers[k]
  {
    headers[AuthorizationHeader := AuthorizationValue(token)]
  }

  /** What the server makes of the header the client sends: the stored
      token itself is verified, and without a token the request is
      anonymous. */
  lemma ClientHeaderResolves(c: Crypto, headers: map<string, string>, token: Option<string>, now: int)
    ensures var h := AuthHeaders(headers, token);
      && (token.Some? && token.value != "" ==>
            ContextUser(c, Some(h[AuthorizationHeader]), now) == VerifyToken(c, token.value, now))
      && (token.None? || token.value == "" ==> ContextUser(c, Some(h[AuthorizationHeader]), now).None?)
  {
    if token.Some? && token.value != "" {
      BearerHeaderStrips(c, token.value, now);
    }
  }

  /** The `shipments` field policy: `merge(existing = [], incoming)`. */
  function MergeShipments(existing: Option<seq<Shipment>>, incoming: seq<Shipment>): seq<Shipment>
  {
    incoming
  }

  /** The cached list is replaced, whatever was cached before. */
  lemma MergeShipmentsReplaces(a: Option<seq<Shipment>>, b: Option<seq<Shipment>>, incoming: seq<Shipment>)
    ensures MergeShipments(a, incoming) == MergeShipments(b, incoming) == incoming
  {
  }

  /** The `shipmentsPaginated` field policy: the incoming page when nothing
      is cached, else the incoming answer with the cached edges before its
      own. */
  function MergePaginated(existing: Option<Connection>, incoming: Connection): (r: Connection)
    ensures existing.None? ==> r == incoming
    ensures r.pageInfo == incoming.pageInfo && r.totalCount == incoming.totalCount
  {
    if existing.None? then incoming
    else incoming.(edges := existing.value.edges + incoming.edges)
  }

  function CachedNodes(cache: Option<Connection>): seq<Shipment>
  {
    if cache.None? then [] else Nodes(cache.value.edges)
  }

  /** Merging keeps the cached nodes and appends the incoming ones; the edge
      count is the sum. */
  lemma MergePaginatedNodes(existing: Option<Connection>, incoming: Connection)
    ensures Nodes(MergePaginated(existing, incoming).edges) == CachedNodes(existing) + Nodes(incoming.edges)
    ensures existing.Some? ==>
      |MergePaginated(existing, incoming).edges| == |existing.value.edges| + |incoming.edges|
  {
    if existing.Some? {
      NodesConcat(existing.value.edges, incoming.edges);
    } else {
      assert CachedNodes(existing) + Nodes(incoming.edges) == Nodes(incoming.edges);
    }
  }

  /** The cache entry after requesting the page after `after`, merging it,
      and continuing with its `endCursor` while `hasNextPage` holds. */
  function FetchAll(result: seq<Shipment>, first: int, after: Option<string>, cache: Option<Connection>): Connection
    requires CursorSafe(result) && first > 0
    decreases |result| - StartIndex(result, after)
  {
    var page := Paginate(result, Defined(first), after);
    var merged := MergePaginated(cache, page);
    if page.pageInfo.hasNextPage then
      EndCursorAdvances(result, first, after);
      FetchAll(result, first, page.pageInfo.endCursor, Some(merged))
    else
      merged
  }

  /** One step of the fetch loop as plain facts: the merged cache holds the
      cached nodes and then the page's `nodes`; either the loop goes on from
      `next` with the merged cache while the walk goes on from `next` after
      `nodes`, or both stop there. */
  lemma FetchStep(result: seq<Shipment>, first: int, after: Option<string>, cache: Option<Connection>)
    returns (more: bool, next: Option<string>, merged: Connection, nodes: seq<Shipment>)
    requires CursorSafe(result) && first > 0
    ensures CachedNodes(Some(merged)) == CachedNodes(cache) + nodes
    ensures more ==> && StartIndex(result, next) > StartIndex(result, after)
                     && FetchAll(result, first, after, cache) == FetchAll(result, first, next, Some(merged))
                     && Crawl(result, first, after) == nodes + Crawl(result, first, next)
    ensures !more ==> && Nodes(FetchAll(result, first, after, cache).edges) == CachedNodes(Some(merged))
                      && Crawl(result, first, after) == nodes
  {
    var page := Paginate(result, Defined(first), after);
    merged := MergePaginated(cache, page);
    MergePaginatedNodes(cache, page);
    CrawlUnfold(result, first, after);
    more, next, nodes := page.pageInfo.hasNextPage, page.pageInfo.endCursor, Nodes(page.edges);
    if more {
      EndCursorAdvances(result, first, after);
    }
  }

  /** `w == (c + n) + rest` and `walk == n + rest` give `w == c + walk`. */
  lemma JoinCached<T>(w: seq<T>, c: seq<T>, n: seq<T>, rest: seq<T>, walk: seq<T>)
    requires w == (c + n) + rest && walk == n + rest
    ensures w == c + walk
  {
  }

  /** Merging along the walk caches exactly what the walk receives. */
  lemma {:induction false} FetchAllNodes(result: seq<Shipment>, first: int, after: Option<string>, cache: Option<Connection>)
    requires CursorSafe(result) && first > 0
    ensures Nodes(FetchAll(result, first, after, cache).edges) == CachedNodes(cache) + Crawl(result, first, after)
    decreases |result| - StartIndex(result, after)
  {
    var more, next, merged, nodes := FetchStep(result, first, after, cache);
    if more {
      FetchAllNodes(result, first, next, Some(merged));
      JoinCached(Nodes(FetchAll(result, first, after, cache).edges), CachedNodes(cache), nodes,
                 Crawl(result, first, next), Crawl(result, first, after));
    }
  }

  /** The walk stops on a page without a successor, and the count is the
      result's length. */
  lemma {:induction false} FetchAllLastPage(result: seq<Shipment>, first: int, after: Option<string>, cache: Option<Connection>)
    requires CursorSafe(result) && first > 0
    ensures !FetchAll(result, first, after, cache).pageInfo.hasNextPage
    ensures FetchAll(result, first, after, cache).totalCount == |result|
    decreases |result| - StartIndex(result, after)
  {
    var page := Paginate(result, Defined(first), after);
    if page.pageInfo.hasNextPage {
      EndCursorAdvances(result, first, after);
      FetchAllLastPage(result, first, page.pageInfo.endCursor, Some(MergePaginated(cache, page)));
    }
  }

  /** Starting from an empty cache entry, the cached connection ends up
      holding every record of the result once, in order, with the last
      page's `pageInfo` (no next page) and the total count. */
  lemma FetchAllCachesResult(result: seq<Shipment>, first: int)
    requires CursorSafe(result) && first > 0
    ensures Nodes(FetchAll(result, first, None, None).edges) == result
    ensures !FetchAll(result, first, None, None).pageInfo.hasNextPage
    ensures FetchAll(result, first, None, None).totalCount == |result|
  {
    FetchAllNodes(result, first, None, None);
    FetchAllLastPage(result, first, None, None);
    CrawlCoversAll(result, first);
  }
}
