/**
 * `query_to_df`: the paginated fetch loop. The query is sent with `OFFSET <offset> LIMIT
 * 10000` appended (the solution modifiers of sections 15.4 and 15.5 of the W3C SPARQL 1.1
 * Query Language), page after page, until a page holds fewer than 10000 rows; the pages are
 * then concatenated. The HTTP POST is the parameter `post`, from request body to response.
 */
module Fetch {
  import opened Wrappers
  import opened SparqlResults
  import Decimal

  const BatchSize: nat := 10000

  /** The SPARQL endpoint: what it answers to a POSTed query. */
  type Endpoint = string -> Response

  /** The answers to the paged requests, by page number (from 0). */
  type Pages = nat -> Result<Frame, FetchError>

  /** `f"{batch_size}"`: the batch size as it is written in every request. */
  const LimitText: string := "10000"

  lemma LimitTextShowsBatchSize()
    ensures Decimal.Show(BatchSize) == LimitText
  {
  }

  /** The query sent for the page that starts at `offset`. */
  function PagedRequest(query: string, offset: nat): string
  {
    query + " OFFSET " + Decimal.Show(offset) + " LIMIT " + LimitText
  }

  /** The `k`-th request (from 0) of the loop. */
  function Request(query: string, k: nat): string
  {
    PagedRequest(query, k * BatchSize)
  }

  lemma RequestAt(query: string, k: nat, offset: nat)
    requires offset == k * BatchSize
    ensures PagedRequest(query, offset) == Request(query, k)
  {
  }

  /** The pages the loop receives from `post` for `query`. */
  function PagesOf(post: Endpoint, query: string): Pages
  {
    (k: nat) => Receive(post(Request(query, k)))
  }

  /** Page `k` arrived and is not shorter than the batch size, so the loop goes on after it. */
  predicate Full(pages: Pages, k: nat)
  {
    pages(k).Success? && |pages(k).value| >= BatchSize
  }

  /** The endpoint eventually answers a short page or an error, so the loop stops. */
  ghost predicate Ends(pages: Pages)
  {
    exists k: nat :: !Full(pages, k)
  }

  function RowsOf(r: Result<Frame, FetchError>): Frame
  {
    if r.Success? then r.value else []
  }

  /** The rows of the first `n` pages, in page order. */
  function Collected(pages: Pages, n: nat): Frame
  {
    if n == 0 then [] else Collected(pages, n - 1) + RowsOf(pages(n - 1))
  }

  /** What the loop returns after `n` requests: the last page's error, or every row received. */
  function Outcome(pages: Pages, n: nat): Result<Frame, FetchError>
    requires n > 0
  {
    match pages(n - 1)
    case Failure(e) => Failure(e)
    case Success(_) => Success(Collected(pages, n))
  }

  lemma CollectedSnoc(pages: Pages, n: nat, df: Frame)
    requires pages(n) == Success(df)
    ensures Collected(pages, n + 1) == Collected(pages, n) + df
  {
  }

  /** `pd.concat(dfs, ignore_index=True)`: the frames one after the other. */
  function Concat(dfs: seq<Frame>): Frame
  {
    if dfs == [] then [] else Concat(dfs[..|dfs| - 1]) + dfs[|dfs| - 1]
  }

  lemma ConcatSnoc(dfs: seq<Frame>, df: Frame)
    ensures Concat(dfs + [df]) == Concat(dfs) + df
  {
    assert (dfs + [df])[..|dfs|] == dfs;
  }

  /**
   * The `loop` branch of `query_to_df`. Page k (from 0) is the answer to `Request(query, k)`;
   * `requests` is how many were POSTed. The loop stops right after the first page that is
   * short or fails, and never earlier.
   */
  method FetchPages(query: string, post: Endpoint)
    returns (result: Result<Frame, FetchError>, requests: nat)
    requires Ends(PagesOf(post, query))
    ensures requests > 0
    ensures forall k :: 0 <= k < requests - 1 ==> Full(PagesOf(post, query), k)
    ensures !Full(PagesOf(post, query), requests - 1)
    ensures result == Outcome(PagesOf(post, query), requests)
  {
    ghost var pages := PagesOf(post, query);
    ghost var bound: nat :| !Full(pages, bound);
    var dfs: seq<Frame> := [];
    var offset: nat := 0;
    requests := 0;
    while true
      invariant offset == requests * BatchSize
      invariant requests <= bound
      invariant forall k :: 0 <= k < requests ==> Full(pages, k)
      invariant Concat(dfs) == Collected(pages, requests)
      decreases bound - requests
    {
      var page := GetPage(query, offset, post, requests);
      if page.Failure? {
        requests := requests + 1;
        result := Failure(page.error);
        return;
      }
      var df := page.value;
      CollectedSnoc(pages, requests, df);
      ConcatSnoc(dfs, df);
      dfs := dfs + [df];
      requests := requests + 1;
      offset := offset + BatchSize;
      if |df| < BatchSize {
        break;
      }
      assert Full(pages, requests - 1);
    }
    result := Success(Concat(dfs));
  }

  /** `_get_from_query(query + f" OFFSET {offset} LIMIT {batch_size}")`: one page. */
  method GetPage(query: string, offset: nat, post: Endpoint, ghost k: nat)
    returns (page: Result<Frame, FetchError>)
    requires offset == k * BatchSize
    ensures page == PagesOf(post, query)(k)
  {
    RequestAt(query, k, offset);
    page := Receive(post(PagedRequest(query, offset)));
  }

  /**
   * `query_to_df(query, loop)`: with `loop`, the paged fetch; without, one request holding
   * the query unchanged. `requests` is how many requests were POSTed.
   */
  method QueryToFrame(query: string, loop: bool, post: Endpoint)
    returns (result: Result<Frame, FetchError>, requests: nat)
    requires loop ==> Ends(PagesOf(post, query))
    ensures !loop ==> requests == 1 && result == Receive(post(query))
    ensures loop ==> requests > 0
    ensures loop ==> forall k :: 0 <= k < requests - 1 ==> Full(PagesOf(post, query), k)
    ensures loop ==> !Full(PagesOf(post, query), requests - 1)
    ensures loop ==> result == Outcome(PagesOf(post, query), requests)
  {
    if loop {
      result, requests := FetchPages(query, post);
    } else {
      result := Receive(post(query));
      requests := 1;
    }
  }

  /** SPARQL's `OFFSET offset LIMIT limit` over the full solution sequence `all`. */
  function Window(all: Frame, offset: nat, limit: nat): (w: Frame)
    ensures |w| <= limit
  {
    if offset >= |all| then []
    else if offset + limit <= |all| then all[offset..offset + limit]
    else all[offset..]
  }

  /** The endpoint answers every paged request with the matching window of `all`. */
  ghost predicate Serves(pages: Pages, all: Frame)
  {
    forall k: nat :: pages(k) == Success(Window(all, k * BatchSize, BatchSize))
  }

  lemma {:induction false} CollectedPrefix(pages: Pages, all: Frame, m: nat)
    requires Serves(pages, all)
    requires m * BatchSize <= |all|
    ensures Collected(pages, m) == all[..m * BatchSize]
  {
    if m > 0 {
      CollectedPrefix(pages, all, m - 1);
      assert pages(m - 1) == Success(Window(all, (m - 1) * BatchSize, BatchSize));
      assert all[..m * BatchSize]
          == all[..(m - 1) * BatchSize] + all[(m - 1) * BatchSize..m * BatchSize];
    }
  }

  /**
   * Against an endpoint that serves a finite result `all` page by page, the loop stops after
   * exactly |all| / 10000 + 1 requests (one extra, empty page when |all| is a multiple of
   * 10000) and returns `all`: no row lost, repeated or reordered.
   */
  lemma HonestEndpoint(pages: Pages, all: Frame)
    requires Serves(pages, all)
    ensures Ends(pages)
    ensures forall k: nat :: k < |all| / BatchSize ==> Full(pages, k)
    ensures !Full(pages, |all| / BatchSize)
    ensures Outcome(pages, |all| / BatchSize + 1) == Success(all)
  {
    var q := |all| / BatchSize;
    forall k: nat | k < q
      ensures Full(pages, k)
    {
      assert pages(k) == Success(Window(all, k * BatchSize, BatchSize));
    }
    assert pages(q) == Success(Window(all, q * BatchSize, BatchSize));
    assert !Full(pages, q);
    CollectedPrefix(pages, all, q);
    assert all[..q * BatchSize] + all[q * BatchSize..] == all;
  }

  lemma {:induction false} FullPagesLength(pages: Pages, m: nat)
    requires forall k :: 0 <= k < m ==> Full(pages, k)
    requires forall k :: 0 <= k < m ==> |RowsOf(pages(k))| <= BatchSize
    ensures |Collected(pages, m)| == m * BatchSize
  {
    if m > 0 {
      FullPagesLength(pages, m - 1);
      assert Full(pages, m - 1);
      assert |RowsOf(pages(m - 1))| <= BatchSize;
    }
  }

  /**
   * When the endpoint honours LIMIT, a loop that returned N rows made N / 10000 + 1
   * requests, that is ceil((N + 1) / 10000).
   */
  lemma RequestCount(pages: Pages, n: nat)
    requires n > 0
    requires forall k :: 0 <= k < n - 1 ==> Full(pages, k)
    requires !Full(pages, n - 1)
    requires forall k :: 0 <= k < n ==> |RowsOf(pages(k))| <= BatchSize
    requires Outcome(pages, n).Success?
    ensures n == |Outcome(pages, n).value| / BatchSize + 1
  {
    FullPagesLength(pages, n - 1);
  }

  /** Distinct offsets give distinct requests, so no page is asked for twice. */
  lemma RequestsDistinct(query: string, a: nat, b: nat)
    requires PagedRequest(query, a) == PagedRequest(query, b)
    ensures a == b
  {
    var pre := query + " OFFSET ";
    var suffix := " LIMIT " + LimitText;
    var ra := PagedRequest(query, a);
    assert ra == pre + Decimal.Show(a) + suffix;
    assert PagedRequest(query, b) == pre + Decimal.Show(b) + suffix;
    assert Decimal.Show(a) == ra[|pre|..|ra| - |suffix|];
    assert Decimal.Show(b) == ra[|pre|..|ra| - |suffix|];
    Decimal.ShowInjective(a, b);
  }
}
