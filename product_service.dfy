/**
 * app/services/productService.server.ts: a one-hour cache in front of the product count and
 * product list endpoints. Three module-level variables hold the cache; both caches share a
 * single fetch timestamp. The clock reading `now` (milliseconds) and the outcome of the fetch
 * the call would make are inputs.
 */
module ProductService {
  import opened Wrappers
  import opened Types
  import Strings

  /** One hour in milliseconds. */
  const CacheDuration: int := 1 * 60 * 60 * 1000

  /** The three module-level variables. */
  datatype CacheState = CacheState(lastFetchTime: int, count: Option<int>, products: Option<seq<Product>>)

  /** The values the module starts with. */
  const Initial := CacheState(0, None, None)

  /** The shared timestamp is older than the cache duration; exactly one hour old is still fresh. */
  predicate Expired(s: CacheState, now: int) {
    now - s.lastFetchTime > CacheDuration
  }

  /** What one call hands back, whether it went to the backend, and the cache afterwards. */
  datatype Served<T> = Served(value: T, fetched: bool, next: CacheState)

  /** `getProductCount`, as a function of the cache before the call. */
  function CountStep(s: CacheState, now: int, response: Response<int>): (r: Served<int>)
    ensures r.fetched <==> s.count.None? || Expired(s, now)
    ensures !r.fetched ==> r.next == s && s.count == Some(r.value)
    ensures r.fetched && response.Ok? ==>
      r.next == CacheState(now, Some(response.body), s.products) && r.value == response.body
    ensures r.fetched && !response.Ok? ==> r.next == s && r.value == s.count.GetOr(-1)
  {
    if s.count.None? || Expired(s, now) then
      match response
      case Ok(n) => Served(n, true, s.(lastFetchTime := now, count := Some(n)))
      case _ => Served(s.count.GetOr(-1), true, s)
    else
      Served(s.count.value, false, s)
  }

  /**
   * `getProducts`, as a function of the cache before the call. A cached empty list is a
   * cached value: only a missing list forces a fetch.
   */
  function ProductsStep(s: CacheState, now: int, response: Response<seq<Product>>): (r: Served<seq<Product>>)
    ensures r.fetched <==> s.products.None? || Expired(s, now)
    ensures !r.fetched ==> r.next == s && s.products == Some(r.value)
    ensures r.fetched && response.Ok? ==>
      r.next == CacheState(now, s.count, Some(response.body)) && r.value == response.body
    ensures r.fetched && !response.Ok? ==> r.next == s && r.value == s.products.GetOr([])
  {
    if s.products.None? || Expired(s, now) then
      match response
      case Ok(list) => Served(list, true, s.(lastFetchTime := now, products := Some(list)))
      case _ => Served(s.products.GetOr([]), true, s)
    else
      Served(s.products.value, false, s)
  }

  /** The module's cache variables, updated in place by the two getters. */
  class ProductCache {
    var lastFetchTime: int
    var cachedProductCount: Option<int>
    var cachedProducts: Option<seq<Product>>

    function State(): CacheState
      reads this
    {
      CacheState(lastFetchTime, cachedProductCount, cachedProducts)
    }

    constructor ()
      ensures State() == Initial
    {
      lastFetchTime := 0;
      cachedProductCount := None;
      cachedProducts := None;
    }

    method GetProductCount(now: nat, response: Response<int>) returns (count: int, fetched: bool)
      modifies this
      ensures Served(count, fetched, State()) == CountStep(old(State()), now, response)
    {
      fetched := false;
      if cachedProductCount.None? || now - lastFetchTime > CacheDuration {
        fetched := true;
        if !response.Ok? {
          return cachedProductCount.GetOr(-1), fetched;
        }
        cachedProductCount := Some(response.body);
        lastFetchTime := now;
      }
      count := cachedProductCount.GetOr(-1);
    }

    method GetProducts(now: nat, response: Response<seq<Product>>) returns (products: seq<Product>, fetched: bool)
      modifies this
      ensures Served(products, fetched, State()) == ProductsStep(old(State()), now, response)
    {
      fetched := false;
      if cachedProducts.None? || now - lastFetchTime > CacheDuration {
        fetched := true;
        if !response.Ok? {
          return cachedProducts.GetOr([]), fetched;
        }
        cachedProducts := Some(response.body);
        lastFetchTime := now;
      }
      products := cachedProducts.GetOr([]);
    }
  }

  /** At exactly one hour after the last fetch a cached count is still served. */
  lemma CountFreshAtLimit(s: CacheState, response: Response<int>)
    requires s.count.Some?
    ensures CountStep(s, s.lastFetchTime + CacheDuration, response) == Served(s.count.value, false, s)
  {
  }

  /** One millisecond later the count is fetched again. */
  lemma CountExpiresAfterLimit(s: CacheState, response: Response<int>)
    ensures CountStep(s, s.lastFetchTime + CacheDuration + 1, response).fetched
  {
  }

  /**
   * The timestamp is shared: refreshing the product list at time t also keeps a cached count
   * fresh until t + one hour, however old that count is.
   */
  lemma ProductsRefreshKeepsCountFresh(s: CacheState, t: int, list: seq<Product>, now: int, response: Response<int>)
    requires s.count.Some?
    requires s.products.None? || Expired(s, t)
    requires t <= now <= t + CacheDuration
    ensures CountStep(ProductsStep(s, t, Ok(list)).next, now, response)
         == Served(s.count.value, false, ProductsStep(s, t, Ok(list)).next)
  {
  }

  /** And the other way round: refreshing the count keeps a cached product list fresh. */
  lemma CountRefreshKeepsProductsFresh(s: CacheState, t: int, n: int, now: int, response: Response<seq<Product>>)
    requires s.products.Some?
    requires s.count.None? || Expired(s, t)
    requires t <= now <= t + CacheDuration
    ensures ProductsStep(CountStep(s, t, Ok(n)).next, now, response)
         == Served(s.products.value, false, CountStep(s, t, Ok(n)).next)
  {
  }

  /** One call to `getProductCount` at time `now`, with the outcome its fetch would have. */
  datatype CountCall = CountCall(now: int, response: Response<int>)

  /** A sequence of `getProductCount` calls: the final cache, the values served, and the number of fetches. */
  function RunCounts(s: CacheState, calls: seq<CountCall>): (CacheState, seq<int>, nat)
    decreases |calls|
  {
    if calls == [] then (s, [], 0)
    else
      var step := CountStep(s, calls[0].now, calls[0].response);
      var rest := RunCounts(step.next, calls[1..]);
      (rest.0, [step.value] + rest.1, (if step.fetched then 1 else 0) + rest.2)
  }

  /**
   * Any number of calls within the hour after a fetch are all cache hits: no request is made,
   * every call serves the cached count, and the cache is left as it was.
   */
  lemma {:induction false} CallsWithinWindowAreHits(s: CacheState, calls: seq<CountCall>)
    requires s.count.Some?
    requires forall i :: 0 <= i < |calls| ==> calls[i].now - s.lastFetchTime <= CacheDuration
    ensures RunCounts(s, calls).0 == s
    ensures RunCounts(s, calls).2 == 0
    ensures |RunCounts(s, calls).1| == |calls|
    ensures forall i :: 0 <= i < |calls| ==> RunCounts(s, calls).1[i] == s.count.value
    decreases |calls|
  {
    if calls != [] {
      CallsWithinWindowAreHits(s, calls[1..]);
      var rest := RunCounts(s, calls[1..]);
      assert RunCounts(s, calls).1 == [s.count.value] + rest.1;
    }
  }

  /** Once a count has been fetched, the cache never again answers -1 unless the backend said so. */
  lemma {:induction false} NoFallbackAfterFetch(s: CacheState, calls: seq<CountCall>)
    requires s.count.Some? && s.count.value != -1
    requires forall i :: 0 <= i < |calls| ==> calls[i].response.Ok? ==> calls[i].response.body != -1
    ensures forall i :: 0 <= i < |RunCounts(s, calls).1| ==> RunCounts(s, calls).1[i] != -1
    ensures RunCounts(s, calls).0.count.Some?
    decreases |calls|
  {
    if calls != [] {
      var step := CountStep(s, calls[0].now, calls[0].response);
      NoFallbackAfterFetch(step.next, calls[1..]);
      assert RunCounts(s, calls).1 == [step.value] + RunCounts(step.next, calls[1..]).1;
    }
  }

  /** The `statistics` request header `getProduct` sends. */
  function StatisticsHeader(username: Option<string>): (h: string)
    ensures |h| >= 13 && h[..13] == "prijzencheck," && h[13..] == username.GetOr([])
  {
    "prijzencheck," + username.GetOr([])
  }

  /** The backend can split the header back into the application name and the username. */
  lemma {:induction false} HeaderSplitsIntoAppAndUser(username: string)
    requires ',' !in username
    ensures Strings.Split(StatisticsHeader(Some(username)), ',') == ["prijzencheck", username]
  {
    var app := "prijzencheck";
    assert ',' !in app;
    assert StatisticsHeader(Some(username)) == app + [','] + username;
    Strings.SplitAtSeparator(app, username, ',');
    Strings.SplitNoSeparator(username, ',');
  }

  /** `getProduct`: the product on an OK response, otherwise null. */
  function ProductResult(response: Response<Product>): (p: Option<Product>)
    ensures p.Some? <==> response.Ok?
    ensures p.Some? ==> p.value == response.body
  {
    if response.Ok? then Some(response.body) else None
  }
}
