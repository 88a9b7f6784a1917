/** The background worker's per-domain visit log: the storage area is a map
    from host name to that host's most recent visits, oldest first, capped at
    `MaxVisitsPerDomain`. Host-name parsing, the clock and the asynchronous
    storage calls are outside the model; their results are passed in. */
module VisitHistory {
  import opened Outcomes
  import opened Numbers

  type Domain = string

  datatype Visit = Visit(url: string, title: string, timestamp: int)

  /** `chrome.storage.local` as the worker uses it. */
  type Store = map<Domain, seq<Visit>>

  /** "Keep only last 10 visits per domain". */
  const MaxVisitsPerDomain: nat := 10

  /** Every domain holds at most the cap. */
  predicate Bounded(store: Store) {
    forall d :: d in store ==> |store[d]| <= MaxVisitsPerDomain
  }

  /** `getVisitHistory(domain)`: a domain never written reads as empty. */
  function GetVisitHistory(store: Store, domain: Domain): (h: seq<Visit>)
    ensures domain !in store ==> h == []
    ensures domain in store ==> h == store[domain]
  {
    if domain in store then store[domain] else []
  }

  /** The last `n` elements of `s` (all of them when there are fewer). */
  function LastN(s: seq<Visit>, n: nat): (r: seq<Visit>)
    ensures |r| == Min(|s|, n)
    ensures r == s[|s| - |r|..]
  {
    if |s| > n then s[|s| - n..] else s
  }

  /** `storeVisitInfo(tab)` once the host name `domain` and the time are
      known: append the visit, then drop the oldest entries beyond the cap. */
  function StoreVisit(store: Store, domain: Domain, visit: Visit): (store': Store)
    ensures store'.Keys == store.Keys + {domain}
    ensures var before := GetVisitHistory(store, domain);
      var after := store'[domain];
      && 0 < |after| <= MaxVisitsPerDomain
      && after[|after| - 1] == visit
      && (|before| < MaxVisitsPerDomain ==> after == before + [visit])
      && (|before| >= MaxVisitsPerDomain ==>
            |after| == MaxVisitsPerDomain && after == (before + [visit])[|before| + 1 - MaxVisitsPerDomain..])
    ensures forall d :: d != domain ==> GetVisitHistory(store', d) == GetVisitHistory(store, d)
  {
    var visits := GetVisitHistory(store, domain) + [visit];
    var kept := if |visits| > MaxVisitsPerDomain then visits[|visits| - MaxVisitsPerDomain..] else visits;
    store[domain := kept]
  }

  /** Storing a visit keeps every domain within the cap. */
  lemma StoreVisitKeepsBound(store: Store, domain: Domain, visit: Visit)
    requires Bounded(store)
    ensures Bounded(StoreVisit(store, domain, visit))
  {
  }

  /** Visits to one domain stored one after another. */
  function StoreVisits(store: Store, domain: Domain, visits: seq<Visit>): Store
    decreases |visits|
  {
    if |visits| == 0 then store
    else StoreVisits(StoreVisit(store, domain, visits[0]), domain, visits[1..])
  }

  /** The history is a bounded FIFO: after any run of visits it is exactly
      the last ten of everything ever recorded for the domain. */
  lemma {:induction false} HistoryIsLastTenOfAllVisits(store: Store, domain: Domain, visits: seq<Visit>)
    requires Bounded(store)
    ensures GetVisitHistory(StoreVisits(store, domain, visits), domain)
         == LastN(GetVisitHistory(store, domain) + visits, MaxVisitsPerDomain)
    decreases |visits|
  {
    var before := GetVisitHistory(store, domain);
    if |visits| == 0 {
      assert before + visits == before;
    } else {
      var next := StoreVisit(store, domain, visits[0]);
      var grown := before + [visits[0]];
      assert GetVisitHistory(next, domain) == LastN(grown, MaxVisitsPerDomain);
      StoreVisitKeepsBound(store, domain, visits[0]);
      HistoryIsLastTenOfAllVisits(next, domain, visits[1..]);
      LastNOfAppendAll(grown, visits[1..], MaxVisitsPerDomain);
      AppendFirst(before, visits);
    }
  }

  lemma AppendFirst(s: seq<Visit>, t: seq<Visit>)
    requires |t| > 0
    ensures s + [t[0]] + t[1..] == s + t
  {
    assert t == [t[0]] + t[1..];
  }

  /** Trimming a prefix to the last `n` does not change the last `n` of any
      extension of it. */
  lemma {:induction false} LastNOfAppendAll(s: seq<Visit>, t: seq<Visit>, n: nat)
    ensures LastN(LastN(s, n) + t, n) == LastN(s + t, n)
  {
    var a := LastN(s, n);
    if |s| > n {
      assert s + t == s[..|s| - n] + (a + t);
    }
  }

  /** Two `storeVisitInfo` calls for the same domain whose `await`s
      interleave, as the code allows: both read the stored list before
      either writes, and the second write replaces the first. */
  function OverlappedStores(store: Store, domain: Domain, first: Visit, second: Visit): (store': Store)
    ensures domain in store'
  {
    var read := GetVisitHistory(store, domain);
    var afterFirst := store[domain := LastN(read + [first], MaxVisitsPerDomain)];
    afterFirst[domain := LastN(read + [second], MaxVisitsPerDomain)]
  }

  /** Overlapping stores lose the first visit even below the cap. */
  lemma OverlappingStoresLoseAVisit(store: Store, domain: Domain, first: Visit, second: Visit)
    requires first != second
    requires first !in GetVisitHistory(store, domain)
    ensures first !in GetVisitHistory(OverlappedStores(store, domain, first, second), domain)
  {
  }

  /** Serialised stores, the behaviour the model adopts, keep both visits
      whenever the history has room for them. */
  lemma SerializedStoresKeepBothVisits(store: Store, domain: Domain, first: Visit, second: Visit)
    requires Bounded(store)
    requires |GetVisitHistory(store, domain)| + 2 <= MaxVisitsPerDomain
    ensures GetVisitHistory(StoreVisits(store, domain, [first, second]), domain)
         == GetVisitHistory(store, domain) + [first, second]
  {
    HistoryIsLastTenOfAllVisits(store, domain, [first, second]);
  }

  /** `clearVisitHistory()`: the storage area is emptied. */
  function ClearVisitHistory(store: Store): (store': Store)
    ensures forall d :: GetVisitHistory(store', d) == []
    ensures Bounded(store')
  {
    map[]
  }

  /** The `tabs.onUpdated` filter: only a completed load of a tab that has a
      (non-empty) URL is recorded. */
  predicate ShouldRecord(status: Option<string>, url: Option<string>) {
    status == Some("complete") && url.Some? && url.value != ""
  }

  /** The `tabs.onUpdated` listener followed by `storeVisitInfo`.
      `hostname` is `new URL(url).hostname`, `None` where the constructor
      throws (the error is logged and nothing is stored); `now` is
      `Date.now()`. */
  function OnTabUpdated(store: Store, status: Option<string>, url: Option<string>, title: string,
                        hostname: string -> Option<Domain>, now: int): (store': Store)
    ensures !ShouldRecord(status, url) ==> store' == store
    ensures ShouldRecord(status, url) && hostname(url.value).None? ==> store' == store
    ensures ShouldRecord(status, url) && hostname(url.value).Some? ==>
      var domain := hostname(url.value).value;
      && GetVisitHistory(store', domain)
           == LastN(GetVisitHistory(store, domain) + [Visit(url.value, title, now)], MaxVisitsPerDomain)
      && |GetVisitHistory(store', domain)| > 0
      && GetVisitHistory(store', domain)[|GetVisitHistory(store', domain)| - 1] == Visit(url.value, title, now)
      && forall d :: d != domain ==> GetVisitHistory(store', d) == GetVisitHistory(store, d)
  {
    if !ShouldRecord(status, url) then
      store
    else
      match hostname(url.value)
      case None => store
      case Some(domain) => StoreVisit(store, domain, Visit(url.value, title, now))
  }

  /** The worker's answers to runtime messages. */
  datatype Response =
    | NoResponse
    | HistoryResponse(history: seq<Visit>)   // { success: true, history }
    | Cleared                                // { success: true }

  /** `chrome.runtime.onMessage` for the two actions the worker serves. */
  function HandleMessage(store: Store, action: string, domain: Domain): (out: (Store, Response))
    ensures action == "getVisitHistory" ==> out == (store, HistoryResponse(GetVisitHistory(store, domain)))
    ensures action == "clearHistory" ==> out.1 == Cleared && forall d :: GetVisitHistory(out.0, d) == []
    ensures action != "getVisitHistory" && action != "clearHistory" ==> out == (store, NoResponse)
  {
    if action == "getVisitHistory" then
      (store, HistoryResponse(GetVisitHistory(store, domain)))
    else if action == "clearHistory" then
      (ClearVisitHistory(store), Cleared)
    else
      (store, NoResponse)
  }
}
