/** The Tomba and Hunter searches: page and offset windows over a provider's result list
    under an account quota.  The provider is a function of the request, so it may answer
    anything; an honest one answers slices of a fixed list of entries. */
module QuotaPaging {
  import opened Wrappers

  datatype Entry = Entry(id: int)

  datatype Report = QuotaExhausted | ProviderLimit

  function Min(a: int, b: int): int { if a < b then a else b }

  function Max0(a: int): nat { if a < 0 then 0 else a }

  /** Python's xs[lo : lo + n] for non-negative bounds. */
  function Slice(xs: seq<Entry>, lo: nat, n: nat): seq<Entry> {
    var from := Min(lo, |xs|);
    xs[from..Min(lo + n, |xs|)]
  }

  /** Adjacent windows join up, also past the end of the list. */
  lemma SlicesJoin(xs: seq<Entry>, lo: nat, n: nat, m: nat)
    ensures Slice(xs, lo, n) + Slice(xs, lo + n, m) == Slice(xs, lo, n + m)
  {}

  lemma SliceOfSlice(xs: seq<Entry>, lo: nat, n: nat, skip: nat, m: nat)
    ensures Slice(Slice(xs, lo, n), skip, m) == Slice(xs, lo + skip, Min(m, Max0(n - skip)))
  {
    var from, to := Min(lo, |xs|), Min(lo + n, |xs|);
    SliceIndex(xs, from, to, Min(skip, to - from), Min(skip + m, to - from));
  }

  lemma SliceIndex(xs: seq<Entry>, from: nat, to: nat, a: nat, b: nat)
    requires from <= to <= |xs| && a <= b <= to - from
    ensures xs[from..to][a..b] == xs[from + a..from + b]
  {
    forall i | 0 <= i < b - a ensures xs[from..to][a..b][i] == xs[from + a..from + b][i] {
      assert xs[from..to][a + i] == xs[from + a + i];
    }
  }

  lemma SliceLength(xs: seq<Entry>, lo: nat, n: nat)
    ensures |Slice(xs, lo, n)| <= n
    ensures Slice(xs, lo, 0) == []
  {}

  lemma Ceiling(a: nat, size: nat)
    requires size > 0
    ensures var n := (a + size - 1) / size; n * size >= a && (n == 0 || (n - 1) * size < a)
  {
    var n := (a + size - 1) / size;
    assert n * size == (a + size - 1) - (a + size - 1) % size;
    assert n >= 1 ==> (n - 1) * size == n * size - size;
  }

  lemma Distribute(j: nat, k: nat, size: nat)
    ensures (j + k) * size == j * size + k * size
  {}

  /** Asking for what is still missing, rather than for what was missing if the list had
      been long enough, makes no difference: the list has ended. */
  lemma SliceShort(xs: seq<Entry>, start: nat, got: nat, remaining: nat, missing: nat, most: nat)
    requires remaining == missing + got - |Slice(xs, start, got)|
    ensures Slice(xs, start + got, Min(remaining, most)) == Slice(xs, start + got, Min(missing, most))
  {}

  lemma Times(k: nat, size: nat)
    ensures (k + 1) * size == k * size + size
  {}

  lemma TimesMonotone(j: int, k: int, size: nat)
    requires j <= k
    ensures j * size <= k * size
  {}

  // ----- Tomba -----

  type PageProvider = nat -> Option<seq<Entry>>

  ghost predicate HonestPages(provider: PageProvider, entries: seq<Entry>, size: nat) {
    forall page: nat | page >= 1 :: provider(page) == Some(Slice(entries, (page - 1) * size, size))
  }

  datatype Account = Account(isFree: bool, available: int, total: nat)

  class SearchTomba {
    const requestedLimit: Option<nat>
    const start: nat
    var collected: seq<Entry>

    constructor (limit: Option<nat>, start: nat)
      ensures requestedLimit == limit && this.start == start && collected == []
    {
      requestedLimit, this.start, collected := limit, start, [];
    }

    function PageSize(account: Account): nat { if account.isFree then 10 else 50 }

    /** How many entries the search is for. */
    function Wanted(account: Account): nat {
      if account.isFree then (if requestedLimit.Some? then Min(requestedLimit.value, 10) else 10)
      else
        var left := Max0(account.total - start);
        if requestedLimit.Some? then Min(left, requestedLimit.value) else left
    }

    function Needed(account: Account): nat {
      var size := PageSize(account);
      if Wanted(account) == 0 then 0 else (start % size + Wanted(account) + size - 1) / size
    }

    function Affordable(account: Account): nat { Min(Needed(account), Max0(account.available)) }

    /** How many entries n pages reach, from start on. */
    function Reach(account: Account, n: nat): nat {
      if n == 0 then 0 else Max0(Min(Wanted(account), n * PageSize(account) - start % PageSize(account)))
    }

    /** The most entries that the plan, the domain and the caller all allow. */
    lemma WantedIsMost(account: Account, n: nat)
      ensures n <= Wanted(account) <==>
                && (if account.isFree then n <= 10 else n == 0 || start + n <= account.total)
                && (requestedLimit.Some? ==> n <= requestedLimit.value)
    {}

    /** What the search works out before it asks for pages. */
    method Plan(account: Account) returns (pageSize: nat, totalResults: nat, totalNumberReqs: nat)
      ensures pageSize == PageSize(account) && totalResults == Wanted(account) && totalNumberReqs == Needed(account)
      ensures 0 < pageSize
    {
      if account.isFree {
        pageSize := 10;
        totalResults := if requestedLimit.Some? then Min(requestedLimit.value, 10) else 10;
      } else {
        var availableResults := if account.total < start then 0 else account.total - start;
        totalResults := if requestedLimit.Some? then Min(availableResults, requestedLimit.value) else availableResults;
        pageSize := 50;
      }
      totalNumberReqs := if totalResults == 0 then 0 else (start % pageSize + totalResults + pageSize - 1) / pageSize;
    }

    method DoSearch(account: Account, provider: PageProvider, ghost entries: seq<Entry>)
      returns (report: Option<Report>, pages: seq<nat>)
      requires collected == []
      modifies this
      ensures |pages| <= Affordable(account) <= Max0(account.available)
      ensures forall i | 0 <= i < |pages| :: pages[i] == start / PageSize(account) + 1 + i
      ensures |collected| <= Wanted(account)
      ensures HonestPages(provider, entries, PageSize(account)) ==>
                && |pages| == Affordable(account)
                && collected == Slice(entries, start, Reach(account, Affordable(account)))
                && (report == Some(QuotaExhausted) <==> account.available < Needed(account))
    {
      hide Slice, Reach, Needed, Wanted, Min;
      var pageSize, remaining, totalNumberReqs := Plan(account);
      var firstPage := start / pageSize + 1;
      var firstPageSkip := start % pageSize;
      var quotaExhausted := account.available < totalNumberReqs;
      var providerLimitReached := false;
      var pagesToFetch := Affordable(account);
      pages := [];
      Begin(account, entries);
      var i := 0;
      while i < pagesToFetch
        invariant 0 <= i <= pagesToFetch && |pages| == i
        invariant forall j | 0 <= j < i :: pages[j] == firstPage + j
        invariant |collected| <= Wanted(account) && remaining == Wanted(account) - |collected|
        invariant HonestPages(provider, entries, pageSize) ==> collected == Slice(entries, start, Reach(account, i))
      {
        var page := firstPage + i;
        pages := pages + [page];
        var response := provider(page);
        if response.None? {
          return None, pages;
        }
        var skip := if page == firstPage then firstPageSkip else 0;
        providerLimitReached := account.isFree && |response.value| >= pageSize;
        var part := Slice(response.value, skip, remaining);
        SliceLength(response.value, skip, remaining);
        if HonestPages(provider, entries, pageSize) {
          NextPage(account, entries, i, remaining);
        }
        collected := collected + part;
        remaining := remaining - |part|;
        i := i + 1;
      }
      if quotaExhausted {
        return Some(QuotaExhausted), pages;
      }
      if providerLimitReached && (requestedLimit.None? || requestedLimit.value > pageSize) {
        return Some(ProviderLimit), pages;
      }
      return None, pages;
    }

    lemma Begin(account: Account, entries: seq<Entry>)
      ensures Slice(entries, start, Reach(account, 0)) == []
      ensures Affordable(account) <= Max0(account.available)
    {}

    /** How far i pages have got, and what the next one adds. */
    lemma PageArithmetic(account: Account, i: nat)
      requires i < Needed(account)
      ensures var size := PageSize(account);
              var skip := if i == 0 then start % size else 0;
              var got := Reach(account, i);
              && (start / size + i) * size + skip == start + got && got < Wanted(account) && skip < size
              && Reach(account, i + 1) == got + Min(Wanted(account) - got, size - skip)
    {
      var size, total := PageSize(account), Wanted(account);
      var skip := start % size;
      Ceiling(skip + total, size);
      TimesMonotone(i, Needed(account) - 1, size);
      Times(i, size);
      Distribute(start / size, i, size);
      assert start / size * size == start - skip;
    }

    /** Page i of the search carries on exactly where the pages before it stopped. */
    lemma NextPage(account: Account, entries: seq<Entry>, i: nat, remaining: nat)
      requires i < Affordable(account)
      requires remaining == Wanted(account) - |Slice(entries, start, Reach(account, i))|
      ensures var size := PageSize(account);
              var skip := if i == 0 then start % size else 0;
              Slice(entries, start, Reach(account, i))
                  + Slice(Slice(entries, (start / size + i) * size, size), skip, remaining)
                == Slice(entries, start, Reach(account, i + 1))
    {
      hide Slice, Reach, Needed, Wanted;
      var size := PageSize(account);
      var skip := if i == 0 then start % size else 0;
      var got, total := Reach(account, i), Wanted(account);
      PageArithmetic(account, i);
      SliceOfSlice(entries, (start / size + i) * size, size, skip, remaining);
      SliceShort(entries, start, got, remaining, total - got, size - skip);
      SlicesJoin(entries, start, got, Min(total - got, size - skip));
    }

    /** With the quota it needs the search collects the whole window. */
    lemma EnoughQuotaCollectsAll(account: Account)
      requires account.available >= Needed(account)
      ensures Reach(account, Affordable(account)) == Wanted(account)
    {
      Ceiling(start % PageSize(account) + Wanted(account), PageSize(account));
    }

    /** The quota report is exact except for an overdrawn account that wanted nothing. */
    lemma QuotaReportIsExact(account: Account)
      ensures account.available < Needed(account)
         <==> Reach(account, Affordable(account)) < Wanted(account) || (Wanted(account) == 0 && account.available < 0)
    {
      var size, total, n := PageSize(account), Wanted(account), Needed(account);
      Ceiling(start % size + total, size);
      if account.available >= n {
        EnoughQuotaCollectsAll(account);
      } else if n > 0 {
        TimesMonotone(Affordable(account), n - 1, size);
      }
    }
  }

  // ----- Hunter -----

  datatype Window = Window(offset: nat, limit: nat)

  type WindowProvider = Window -> Option<seq<Entry>>

  ghost predicate HonestWindows(provider: WindowProvider, entries: seq<Entry>) {
    forall w: Window :: provider(w) == Some(Slice(entries, w.offset, w.limit))
  }

  /** Windows that cover [lo, hi) once, in order, none over 100 entries. */
  ghost predicate Partition(windows: seq<Window>, lo: nat, hi: nat) {
    if windows == [] then lo == hi
    else
      var last := windows[|windows| - 1];
      && 0 < last.limit <= 100 && last.offset + last.limit == hi
      && lo <= last.offset && Partition(windows[..|windows| - 1], lo, last.offset)
  }

  lemma PartitionEmpty(lo: nat)
    ensures Partition([], lo, lo)
  {}

  lemma PartitionExtends(windows: seq<Window>, lo: nat, hi: nat, limit: nat)
    requires Partition(windows, lo, hi) && lo <= hi && 0 < limit <= 100
    ensures Partition(windows + [Window(hi, limit)], lo, hi + limit)
  {
    assert (windows + [Window(hi, limit)])[..|windows|] == windows;
  }

  class SearchHunter {
    const requestedLimit: Option<nat>
    const limit: nat
    const start: nat
    var collected: seq<Entry>

    constructor (limit: Option<nat>, start: nat)
      ensures requestedLimit == limit && this.start == start && collected == []
      ensures this.limit == if limit.Some? then Min(limit.value, 10) else 10
    {
      requestedLimit, this.start, collected := limit, start, [];
      this.limit := if limit.Some? then Min(limit.value, 10) else 10;
    }

    /** How many entries a paid search is for, and how many its quota reaches. */
    function Wanted(account: Account): nat {
      var left := Max0(account.total - start);
      if requestedLimit.Some? then Min(left, requestedLimit.value) else left
    }

    function Needed(account: Account): nat { (Wanted(account) + 99) / 100 }

    function Reach(account: Account): nat { Min(Wanted(account), Max0(account.available) * 100) }

    /** The most entries that the domain and the caller allow, and of those what the quota
        reaches at 100 a request. */
    lemma WantedIsMost(account: Account, n: nat)
      ensures n <= Wanted(account) <==>
                (n == 0 || start + n <= account.total) && (requestedLimit.Some? ==> n <= requestedLimit.value)
      ensures n <= Reach(account) <==> n <= Wanted(account) && (n == 0 || n <= 100 * account.available)
    {}

    /** What a paid search works out before it asks for windows. */
    method Plan(account: Account) returns (totalNumberReqs: nat, reach: nat)
      ensures totalNumberReqs == Needed(account) && reach == Reach(account)
    {
      var availableResults := if account.total < start then 0 else account.total - start;
      var totalResults :=
        if requestedLimit.Some? then Min(availableResults, requestedLimit.value) else availableResults;
      totalNumberReqs := (totalResults + 99) / 100;
      reach := if account.available <= 0 then 0 else Min(totalResults, account.available * 100);
    }

    method DoSearch(account: Account, provider: WindowProvider, ghost entries: seq<Entry>)
      returns (report: Option<Report>, windows: seq<Window>)
      requires collected == []
      modifies this
      ensures !account.isFree ==>
                |windows| <= Max0(account.available) && |windows| <= Needed(account)
      ensures account.isFree ==> windows == [Window(start, limit)]
      // A free search sends its one request without looking at the quota.
      ensures |windows| <= Max0(account.available) <==> !account.isFree || account.available >= 1
      ensures HonestWindows(provider, entries) && !account.isFree ==>
                && collected == Slice(entries, start, Reach(account))
                && Partition(windows, start, start + Reach(account))
                && report == (if account.available < Needed(account) then Some(QuotaExhausted) else None)
      ensures HonestWindows(provider, entries) && account.isFree ==>
                && collected == Slice(entries, start, limit)
                && (report == Some(ProviderLimit) <==>
                      |Slice(entries, start, limit)| == limit && (requestedLimit.None? || requestedLimit.value > limit))
    {
      if account.isFree {
        report, windows := FreeSearch(provider, entries);
      } else {
        report, windows := PaidSearch(account, provider, entries);
      }
    }

    method FreeSearch(provider: WindowProvider, ghost entries: seq<Entry>)
      returns (report: Option<Report>, windows: seq<Window>)
      requires collected == []
      modifies this
      ensures windows == [Window(start, limit)]
      ensures HonestWindows(provider, entries) ==>
                && collected == Slice(entries, start, limit)
                && (report == Some(ProviderLimit) <==>
                      |Slice(entries, start, limit)| == limit && (requestedLimit.None? || requestedLimit.value > limit))
    {
      windows := [Window(start, limit)];
      var response := provider(windows[0]);
      if response.Some? {
        SliceLength(entries, start, limit);
        collected := response.value;
        if |collected| >= limit && (requestedLimit.None? || requestedLimit.value > limit) {
          return Some(ProviderLimit), windows;
        }
      }
      return None, windows;
    }

    /** A window that starts inside the reach is one of those needed and affordable. */
    lemma WindowWithin(account: Account, k: nat)
      requires 100 * k < Reach(account)
      ensures k + 1 <= Needed(account) && k + 1 <= Max0(account.available)
    {}

    method PaidSearch(account: Account, provider: WindowProvider, ghost entries: seq<Entry>)
      returns (report: Option<Report>, windows: seq<Window>)
      requires collected == []
      modifies this
      ensures |windows| <= Max0(account.available) && |windows| <= Needed(account)
      ensures HonestWindows(provider, entries) ==>
                && collected == Slice(entries, start, Reach(account))
                && Partition(windows, start, start + Reach(account))
                && report == (if account.available < Needed(account) then Some(QuotaExhausted) else None)
    {
      hide Slice, Partition, Needed, Reach, Wanted;
      var totalNumberReqs, reach := Plan(account);
      var quotaExhausted := account.available < totalNumberReqs;
      var resultEnd := start + reach;
      windows := [];
      var offset := start;
      SliceLength(entries, start, 0);
      PartitionEmpty(start);
      while offset < resultEnd
        invariant offset == start + 100 * |windows|
        invariant |windows| <= Max0(account.available) && |windows| <= Needed(account)
        invariant HonestWindows(provider, entries) ==>
                    collected == Slice(entries, start, Min(offset, resultEnd) - start)
        invariant Partition(windows, start, Min(offset, resultEnd))
        decreases resultEnd - offset
      {
        var pageLimit := Min(100, resultEnd - offset);
        var window := Window(offset, pageLimit);
        WindowWithin(account, |windows|);
        PartitionExtends(windows, start, offset, pageLimit);
        SlicesJoin(entries, start, offset - start, pageLimit);
        windows := windows + [window];
        var response := provider(window);
        if response.None? {
          return None, windows;
        }
        collected := collected + response.value;
        offset := offset + 100;
      }
      if quotaExhausted {
        return Some(QuotaExhausted), windows;
      }
      return None, windows;
    }

    /** The quota report is exact except for an overdrawn account that wanted nothing. */
    lemma QuotaReportIsExact(account: Account)
      ensures account.available < Needed(account)
         <==> Reach(account) < Wanted(account) || (Wanted(account) == 0 && account.available < 0)
    {}
  }
}
