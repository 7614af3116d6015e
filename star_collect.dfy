/** The collection half of the star controller (controllers/star.go): the
    count estimator, the per-page worker that enriches each listed repository
    with its details, the fan-in of the page results and the collection
    progress formula. Each request to the starred list is answered by an
    oracle `list(page, attempt)` whose outer `Result` is the transport (what a
    retry can cure) and whose inner `Result` is the decoding of the body. */
module StarCollect {
  import opened Wrappers
  import opened Strings
  import opened Paging
  import opened GitHub

  /** The fields the page worker decodes from one item of the starred list. */
  datatype Listed = Listed(
    id: int,
    name: string,
    htmlUrl: string,
    stargazersCount: int,
    description: string,
    language: string,
    topics: seq<string>)

  /** One request of the starred list: page number and attempt number to the
      transport outcome, holding the decode outcome. */
  type ListCall = (nat, nat) -> Result<Result<seq<Listed>>>

  /** One detail request: full name and attempt number to the answer of
      `GithubUtil.GetRepoDetails`. */
  type DetailCall = (string, nat) -> Result<Repo>

  const MaxAttempts: nat := 3

  // ---------------------------------------------------------------- retry

  /** What a three-attempt retry loop ends with: the first successful answer,
      or the answer of the last attempt when none succeeds. */
  function Retried<T>(call: nat -> Result<T>): Result<T>
  {
    if call(0).Ok? then call(0)
    else if call(1).Ok? then call(1)
    else call(2)
  }

  /** A retry succeeds exactly when one of the three attempts does, and then
      with the answer of the first one that does; a failed retry reports the
      last attempt's error. */
  lemma RetriedMeaning<T>(call: nat -> Result<T>)
    ensures Retried(call).Ok? <==> exists a :: 0 <= a < MaxAttempts && call(a).Ok?
    ensures Retried(call).Ok? ==>
      exists a :: 0 <= a < MaxAttempts && Retried(call) == call(a) && forall b :: 0 <= b < a ==> call(b).Err?
    ensures Retried(call).Err? ==> Retried(call) == call(MaxAttempts - 1)
  {
    if call(0).Ok? {
      assert Retried(call) == call(0);
    } else if call(1).Ok? {
      assert Retried(call) == call(1);
    } else if call(2).Ok? {
      assert Retried(call) == call(2);
    }
  }

  /** The retry loops of `getTotalStarredRepos`, `getPageStarredRepos` and
      the detail requests: try up to three times, stop at the first success.
      `attempts` is how many requests were made. */
  method RetryCall<T>(call: nat -> Result<T>) returns (r: Result<T>, attempts: nat)
    ensures r == Retried(call)
    ensures 1 <= attempts <= MaxAttempts && r == call(attempts - 1)
    ensures forall b :: 0 <= b < attempts - 1 ==> call(b).Err?
    ensures r.Err? ==> attempts == MaxAttempts
  {
    r := call(0);
    attempts := 1;
    while r.Err? && attempts < MaxAttempts
      invariant 1 <= attempts <= MaxAttempts && r == call(attempts - 1)
      invariant forall b :: 0 <= b < attempts - 1 ==> call(b).Err?
    {
      r := call(attempts);
      attempts := attempts + 1;
    }
  }

  /** The attempts at one page of the list. */
  function Attempts(list: ListCall, page: nat): nat -> Result<Result<seq<Listed>>>
  {
    (a: nat) => list(page, a)
  }

  /** The attempts at the details of one repository. */
  function DetailAttempts(detail: DetailCall, name: string): nat -> Result<Repo>
  {
    (a: nat) => detail(name, a)
  }

  /** What a worker makes of one page: its items, or the error of the last
      failed request, or the decode error, numbered with the page. */
  function PageOutcome(list: ListCall, page: nat): Result<seq<Listed>>
  {
    match Retried(Attempts(list, page))
    case Err(e) => Err(PageFetchFailed(page, e))
    case Ok(decoded) =>
      match decoded
      case Err(e) => Err(PageDecodeFailed(page, e))
      case Ok(items) => Ok(items)
  }

  /** One list page as both list walks of the controller request it: up to
      three attempts, then the decoded items, or the error numbered with the
      page. */
  method FetchListPage(list: ListCall, page: nat) returns (r: Result<seq<Listed>>)
    ensures r == PageOutcome(list, page)
  {
    var resp, attempts := RetryCall(Attempts(list, page));
    if resp.Err? {
      return Err(PageFetchFailed(page, resp.error));
    }
    if resp.value.Err? {
      return Err(PageDecodeFailed(page, resp.value.error));
    }
    return Ok(resp.value.value);
  }

  /** The list as seen page by page, after retries. */
  function ListingFetcher(list: ListCall): nat -> Result<seq<Listed>>
  {
    (p: nat) => PageOutcome(list, p)
  }

  /** The remote holds finitely many pages: past `last`, every request is
      answered with an empty page. */
  ghost predicate ListEndsBy(list: ListCall, last: nat)
  {
    forall p, a :: p > last ==> list(p, a) == Ok(Ok([]))
  }

  lemma ListEndsByPages(list: ListCall, last: nat)
    requires ListEndsBy(list, last)
    ensures EndsBy(ListingFetcher(list), last)
  {
    forall p | p > last ensures ListingFetcher(list)(p) == Ok([]) {
      assert Attempts(list, p)(0) == Ok(Ok([]));
    }
  }

  // ------------------------------------------------------------ estimator

  /** What `getTotalStarredRepos` returns: the number of items on the pages up
      to and including the first short one, or the first error. */
  function TotalStarred(list: ListCall, last: nat): Result<nat>
    requires EndsBy(ListingFetcher(list), last)
  {
    match Pages(ListingFetcher(list), 1, last)
    case Ok(ps) => Ok(Sum(ps))
    case Err(e) => Err(e)
  }

  /** `getTotalStarredRepos`: walks the list page by page, adding up the page
      sizes, and stops after the first page of fewer than 100 items. A request
      that fails three times, or a page that does not decode, ends the walk
      with that error. */
  method GetTotalStarredRepos(list: ListCall, ghost last: nat) returns (r: Result<nat>)
    requires EndsBy(ListingFetcher(list), last)
    ensures r == TotalStarred(list, last)
  {
    ghost var fetch := ListingFetcher(list);
    var page: nat := 1;
    var totalCount: nat := 0;
    ghost var got: seq<seq<Listed>> := [];
    WalkStart(fetch, last);
    while true
      invariant totalCount == Sum(got)
      invariant Pages(fetch, 1, last) == Glue(got, Pages(fetch, page, last))
      decreases last + 1 - page
    {
      var resp := FetchListPage(list, page);
      WalkStep(fetch, last, got, page, resp);
      if resp.Err? {
        return Err(resp.error);
      }
      var repos := resp.value;
      ghost var prev := got;
      got := got + [repos];
      assert got[..|got| - 1] == prev;
      totalCount := totalCount + |repos|;
      if |repos| < PerPage {
        return Ok(totalCount);
      }
      page := page + 1;
    }
  }

  /** The estimator and the workers issue their list requests separately: a
      list that changes in between, or a request that fails for one and not
      for the other, makes them see different pages. `SamePages` is the case
      where the workers' requests for pages `1 .. n` end, after retries, as the
      estimator's did. */
  ghost predicate SamePages(list: ListCall, pages: ListCall, n: nat)
  {
    forall p :: 1 <= p <= n ==> PageOutcome(pages, p) == PageOutcome(list, p)
  }

  /** The page count the collector derives from the estimate covers exactly
      the pages the estimator walked through, bar a final empty one: when the
      workers see the pages the estimator saw, their pages hold every counted
      item. */
  lemma EstimateCoversPages(list: ListCall, pages: ListCall, last: nat)
    requires EndsBy(ListingFetcher(list), last) && PagesAtMostFull(ListingFetcher(list))
    requires TotalStarred(list, last).Ok?
    requires SamePages(list, pages, PageCount(TotalStarred(list, last).value))
    ensures var ps := Pages(ListingFetcher(list), 1, last).value;
      var n := PageCount(TotalStarred(list, last).value);
      && n <= |ps|
      && (forall i :: 0 <= i < n ==> PageOutcome(pages, i + 1) == Ok(ps[i]))
      && Concat(ps[..n]) == Concat(ps)
  {
    var fetch := ListingFetcher(list);
    PageCountCoversWalk(fetch, last);
    var ps := Pages(fetch, 1, last).value;
    forall i | 0 <= i < PageCount(Sum(ps)) ensures PageOutcome(pages, i + 1) == Ok(ps[i]) {
      assert fetch(i + 1) == Ok(ps[i]);
    }
  }

  // ---------------------------------------------------------- enrichment

  /** `owner/name` from the last two `/`-separated parts of the page URL with
      any ".git" suffix removed; none when the URL has no `/`. */
  function FullName(htmlUrl: string): (r: Option<string>)
    ensures r.None? <==> '/' !in TrimSuffix(htmlUrl, ".git")
  {
    var parts := Split(TrimSuffix(htmlUrl, ".git"), '/');
    SplitHasSeveralPieces(TrimSuffix(htmlUrl, ".git"), '/');
    if |parts| >= 2 then Some(parts[|parts| - 2] + "/" + parts[|parts| - 1]) else None
  }

  /** A GitHub page URL `.../owner/name` yields `owner/name`. */
  lemma FullNameOfPage(prefix: string, owner: string, name: string)
    requires '/' !in owner && '/' !in name
    requires !HasSuffix(prefix + "/" + owner + "/" + name, ".git")
    ensures FullName(prefix + "/" + owner + "/" + name) == Some(owner + "/" + name)
  {
    var url := prefix + "/" + owner + "/" + name;
    var ps := Split(prefix, '/');
    JoinAppend(ps, '/', owner);
    JoinAppend(ps + [owner], '/', name);
    var all := ps + [owner] + [name];
    assert Join(all, '/') == url;
    SplitJoin(all, '/');
    assert Split(url, '/') == all;
  }

  /** The listed fields of a repository. */
  function ListedPart(r: Repo): Listed
  {
    Listed(r.id, r.name, r.htmlUrl, r.stargazersCount, r.description, r.language, r.topics)
  }

  /** The fallback item: the listed fields, no languages, no annotation and no
      README link. */
  function BasicRepo(l: Listed): (r: Repo)
    ensures ListedPart(r) == l
    ensures r.languages == [] && r.tag == "" && r.category == "" && r.readmeUrl == ""
  {
    Repo(l.id, l.name, l.htmlUrl, l.stargazersCount, l.description, l.language, [], l.topics, "", "", "")
  }

  /** The item the worker emits for listed repository `l`: the first detail
      answer of three attempts, with tag and category cleared, or the basic
      item when the URL yields no full name or every attempt fails. */
  function EnrichItem(l: Listed, detail: DetailCall): (r: Repo)
    ensures r.tag == "" && r.category == ""
  {
    match FullName(l.htmlUrl)
    case None => BasicRepo(l)
    case Some(name) =>
      match Retried(DetailAttempts(detail, name))
      case Ok(d) => d.(tag := "", category := "")
      case Err(_) => BasicRepo(l)
  }

  /** The enriched item is the basic one when the URL yields no full name or
      all three detail attempts fail; otherwise it is the answer of the first
      successful attempt, with tag and category cleared. */
  lemma EnrichItemMeaning(l: Listed, detail: DetailCall)
    ensures FullName(l.htmlUrl).None? ==> EnrichItem(l, detail) == BasicRepo(l)
    ensures FullName(l.htmlUrl).Some? ==>
      var calls := DetailAttempts(detail, FullName(l.htmlUrl).value);
      && ((forall a :: 0 <= a < MaxAttempts ==> calls(a).Err?) ==> EnrichItem(l, detail) == BasicRepo(l))
      && ((exists a :: 0 <= a < MaxAttempts && calls(a).Ok?) ==>
            exists a :: 0 <= a < MaxAttempts && calls(a).Ok? && EnrichItem(l, detail) == calls(a).value.(tag := "", category := "")
                        && forall b :: 0 <= b < a ==> calls(b).Err?)
  {
    if FullName(l.htmlUrl).Some? {
      RetriedMeaning(DetailAttempts(detail, FullName(l.htmlUrl).value));
    }
  }

  /** The listed fields survive enrichment whenever the detail answers
      describe the listed repository; the basic item keeps them regardless. */
  lemma EnrichKeepsListedFields(l: Listed, detail: DetailCall)
    requires FullName(l.htmlUrl).Some? ==>
      forall a :: 0 <= a < MaxAttempts && detail(FullName(l.htmlUrl).value, a).Ok? ==>
        ListedPart(detail(FullName(l.htmlUrl).value, a).value) == l
    ensures ListedPart(EnrichItem(l, detail)) == l
  {
    EnrichItemMeaning(l, detail);
    if FullName(l.htmlUrl).Some? {
      var calls := DetailAttempts(detail, FullName(l.htmlUrl).value);
      if exists a :: 0 <= a < MaxAttempts && calls(a).Ok? {
        var a :| 0 <= a < MaxAttempts && calls(a).Ok? && EnrichItem(l, detail) == calls(a).value.(tag := "", category := "");
        assert calls(a) == detail(FullName(l.htmlUrl).value, a);
      }
    }
  }

  /** Every item of a page, enriched in list order. */
  function EnrichAll(items: seq<Listed>, detail: DetailCall): seq<Repo>
  {
    seq(|items|, i requires 0 <= i < |items| => EnrichItem(items[i], detail))
  }

  /** What `getPageStarredRepos` returns for page `page`. */
  function PageResult(list: ListCall, detail: DetailCall, page: nat): Result<seq<Repo>>
  {
    match PageOutcome(list, page)
    case Err(e) => Err(e)
    case Ok(items) => Ok(EnrichAll(items, detail))
  }

  /** A page fails exactly when its list request or decode failed; otherwise it
      holds one item per listed repository, in list order, with the same ID
      when the detail answers agree, never annotated. */
  lemma PageResultShape(list: ListCall, detail: DetailCall, page: nat)
    ensures PageResult(list, detail, page).Ok? <==> PageOutcome(list, page).Ok?
    ensures PageResult(list, detail, page).Err? ==> PageResult(list, detail, page).error == PageOutcome(list, page).error
    ensures PageResult(list, detail, page).Ok? ==>
      var items := PageOutcome(list, page).value;
      var out := PageResult(list, detail, page).value;
      && |out| == |items|
      && forall i :: 0 <= i < |out| ==> out[i] == EnrichItem(items[i], detail) && out[i].tag == "" && out[i].category == ""
  {
  }

  /** `getPageStarredRepos`: fetches one page of the list with retries, then
      enriches its items one by one; `ticks` counts the progress callbacks,
      one per item. */
  method GetPageStarredRepos(list: ListCall, detail: DetailCall, page: nat) returns (r: Result<seq<Repo>>, ticks: nat)
    ensures r == PageResult(list, detail, page)
    ensures r.Ok? ==> ticks == |r.value|
    ensures r.Err? ==> ticks == 0
  {
    var resp := FetchListPage(list, page);
    if resp.Err? {
      return Err(resp.error), 0;
    }
    var detailedRepos;
    detailedRepos, ticks := EnrichPage(resp.value, detail);
    return Ok(detailedRepos), ticks;
  }

  /** The worker's loop over the items of one page: each item enriched, in
      list order, with one progress tick per item. */
  method EnrichPage(repos: seq<Listed>, detail: DetailCall) returns (detailedRepos: seq<Repo>, ticks: nat)
    ensures detailedRepos == EnrichAll(repos, detail)
    ensures ticks == |repos|
  {
    detailedRepos := [];
    ticks := 0;
    for i := 0 to |repos|
      invariant |detailedRepos| == i && ticks == i
      invariant forall k :: 0 <= k < i ==> detailedRepos[k] == EnrichItem(repos[k], detail)
    {
      var item := EnrichOne(repos[i], detail);
      detailedRepos := detailedRepos + [item];
      ticks := ticks + 1;
    }
  }

  /** The worker's handling of one listed repository: the full name from its
      URL, then up to three detail requests, else the basic item. */
  method EnrichOne(repo: Listed, detail: DetailCall) returns (r: Repo)
    ensures r == EnrichItem(repo, detail)
  {
    var fullName := FullName(repo.htmlUrl);
    if fullName.None? {
      return BasicRepo(repo);
    }
    var detailed, detailAttempts := RetryCall(DetailAttempts(detail, fullName.value));
    if detailed.Ok? {
      return detailed.value.(tag := "", category := "");
    }
    return BasicRepo(repo);
  }

  // -------------------------------------------------------------- fan-in

  /** The fan-in over messages in arrival order: the first error, or all
      items in arrival order. */
  function Gathered<T>(arrivals: seq<Result<seq<T>>>): Result<seq<T>>
  {
    if arrivals == [] then Ok([])
    else
      match Gathered(arrivals[..|arrivals| - 1])
      case Err(e) => Err(e)
      case Ok(acc) =>
        match arrivals[|arrivals| - 1]
        case Err(e) => Err(e)
        case Ok(items) => Ok(acc + items)
  }

  /** The values of messages that all succeeded. */
  function Values<T>(s: seq<Result<seq<T>>>): seq<seq<T>>
    requires forall i :: 0 <= i < |s| ==> s[i].Ok?
  {
    seq(|s|, i requires 0 <= i < |s| => s[i].value)
  }

  /** The fan-in succeeds exactly when every message does, and then holds
      their items in arrival order; otherwise it reports the first error in
      arrival order. */
  lemma {:induction false} GatheredMeaning<T>(s: seq<Result<seq<T>>>)
    ensures Gathered(s).Ok? <==> forall i :: 0 <= i < |s| ==> s[i].Ok?
    ensures Gathered(s).Ok? ==> Gathered(s).value == Concat(Values(s)) && |Gathered(s).value| == Sum(Values(s))
    ensures Gathered(s).Err? ==>
      exists i :: 0 <= i < |s| && s[i] == Err(Gathered(s).error) && forall j :: 0 <= j < i ==> s[j].Ok?
  {
    if s != [] {
      var front := s[..|s| - 1];
      GatheredMeaning(front);
      assert forall i :: 0 <= i < |front| ==> front[i] == s[i];
      if Gathered(s).Ok? {
        assert Values(s)[..|s| - 1] == Values(front);
        ConcatLength(Values(s));
      } else if Gathered(front).Err? {
        var i :| 0 <= i < |front| && front[i] == Err(Gathered(front).error) && forall j :: 0 <= j < i ==> front[j].Ok?;
        assert s[i] == front[i];
      } else {
        assert s[|s| - 1] == Err(Gathered(s).error);
      }
    }
  }

  /** Once an error has been gathered, later messages change nothing. */
  lemma {:induction false} GatheredStopsAtError<T>(s: seq<Result<seq<T>>>, k: nat)
    requires k <= |s| && Gathered(s[..k]).Err?
    ensures Gathered(s) == Gathered(s[..k])
    decreases |s| - k
  {
    if k < |s| {
      assert s[..k + 1][..k] == s[..k];
      GatheredStopsAtError(s, k + 1);
    } else {
      assert s[..k] == s;
    }
  }

  /** The fan-in of `getAllStarredReposDetailed`: receives one message per
      page in arrival order, appends each page's items, and returns at the
      first error. `consumed` is how many messages it received. */
  method FanIn<T>(arrivals: seq<Result<seq<T>>>) returns (r: Result<seq<T>>, consumed: nat)
    ensures r == Gathered(arrivals)
    ensures r.Ok? ==> consumed == |arrivals|
    ensures r.Err? ==> 1 <= consumed <= |arrivals| && arrivals[consumed - 1] == Err(r.error)
                       && forall j :: 0 <= j < consumed - 1 ==> arrivals[j].Ok?
  {
    var allRepos: seq<T> := [];
    consumed := 0;
    while consumed < |arrivals|
      invariant 0 <= consumed <= |arrivals|
      invariant Gathered(arrivals[..consumed]) == Ok(allRepos)
      invariant forall j :: 0 <= j < consumed ==> arrivals[j].Ok?
    {
      var msg := arrivals[consumed];
      assert arrivals[..consumed + 1][..consumed] == arrivals[..consumed];
      consumed := consumed + 1;
      if msg.Err? {
        GatheredStopsAtError(arrivals, consumed);
        return Err(msg.error), consumed;
      }
      allRepos := allRepos + msg.value;
    }
    assert arrivals[..consumed] == arrivals;
    return Ok(allRepos), consumed;
  }

  // ----------------------------------------------------------- collector

  /** `order` lists `1 .. n`, each exactly once, in some order: the order in
      which the pages reach the fan-in, or in which the progress callbacks
      write their counts. */
  ghost predicate IsOrderOf(order: seq<nat>, n: nat)
  {
    multiset(order) == multiset(PageNumbers(n))
  }

  lemma ArrivalOrderInRange(order: seq<nat>, n: nat)
    requires IsOrderOf(order, n)
    ensures |order| == n
    ensures forall i :: 0 <= i < |order| ==> 1 <= order[i] <= n
  {
    assert |multiset(order)| == |order|;
    assert |multiset(PageNumbers(n))| == n;
    forall i | 0 <= i < |order| ensures 1 <= order[i] <= n {
      assert order[i] in multiset(order);
      assert order[i] in multiset(PageNumbers(n));
      assert order[i] in PageNumbers(n);
    }
  }

  /** The page results in page order, for pages `1 .. n`. */
  function PageResults(list: ListCall, detail: DetailCall, n: nat): seq<Result<seq<Repo>>>
  {
    seq(n, i requires 0 <= i < n => PageResult(list, detail, i + 1))
  }

  /** The page results in the order they reach the fan-in. */
  function Arrivals(list: ListCall, detail: DetailCall, order: seq<nat>): seq<Result<seq<Repo>>>
  {
    seq(|order|, i requires 0 <= i < |order| => PageResult(list, detail, order[i]))
  }

  /** The number of items on the pages that succeeded: the progress ticks. */
  function OkItems<T>(rs: seq<Result<seq<T>>>): nat
  {
    if rs == [] then 0
    else OkItems(rs[..|rs| - 1]) + (match rs[|rs| - 1] case Ok(v) => |v| case Err(_) => 0)
  }

  /** `getAllStarredReposDetailed`: one worker per page `1 .. (total + 99) / 100`
      (run here one after another), then the fan-in over the page results in
      arrival order `order`. `requested` are the pages whose workers start;
      `reported` are the running counts taken under the mutex, in the order
      the workers take them, each then handed to the progress callback. */
  method GetAllStarredReposDetailed(list: ListCall, detail: DetailCall, totalCount: nat, order: seq<nat>)
    returns (r: Result<seq<Repo>>, requested: seq<nat>, reported: seq<nat>)
    requires IsOrderOf(order, PageCount(totalCount))
    ensures requested == PageNumbers(PageCount(totalCount))
    ensures r == Gathered(Arrivals(list, detail, order))
    ensures |reported| == OkItems(PageResults(list, detail, PageCount(totalCount)))
    ensures forall k :: 0 <= k < |reported| ==> reported[k] == k + 1
    ensures totalCount == 0 ==> requested == [] && reported == [] && r == Ok([])
  {
    var totalPages := (totalCount + 99) / 100;
    ArrivalOrderInRange(order, totalPages);
    var results;
    results, requested, reported := RunWorkers(list, detail, totalPages);
    var arrivals := seq(|order|, i requires 0 <= i < |order| => results[order[i] - 1]);
    assert arrivals == Arrivals(list, detail, order);
    var consumed;
    r, consumed := FanIn(arrivals);
  }

  /** The workers of pages `1 .. totalPages`, one after another: the page
      results in page order, the pages requested and the progress counts
      reported, one per item of a page that succeeded. */
  method RunWorkers(list: ListCall, detail: DetailCall, totalPages: nat)
    returns (results: seq<Result<seq<Repo>>>, requested: seq<nat>, reported: seq<nat>)
    ensures results == PageResults(list, detail, totalPages)
    ensures requested == PageNumbers(totalPages)
    ensures |reported| == OkItems(results)
    ensures forall k :: 0 <= k < |reported| ==> reported[k] == k + 1
  {
    results := [];
    requested := [];
    reported := [];
    var processedCount: nat := 0;
    var page := 1;
    while page <= totalPages
      invariant 1 <= page <= totalPages + 1
      invariant |results| == page - 1
      invariant forall k :: 0 <= k < |results| ==> results[k] == PageResult(list, detail, k + 1)
      invariant requested == PageNumbers(page - 1)
      invariant processedCount == |reported| == OkItems(results)
      invariant forall k :: 0 <= k < |reported| ==> reported[k] == k + 1
    {
      var repos, ticks := GetPageStarredRepos(list, detail, page);
      processedCount, reported := CountTicks(processedCount, reported, ticks);
      assert (results + [repos])[..|results|] == results;
      results := results + [repos];
      requested := requested + [page];
      page := page + 1;
    }
    assert results == PageResults(list, detail, totalPages);
  }

  /** The progress callbacks of one page: each tick raises the shared count
      by one and reports it. */
  method CountTicks(processedCount: nat, reported: seq<nat>, ticks: nat) returns (count: nat, out: seq<nat>)
    requires processedCount == |reported|
    requires forall k :: 0 <= k < |reported| ==> reported[k] == k + 1
    ensures count == |out| == processedCount + ticks
    ensures forall k :: 0 <= k < |out| ==> out[k] == k + 1
  {
    count, out := processedCount, reported;
    var t := 0;
    while t < ticks
      invariant 0 <= t <= ticks
      invariant count == |out| == processedCount + t
      invariant forall k :: 0 <= k < |out| ==> out[k] == k + 1
    {
      count := count + 1;
      out := out + [count];
      t := t + 1;
    }
  }

  // -------------------------------------------------------- arrival order

  /** `g` applied to each element of `s`, in order. */
  function Apply<A, B>(g: A -> B, s: seq<A>): (r: seq<B>)
    ensures |r| == |s| && forall i :: 0 <= i < |s| ==> r[i] == g(s[i])
  {
    seq(|s|, i requires 0 <= i < |s| => g(s[i]))
  }

  lemma ApplyAppend<A, B>(g: A -> B, a: seq<A>, b: seq<A>)
    ensures Apply(g, a + b) == Apply(g, a) + Apply(g, b)
  {
    assert forall i :: 0 <= i < |a + b| ==> Apply(g, a + b)[i] == (Apply(g, a) + Apply(g, b))[i];
  }

  /** Taking element `j` out of `b`. */
  lemma PickOut<T>(b: seq<T>, j: nat)
    requires j < |b|
    ensures b == b[..j] + [b[j]] + b[j + 1..]
    ensures multiset(b[..j] + b[j + 1..]) == multiset(b) - multiset{b[j]}
  {
    assert b == b[..j] + [b[j]] + b[j + 1..];
  }

  /** The last element of `a` sits at position `j` of its permutation `b`,
      and the rest of `a` is a permutation of `b` without it. */
  lemma MatchLast<T>(a: seq<T>, b: seq<T>) returns (j: nat)
    requires |a| > 0 && multiset(a) == multiset(b)
    ensures j < |b| && b[j] == a[|a| - 1]
    ensures a == a[..|a| - 1] + [a[|a| - 1]]
    ensures b == b[..j] + [b[j]] + b[j + 1..]
    ensures multiset(a[..|a| - 1]) == multiset(b[..j] + b[j + 1..])
  {
    var x := a[|a| - 1];
    assert x in multiset(b);
    j :| 0 <= j < |b| && b[j] == x;
    assert a == a[..|a| - 1] + [x];
    assert multiset(a[..|a| - 1]) == multiset(a) - multiset{x};
    PickOut(b, j);
  }

  /** Applying a function to two permutations of each other gives two
      permutations of each other. */
  lemma {:induction false} ApplyPermutes<A, B>(g: A -> B, a: seq<A>, b: seq<A>)
    requires multiset(a) == multiset(b)
    ensures multiset(Apply(g, a)) == multiset(Apply(g, b))
    decreases |a|
  {
    if |a| == 0 {
      assert |multiset(b)| == 0;
      assert b == [];
    } else {
      var j := MatchLast(a, b);
      var a', x := a[..|a| - 1], a[|a| - 1];
      var b1, b2 := b[..j], b[j + 1..];
      ApplyPermutes(g, a', b1 + b2);
      ApplyAppend(g, a', [x]);
      ApplyAppend(g, b1 + [x], b2);
      ApplyAppend(g, b1, [x]);
      ApplyAppend(g, b1, b2);
    }
  }

  /** The items of the pages of `b`, with page `j` taken out or left in. */
  lemma ConcatPickOut<T>(b: seq<seq<T>>, j: nat)
    requires j < |b|
    ensures Concat(b) == Concat(b[..j]) + b[j] + Concat(b[j + 1..])
    ensures Concat(b[..j] + b[j + 1..]) == Concat(b[..j]) + Concat(b[j + 1..])
  {
    PickOut(b, j);
    ConcatAppend(b[..j], [b[j]]);
    ConcatAppend(b[..j] + [b[j]], b[j + 1..]);
    ConcatAppend(b[..j], b[j + 1..]);
    assert [b[j]][..0] == [];
  }

  lemma {:induction false} ConcatPermutes<T>(a: seq<seq<T>>, b: seq<seq<T>>)
    requires multiset(a) == multiset(b)
    ensures multiset(Concat(a)) == multiset(Concat(b))
    decreases |a|
  {
    if |a| == 0 {
      assert |multiset(b)| == 0;
      assert b == [];
    } else {
      var j := MatchLast(a, b);
      var a', x := a[..|a| - 1], a[|a| - 1];
      var b' := b[..j] + b[j + 1..];
      ConcatPermutes(a', b');
      ConcatPickOut(b, j);
      calc {
        multiset(Concat(a));
        { assert Concat(a) == Concat(a') + x; }
        multiset(Concat(a')) + multiset(x);
        multiset(Concat(b')) + multiset(x);
        multiset(Concat(b[..j])) + multiset(Concat(b[j + 1..])) + multiset(x);
        multiset(Concat(b));
      }
    }
  }

  lemma SumPermutes<T>(a: seq<seq<T>>, b: seq<seq<T>>)
    requires multiset(a) == multiset(b)
    ensures Sum(a) == Sum(b)
    ensures multiset(Concat(a)) == multiset(Concat(b))
  {
    ConcatPermutes(a, b);
    ConcatLength(a);
    ConcatLength(b);
    assert |multiset(Concat(a))| == |Concat(a)|;
    assert |multiset(Concat(b))| == |Concat(b)|;
  }

  /** Fan-ins over two permutations of the same messages agree on success,
      and then hold the same items; a failed one reports one of the errors. */
  lemma GatheredPermutes<T>(a: seq<Result<seq<T>>>, b: seq<Result<seq<T>>>)
    requires multiset(a) == multiset(b)
    ensures Gathered(a).Ok? <==> Gathered(b).Ok?
    ensures Gathered(a).Ok? ==>
      multiset(Gathered(a).value) == multiset(Gathered(b).value) && |Gathered(a).value| == |Gathered(b).value|
    ensures Gathered(a).Err? ==> Err(Gathered(a).error) in b
  {
    GatheredMeaning(a);
    GatheredMeaning(b);
    if Gathered(a).Ok? {
      forall i | 0 <= i < |b| ensures b[i].Ok? {
        assert b[i] in multiset(a);
      }
      GatheredOkPermutes(a, b);
    } else {
      var i :| 0 <= i < |a| && a[i] == Err(Gathered(a).error) && forall j :: 0 <= j < i ==> a[j].Ok?;
      assert a[i] in multiset(b);
    }
  }

  lemma GatheredOkPermutes<T>(a: seq<Result<seq<T>>>, b: seq<Result<seq<T>>>)
    requires multiset(a) == multiset(b)
    requires forall i :: 0 <= i < |a| ==> a[i].Ok?
    requires forall i :: 0 <= i < |b| ==> b[i].Ok?
    ensures Gathered(a).Ok? && Gathered(b).Ok?
    ensures multiset(Gathered(a).value) == multiset(Gathered(b).value) && |Gathered(a).value| == |Gathered(b).value|
  {
    GatheredMeaning(a);
    GatheredMeaning(b);
    var g := (m: Result<seq<T>>) => match m case Ok(v) => v case Err(_) => [];
    assert Apply(g, a) == Values(a);
    assert Apply(g, b) == Values(b);
    ApplyPermutes(g, a, b);
    SumPermutes(Values(a), Values(b));
  }

  /** The arrival order decides only the order of the collected items and
      which page's error is reported: the collection succeeds for one order
      exactly when it does for page order, and then holds the same items, as
      many as the pages hold together; a reported error is one page's error. */
  lemma ArrivalOrderIrrelevant(list: ListCall, detail: DetailCall, order: seq<nat>, n: nat)
    requires IsOrderOf(order, n)
    ensures var got := Gathered(Arrivals(list, detail, order));
      var inOrder := Gathered(PageResults(list, detail, n));
      && (got.Ok? <==> inOrder.Ok?)
      && (got.Ok? ==> multiset(got.value) == multiset(inOrder.value) && |got.value| == |inOrder.value|)
      && (got.Err? ==> exists p :: 1 <= p <= n && PageResult(list, detail, p) == Err(got.error))
  {
    var rs := PageResults(list, detail, n);
    var arr := Arrivals(list, detail, order);
    var f := (p: nat) => PageResult(list, detail, p);
    assert Apply(f, PageNumbers(n)) == rs;
    assert Apply(f, order) == arr;
    ApplyPermutes(f, order, PageNumbers(n));
    GatheredPermutes(arr, rs);
    if Gathered(arr).Err? {
      var i :| 0 <= i < |rs| && rs[i] == Err(Gathered(arr).error);
      assert rs[i] == PageResult(list, detail, i + 1);
    }
  }

  /** When the workers see the pages the estimator saw, the collection
      succeeds in any arrival order and holds exactly as many repositories as
      the estimate counted. */
  lemma CollectionMatchesEstimate(list: ListCall, pages: ListCall, detail: DetailCall, last: nat, order: seq<nat>)
    requires EndsBy(ListingFetcher(list), last) && PagesAtMostFull(ListingFetcher(list))
    requires TotalStarred(list, last).Ok?
    requires SamePages(list, pages, PageCount(TotalStarred(list, last).value))
    requires IsOrderOf(order, PageCount(TotalStarred(list, last).value))
    ensures Gathered(Arrivals(pages, detail, order)).Ok?
    ensures |Gathered(Arrivals(pages, detail, order)).value| == TotalStarred(list, last).value
  {
    var ps := Pages(ListingFetcher(list), 1, last).value;
    var n := PageCount(Sum(ps));
    EstimateCoversPages(list, pages, last);
    var rs := PageResults(pages, detail, n);
    forall i | 0 <= i < n ensures rs[i] == Ok(EnrichAll(ps[i], detail)) {
      assert rs[i] == PageResult(pages, detail, i + 1);
    }
    GatheredMeaning(rs);
    SumOfSameSizes(Values(rs), ps[..n]);
    ConcatLength(ps[..n]);
    ConcatLength(ps);
    ArrivalOrderIrrelevant(pages, detail, order, n);
  }

  /** A page whose list request fails for its worker fails the collection,
      whatever the estimate was and in whatever order the pages arrive. */
  lemma WorkerFailureFailsCollection(pages: ListCall, detail: DetailCall, order: seq<nat>, n: nat, p: nat)
    requires IsOrderOf(order, n)
    requires 1 <= p <= n && PageOutcome(pages, p).Err?
    ensures Gathered(Arrivals(pages, detail, order)).Err?
  {
    var rs := PageResults(pages, detail, n);
    assert rs[p - 1] == PageResult(pages, detail, p);
    GatheredMeaning(rs);
    ArrivalOrderIrrelevant(pages, detail, order, n);
  }

  // ------------------------------------------------------------ progress

  /** The collection progress for `processed` items of an estimated `total`:
      `10 + processed * 70 / total`, at most 80. */
  function CollectProgress(processed: nat, total: nat): (p: int)
    requires total > 0
    ensures 10 <= p <= 80
  {
    var v := 10 + processed * 70 / total;
    if v > 80 then 80 else v
  }

  lemma MulMonotone(a: int, b: int, d: nat)
    ensures a <= b ==> a * d <= b * d
  {
  }

  lemma DivMonotone(x: nat, y: nat, d: nat)
    requires x <= y && d > 0
    ensures x / d <= y / d
  {
    var qx, qy := x / d, y / d;
    assert qx * d <= x;
    assert y < qy * d + d;
    MulMonotone(qy + 1, qx, d);
  }

  lemma MulDivCancel(k: nat, d: nat)
    requires d > 0
    ensures (k * d) / d == k
  {
    var q := (k * d) / d;
    assert k * d == q * d + (k * d) % d;
    MulMonotone(q + 1, k, d);
    MulMonotone(k + 1, q, d);
  }

  /** The collection progress starts at 10, reaches 80 once the estimate is
      met, and never goes back while more items are processed. */
  lemma CollectProgressMonotone(a: nat, b: nat, total: nat)
    requires total > 0 && a <= b
    ensures CollectProgress(a, total) <= CollectProgress(b, total)
    ensures CollectProgress(0, total) == 10
    ensures b >= total ==> CollectProgress(b, total) == 80
  {
    DivMonotone(a * 70, b * 70, total);
    if b >= total {
      DivMonotone(70 * total, b * 70, total);
      MulDivCancel(70, total);
    }
  }
}
