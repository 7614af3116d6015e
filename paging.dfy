/** The pagination rule shared by the list walks of the GitHub client and of
    the star controller: pages are requested as 1, 2, ... with `per_page=100`,
    and the walk stops at the first page that holds fewer than 100 items. */
module Paging {
  import opened Wrappers

  const PerPage: nat := 100

  /** `(totalCount + 99) / 100`: the least page count whose pages hold
      `total` items; zero exactly for an empty collection. */
  function PageCount(total: nat): (p: nat)
    ensures p * 100 >= total
    ensures p > 0 ==> (p - 1) * 100 < total
    ensures p == 0 <==> total == 0
  {
    (total + 99) / 100
  }

  /** The remote holds finitely many pages: every page after `last` is empty. */
  ghost predicate EndsBy<T>(fetch: nat -> Result<seq<T>>, last: nat)
  {
    forall p :: p > last ==> fetch(p) == Ok([])
  }

  /** The remote never answers with more than one page's worth of items. */
  ghost predicate PagesAtMostFull<T>(fetch: nat -> Result<seq<T>>)
  {
    forall p :: fetch(p).Ok? ==> |fetch(p).value| <= PerPage
  }

  function Prepend<T>(items: seq<T>, r: Result<seq<seq<T>>>): Result<seq<seq<T>>>
  {
    match r
    case Err(e) => Err(e)
    case Ok(rest) => Ok([items] + rest)
  }

  /** The pages already received, put in front of what the rest of a walk
      receives. */
  function Glue<T>(got: seq<seq<T>>, r: Result<seq<seq<T>>>): Result<seq<seq<T>>>
  {
    match r
    case Err(e) => Err(e)
    case Ok(rest) => Ok(got + rest)
  }

  /** The pages a walk starting at page `p` receives, in request order, up to
      and including the first short page; or the first error it meets. */
  function Pages<T>(fetch: nat -> Result<seq<T>>, p: nat, last: nat): Result<seq<seq<T>>>
    requires EndsBy(fetch, last)
    decreases last + 1 - p
  {
    match fetch(p)
    case Err(e) => Err(e)
    case Ok(items) =>
      if |items| < PerPage then Ok([items])
      else Prepend(items, Pages(fetch, p + 1, last))
  }

  /** A walk that has received the pages `got` before page `page` and now
      receives `items`: a full page moves the walk on, a short page ends it,
      an error ends it with that error. */
  lemma WalkStep<T>(fetch: nat -> Result<seq<T>>, last: nat, got: seq<seq<T>>, page: nat, resp: Result<seq<T>>)
    requires EndsBy(fetch, last) && fetch(page) == resp
    requires Pages(fetch, 1, last) == Glue(got, Pages(fetch, page, last))
    ensures resp.Err? ==> Pages(fetch, 1, last) == Err(resp.error)
    ensures resp.Ok? && |resp.value| < PerPage ==> Pages(fetch, 1, last) == Ok(got + [resp.value])
    ensures resp.Ok? && |resp.value| >= PerPage ==>
      Pages(fetch, 1, last) == Glue(got + [resp.value], Pages(fetch, page + 1, last))
  {
    if resp.Ok? && |resp.value| >= PerPage {
      match Pages(fetch, page + 1, last) {
        case Ok(rest) => assert got + ([resp.value] + rest) == got + [resp.value] + rest;
        case Err(_) =>
      }
    }
  }

  /** Every walk starts with nothing received before page 1. */
  lemma WalkStart<T>(fetch: nat -> Result<seq<T>>, last: nat)
    requires EndsBy(fetch, last)
    ensures Pages(fetch, 1, last) == Glue([], Pages(fetch, 1, last))
  {
    match Pages(fetch, 1, last) {
      case Ok(rest) => assert [] + rest == rest;
      case Err(_) =>
    }
  }

  /** All items of the pages, in page order. */
  function Concat<T>(ps: seq<seq<T>>): seq<T>
  {
    if ps == [] then [] else Concat(ps[..|ps| - 1]) + ps[|ps| - 1]
  }

  /** The total number of items of the pages. */
  function Sum<T>(ps: seq<seq<T>>): nat
  {
    if ps == [] then 0 else Sum(ps[..|ps| - 1]) + |ps[|ps| - 1]|
  }

  lemma {:induction false} ConcatLength<T>(ps: seq<seq<T>>)
    ensures |Concat(ps)| == Sum(ps)
  {
    if ps != [] {
      ConcatLength(ps[..|ps| - 1]);
    }
  }

  lemma {:induction false} ConcatAppend<T>(ps: seq<seq<T>>, qs: seq<seq<T>>)
    ensures Concat(ps + qs) == Concat(ps) + Concat(qs)
    ensures Sum(ps + qs) == Sum(ps) + Sum(qs)
    decreases |qs|
  {
    if qs == [] {
      assert ps + qs == ps;
    } else {
      var q, x := qs[..|qs| - 1], qs[|qs| - 1];
      var all := ps + qs;
      assert all[..|all| - 1] == ps + q;
      assert all[|all| - 1] == x;
      ConcatAppend(ps, q);
      assert Concat(all) == Concat(ps) + Concat(q) + x;
      assert Concat(q) + x == Concat(qs);
    }
    ConcatLength(ps);
    ConcatLength(qs);
    ConcatLength(ps + qs);
  }

  /** A successful walk received one page per request, pages `p`, `p + 1`, ...
      in order; every page but the last was full and the last one was short. */
  lemma {:induction false} PagesShape<T>(fetch: nat -> Result<seq<T>>, p: nat, last: nat)
    requires EndsBy(fetch, last)
    requires Pages(fetch, p, last).Ok?
    ensures var ps := Pages(fetch, p, last).value;
      && |ps| >= 1
      && (forall i :: 0 <= i < |ps| ==> fetch(p + i) == Ok(ps[i]))
      && (forall i :: 0 <= i < |ps| - 1 ==> |ps[i]| >= PerPage)
      && |ps[|ps| - 1]| < PerPage
    decreases last + 1 - p
  {
    var items := fetch(p).value;
    if |items| >= PerPage {
      PagesShape(fetch, p + 1, last);
      var rest := Pages(fetch, p + 1, last).value;
      var ps := [items] + rest;
      forall i | 0 <= i < |ps| ensures fetch(p + i) == Ok(ps[i]) {
        if i > 0 {
          assert ps[i] == rest[i - 1];
          assert p + i == (p + 1) + (i - 1);
        }
      }
    }
  }

  /** A failed walk reports the error of a page it requested, all earlier
      pages having been full. */
  lemma {:induction false} PagesError<T>(fetch: nat -> Result<seq<T>>, p: nat, last: nat)
    requires EndsBy(fetch, last)
    requires Pages(fetch, p, last).Err?
    ensures exists q :: (p <= q && fetch(q) == Err(Pages(fetch, p, last).error)
                         && forall j :: p <= j < q ==> fetch(j).Ok? && |fetch(j).value| >= PerPage)
    decreases last + 1 - p
  {
    if fetch(p).Ok? {
      PagesError(fetch, p + 1, last);
      var q :| (p + 1 <= q && fetch(q) == Err(Pages(fetch, p + 1, last).error)
                && forall j :: p + 1 <= j < q ==> fetch(j).Ok? && |fetch(j).value| >= PerPage);
      assert p <= q && fetch(q) == Err(Pages(fetch, p, last).error);
    }
  }

  lemma {:induction false} SumOfFullPages<T>(ps: seq<seq<T>>)
    requires |ps| >= 1
    requires forall i :: 0 <= i < |ps| - 1 ==> |ps[i]| == PerPage
    ensures Sum(ps) == 100 * (|ps| - 1) + |ps[|ps| - 1]|
  {
    if |ps| > 1 {
      var front := ps[..|ps| - 1];
      SumOfFullPages(front);
    }
  }

  /** With pages of at most 100 items, a successful walk made exactly
      `total / 100 + 1` requests, and its last page is empty exactly when the
      total is a multiple of 100: a full page is never taken for the last one,
      so an exact multiple costs one further, empty, request. */
  lemma PagesRequested<T>(fetch: nat -> Result<seq<T>>, p: nat, last: nat)
    requires EndsBy(fetch, last) && PagesAtMostFull(fetch)
    requires Pages(fetch, p, last).Ok?
    ensures var ps := Pages(fetch, p, last).value;
      && |ps| == Sum(ps) / 100 + 1
      && (Sum(ps) % 100 == 0 <==> ps[|ps| - 1] == [])
  {
    PagesShape(fetch, p, last);
    var ps := Pages(fetch, p, last).value;
    forall i | 0 <= i < |ps| - 1 ensures |ps[i]| == PerPage {
      assert fetch(p + i) == Ok(ps[i]);
    }
    assert fetch(p + |ps| - 1) == Ok(ps[|ps| - 1]);
    SumOfFullPages(ps);
  }

  /** Pages of the same sizes hold as many items together. */
  lemma {:induction false} SumOfSameSizes<T, U>(ps: seq<seq<T>>, qs: seq<seq<U>>)
    requires |ps| == |qs| && forall i :: 0 <= i < |ps| ==> |ps[i]| == |qs[i]|
    ensures Sum(ps) == Sum(qs)
  {
    if ps != [] {
      SumOfSameSizes(ps[..|ps| - 1], qs[..|qs| - 1]);
    }
  }

  /** The page numbers `1 .. n`, in order. */
  function PageNumbers(n: nat): (r: seq<nat>)
    ensures |r| == n && forall i :: 0 <= i < n ==> r[i] == i + 1
  {
    seq(n, i requires 0 <= i < n => i + 1)
  }

  /** A walk and the page count of its total agree: the first
      `PageCount(total)` pages of a successful walk hold every item it
      received; only a final empty page, requested because the total is a
      multiple of 100, lies beyond them. */
  lemma PageCountCoversWalk<T>(fetch: nat -> Result<seq<T>>, last: nat)
    requires EndsBy(fetch, last) && PagesAtMostFull(fetch)
    requires Pages(fetch, 1, last).Ok?
    ensures var ps := Pages(fetch, 1, last).value;
      var n := PageCount(Sum(ps));
      && (n == |ps| || (n == |ps| - 1 && ps[|ps| - 1] == []))
      && (forall i :: 0 <= i < n ==> fetch(i + 1) == Ok(ps[i]))
      && Concat(ps[..n]) == Concat(ps)
  {
    var ps := Pages(fetch, 1, last).value;
    PagesShape(fetch, 1, last);
    PagesRequested(fetch, 1, last);
    var s := Sum(ps);
    var q := s / 100;
    assert s == 100 * q + s % 100;
    if s % 100 == 0 {
      assert PageCount(s) == q;
      assert ps == ps[..|ps| - 1] + [ps[|ps| - 1]];
      assert ps[..|ps| - 1] + [ps[|ps| - 1]] == ps;
      assert Concat(ps) == Concat(ps[..|ps| - 1]) + [];
    } else {
      assert PageCount(s) == q + 1;
      assert ps[..|ps|] == ps;
    }
    forall i | 0 <= i < PageCount(s) ensures fetch(i + 1) == Ok(ps[i]) {
      assert fetch(1 + i) == Ok(ps[i]);
    }
  }
}
