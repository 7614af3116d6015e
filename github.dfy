/** The GitHub client of utils/github.go: the paginated starred-list walk and
    the assembly of one repository's details. Each HTTP request, with the
    decoding of its JSON body, is an oracle that answers `Ok(value)` or
    `Err(cause)`. */
module GitHub {
  import opened Wrappers
  import opened Paging

  /** `utils.Repo`. IDs and counts are unbounded integers. */
  datatype Repo = Repo(
    id: int,
    name: string,
    htmlUrl: string,
    stargazersCount: int,
    description: string,
    language: string,
    languages: seq<string>,
    topics: seq<string>,
    tag: string,
    category: string,
    readmeUrl: string)

  ghost predicate Distinct<T>(s: seq<T>)
  {
    forall i, j :: 0 <= i < j < |s| ==> s[i] != s[j]
  }

  /** What `GetStarredRepos` returns for the list oracle `list` (page number to
      the decoded page): all pages up to the first short one, concatenated in
      page order, or the first error with nothing of the pages before it. */
  function StarredRepos(list: nat -> Result<seq<Repo>>, last: nat): Result<seq<Repo>>
    requires EndsBy(list, last)
  {
    match Pages(list, 1, last)
    case Ok(ps) => Ok(Concat(ps))
    case Err(e) => Err(e)
  }

  /** `GithubUtil.GetStarredRepos`: requests pages 1, 2, ... one after the other,
      appends each page to the result and stops after the first page with fewer
      than 100 items. A failed request or decode returns the error at once. */
  method GetStarredRepos(list: nat -> Result<seq<Repo>>, ghost last: nat) returns (r: Result<seq<Repo>>)
    requires EndsBy(list, last)
    ensures r == StarredRepos(list, last)
  {
    var allRepos: seq<Repo> := [];
    ghost var got: seq<seq<Repo>> := [];
    var page: nat := 1;
    WalkStart(list, last);
    while true
      invariant allRepos == Concat(got)
      invariant Pages(list, 1, last) == Glue(got, Pages(list, page, last))
      decreases last + 1 - page
    {
      var resp := list(page);
      WalkStep(list, last, got, page, resp);
      if resp.Err? {
        return Err(resp.error);
      }
      var repos := resp.value;
      ghost var prev := got;
      got := got + [repos];
      assert got[..|got| - 1] == prev;
      allRepos := allRepos + repos;
      if |repos| < PerPage {
        return Ok(allRepos);
      }
      page := page + 1;
    }
  }

  /** `GithubUtil.GetRepoDetails`, given the answers of its two requests: the
      repository itself (`base`) and its language map (`languages`). A failed
      base request or decode is an error; a failed language request or decode
      is only logged. The language names are appended once each, in an
      unspecified order (Go map iteration), and the README link is the page URL
      with "#readme" appended; no other field changes. */
  method GetRepoDetails(base: Result<Repo>, languages: Result<map<string, int>>) returns (r: Result<Repo>)
    ensures base.Err? ==> r == base
    ensures base.Ok? ==> r.Ok?
    ensures base.Ok? ==>
      var b := base.value;
      var x := r.value;
      && x == b.(languages := x.languages, readmeUrl := b.htmlUrl + "#readme")
      && |b.languages| <= |x.languages| && x.languages[..|b.languages|] == b.languages
      && (languages.Err? ==> x.languages == b.languages)
      && (languages.Ok? ==>
            var added := x.languages[|b.languages|..];
            Distinct(added) && forall lang :: lang in added <==> lang in languages.value)
  {
    if base.Err? {
      return base;
    }
    var repo := base.value;
    if languages.Ok? {
      var rest := languages.value.Keys;
      ghost var added: seq<string> := [];
      while rest != {}
        invariant rest <= languages.value.Keys
        invariant repo == base.value.(languages := base.value.languages + added)
        invariant forall lang :: lang in added <==> lang in languages.value && lang !in rest
        invariant Distinct(added)
        decreases rest
      {
        var lang :| lang in rest;
        repo := repo.(languages := repo.languages + [lang]);
        added := added + [lang];
        rest := rest - {lang};
      }
      assert repo.languages[|base.value.languages|..] == added;
    }
    repo := repo.(readmeUrl := repo.htmlUrl + "#readme");
    return Ok(repo);
  }
}
