/** The file-backed store of repository/file_repository.go, held in memory:
    the snapshot of starred repositories (repos.json), the annotation records
    keyed by repository ID (repo_tags.json) and the time of the last sync
    (last_sync.txt). A file that does not exist is a `None` field, except the
    annotation file, which reads as an empty map. */
module Repository {
  import opened Wrappers
  import opened GitHub

  /** `repository.RepoTag`: the user's annotation of one repository. */
  datatype RepoTag = RepoTag(id: int, tag: string, category: string, description: string)

  /** `repository.Stats`. */
  datatype Stats = Stats(totalRepos: nat, analyzedRepos: nat, lastSync: string)

  /** The stored repository list with each annotation record's tag and
      category laid over the repository of the same ID. Length, order and every
      other field, the description included, are those of `repos`. */
  function Overlay(repos: seq<Repo>, tags: map<int, RepoTag>): (r: seq<Repo>)
    ensures |r| == |repos|
    ensures forall i :: 0 <= i < |r| ==>
      && r[i] == repos[i].(tag := r[i].tag, category := r[i].category)
      && (repos[i].id in tags ==> r[i].tag == tags[repos[i].id].tag && r[i].category == tags[repos[i].id].category)
      && (repos[i].id !in tags ==> r[i] == repos[i])
  {
    seq(|repos|, i requires 0 <= i < |repos| =>
      if repos[i].id in tags then repos[i].(tag := tags[repos[i].id].tag, category := tags[repos[i].id].category)
      else repos[i])
  }

  /** A repository counts as analysed once it has a tag or a category. */
  predicate Analyzed(r: Repo)
  {
    r.tag != "" || r.category != ""
  }

  /** The number of analysed repositories of `repos`. */
  function CountAnalyzed(repos: seq<Repo>): nat
  {
    if repos == [] then 0
    else CountAnalyzed(repos[..|repos| - 1]) + (if Analyzed(repos[|repos| - 1]) then 1 else 0)
  }

  /** At most every repository is analysed; all of them exactly when each one
      has a tag or a category, none exactly when none has. */
  lemma {:induction false} CountAnalyzedBounds(repos: seq<Repo>)
    ensures CountAnalyzed(repos) <= |repos|
    ensures CountAnalyzed(repos) == |repos| <==> forall i :: 0 <= i < |repos| ==> Analyzed(repos[i])
    ensures CountAnalyzed(repos) == 0 <==> forall i :: 0 <= i < |repos| ==> !Analyzed(repos[i])
  {
    if repos != [] {
      var front := repos[..|repos| - 1];
      CountAnalyzedBounds(front);
      assert forall i :: 0 <= i < |front| ==> front[i] == repos[i];
    }
  }

  /** Laying the same records over twice changes nothing more. */
  lemma OverlayIdempotent(repos: seq<Repo>, tags: map<int, RepoTag>)
    ensures Overlay(Overlay(repos, tags), tags) == Overlay(repos, tags)
  {
  }

  /** Without records the snapshot reads back as stored. */
  lemma OverlayEmpty(repos: seq<Repo>)
    ensures Overlay(repos, map[]) == repos
  {
  }

  /** Every record is filed under its own ID. */
  predicate Filed(tags: map<int, RepoTag>)
  {
    forall k :: k in tags ==> tags[k].id == k
  }

  class FileRepository {
    /** repos.json; `None` while the file does not exist. */
    var repos: Option<seq<Repo>>
    /** repo_tags.json; a missing file is the empty map. */
    var tags: map<int, RepoTag>
    /** last_sync.txt; `None` while the file does not exist. */
    var syncTime: Option<string>

    /** Every record is filed under its own ID, as `SaveRepoTag` files it. */
    ghost predicate Valid()
      reads this
    {
      Filed(tags)
    }

    /** `NewFileRepository` on an empty data directory. */
    constructor ()
      ensures repos == None && tags == map[] && syncTime == None
      ensures Valid()
    {
      repos := None;
      tags := map[];
      syncTime := None;
    }

    /** `GetReposWithTag`: an error while no snapshot exists; otherwise the
        snapshot with annotations laid over, position by position. */
    method GetReposWithTag() returns (r: Result<seq<Repo>>)
      ensures repos.None? ==> r == Err(DataFileMissing)
      ensures repos.Some? ==> r == Ok(Overlay(repos.value, tags))
    {
      if repos.None? {
        return Err(DataFileMissing);
      }
      var out := repos.value;
      var i := 0;
      while i < |out|
        invariant 0 <= i <= |out| && |out| == |repos.value|
        invariant forall k :: 0 <= k < i ==> out[k] == Overlay(repos.value, tags)[k]
        invariant forall k :: i <= k < |out| ==> out[k] == repos.value[k]
      {
        if out[i].id in tags {
          var info := tags[out[i].id];
          out := out[i := out[i].(tag := info.tag, category := info.category)];
        }
        i := i + 1;
      }
      assert out == Overlay(repos.value, tags);
      return Ok(out);
    }

    /** `SaveRepos`: the snapshot becomes `list`; annotations are untouched. */
    method SaveRepos(list: seq<Repo>)
      modifies this
      ensures repos == Some(list)
      ensures tags == old(tags) && syncTime == old(syncTime)
    {
      repos := Some(list);
    }

    /** `GetRepoTag`: the record filed under `id`, or none. */
    method GetRepoTag(id: int) returns (r: Option<RepoTag>)
      ensures r.Some? <==> id in tags
      ensures r.Some? ==> r.value == tags[id]
      ensures Valid() && r.Some? ==> r.value.id == id
    {
      if id in tags {
        return Some(tags[id]);
      }
      return None;
    }

    /** `SaveRepoTag`: files `t` under its own ID, replacing any earlier
        record there; every other record stays as it was. */
    method SaveRepoTag(t: RepoTag)
      modifies this
      requires Valid()
      ensures tags == old(tags)[t.id := t]
      ensures repos == old(repos) && syncTime == old(syncTime)
      ensures Valid()
    {
      tags := tags[t.id := t];
    }

    /** `DeleteRepoTag`: drops the record filed under `id`, if any. */
    method DeleteRepoTag(id: int)
      modifies this
      requires Valid()
      ensures tags == old(tags) - {id}
      ensures id !in old(tags) ==> tags == old(tags)
      ensures repos == old(repos) && syncTime == old(syncTime)
      ensures Valid()
    {
      tags := tags - {id};
    }

    /** `GetStats`: the number of repositories of the annotated snapshot, how
        many of them have a tag or a category, and the last sync time ("" if
        there was none). */
    method GetStats() returns (r: Result<Stats>)
      ensures repos.None? ==> r == Err(DataFileMissing)
      ensures repos.Some? ==> r.Ok?
      ensures repos.Some? ==>
        && r.value.totalRepos == |repos.value|
        && r.value.analyzedRepos == CountAnalyzed(Overlay(repos.value, tags))
        && r.value.analyzedRepos <= r.value.totalRepos
        && r.value.lastSync == syncTime.GetOr("")
    {
      var withTags := GetReposWithTag();
      if withTags.Err? {
        return Err(withTags.error);
      }
      var list := withTags.value;
      var analyzed: nat := 0;
      var i := 0;
      while i < |list|
        invariant 0 <= i <= |list|
        invariant analyzed == CountAnalyzed(list[..i])
      {
        assert list[..i + 1][..i] == list[..i];
        if Analyzed(list[i]) {
          analyzed := analyzed + 1;
        }
        i := i + 1;
      }
      assert list[..i] == list;
      CountAnalyzedBounds(list);
      var last := LoadSyncTime();
      return Ok(Stats(|list|, analyzed, last));
    }

    /** `SaveSyncTime`, with the formatted current time passed in. */
    method SaveSyncTime(now: string)
      modifies this
      ensures syncTime == Some(now)
      ensures repos == old(repos) && tags == old(tags)
    {
      syncTime := Some(now);
    }

    /** `LoadSyncTime`: the saved time, or "" when none was ever saved. */
    method LoadSyncTime() returns (r: string)
      ensures syncTime.None? ==> r == ""
      ensures syncTime.Some? ==> r == syncTime.value
    {
      if syncTime.None? {
        return "";
      }
      return syncTime.value;
    }
  }

  /** Saving a list and reading it back yields that list with the stored
      annotations laid over it. */
  method SaveThenRead(store: FileRepository, list: seq<Repo>) returns (r: Result<seq<Repo>>)
    modifies store
    ensures r == Ok(Overlay(list, old(store.tags)))
  {
    store.SaveRepos(list);
    r := store.GetReposWithTag();
  }
}
