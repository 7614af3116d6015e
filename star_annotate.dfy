/** The annotation handlers of the star controller (controllers/star.go):
    `UpdateTag`, `UpdateCategory` and `UpdateDescription`, which edit one field
    of a repository's annotation record and drop the record once it is empty,
    and the lookup `getRepoByID`. The handlers' request parsing is reduced to
    the parsed ID and an optional body (`None` when binding the JSON fails). */
module StarAnnotate {
  import opened Wrappers
  import opened GitHub
  import opened Repository

  /** The record an update starts from: the stored one, or a fresh `{ID}`. */
  function Current(tags: map<int, RepoTag>, id: int): RepoTag
  {
    if id in tags then tags[id] else RepoTag(id, "", "", "")
  }

  /** Save `info` under its own ID, or delete `id` when `empty` says so. */
  function SaveOrDelete(tags: map<int, RepoTag>, id: int, info: RepoTag, empty: bool): map<int, RepoTag>
  {
    if empty then tags - {id} else tags[info.id := info]
  }

  /** The records after `UpdateTag(id, t)`. */
  function AfterTagUpdate(tags: map<int, RepoTag>, id: int, t: string): map<int, RepoTag>
  {
    var info := Current(tags, id).(tag := t);
    SaveOrDelete(tags, id, info, info.tag == "" && info.category == "")
  }

  /** The records after `UpdateCategory(id, c)`. */
  function AfterCategoryUpdate(tags: map<int, RepoTag>, id: int, c: string): map<int, RepoTag>
  {
    var info := Current(tags, id).(category := c);
    SaveOrDelete(tags, id, info, info.tag == "" && info.category == "")
  }

  /** The records after `UpdateDescription(id, d)`. */
  function AfterDescriptionUpdate(tags: map<int, RepoTag>, id: int, d: string): map<int, RepoTag>
  {
    var info := Current(tags, id).(description := d);
    SaveOrDelete(tags, id, info, info.tag == "" && info.category == "" && info.description == "")
  }

  /** Every other ID keeps its record, or its absence. */
  ghost predicate OthersUnchanged(before: map<int, RepoTag>, after: map<int, RepoTag>, id: int)
  {
    forall k :: k != id ==> (k in after <==> k in before) && (k in after ==> after[k] == before[k])
  }

  /** A tag update changes only the tag of the record of `id`; the record is
      kept exactly when the tag or the category is non-empty, so a record with
      a description but neither tag nor category is dropped. */
  lemma TagUpdateEffect(tags: map<int, RepoTag>, id: int, t: string)
    requires Filed(tags)
    ensures var r := AfterTagUpdate(tags, id, t);
      && Filed(r)
      && OthersUnchanged(tags, r, id)
      && (id in r <==> t != "" || Current(tags, id).category != "")
      && (id in r ==> r[id] == RepoTag(id, t, Current(tags, id).category, Current(tags, id).description))
  {
  }

  /** A category update changes only the category of the record of `id`; the
      record is kept exactly when the tag or the category is non-empty. */
  lemma CategoryUpdateEffect(tags: map<int, RepoTag>, id: int, c: string)
    requires Filed(tags)
    ensures var r := AfterCategoryUpdate(tags, id, c);
      && Filed(r)
      && OthersUnchanged(tags, r, id)
      && (id in r <==> Current(tags, id).tag != "" || c != "")
      && (id in r ==> r[id] == RepoTag(id, Current(tags, id).tag, c, Current(tags, id).description))
  {
  }

  /** A description update changes only the description of the record of
      `id`; the record is dropped only when all three fields are empty. */
  lemma DescriptionUpdateEffect(tags: map<int, RepoTag>, id: int, d: string)
    requires Filed(tags)
    ensures var r := AfterDescriptionUpdate(tags, id, d);
      && Filed(r)
      && OthersUnchanged(tags, r, id)
      && (id in r <==> Current(tags, id).tag != "" || Current(tags, id).category != "" || d != "")
      && (id in r ==> r[id] == RepoTag(id, Current(tags, id).tag, Current(tags, id).category, d))
  {
  }

  /** Reading the record back after an update yields the value just written
      and the other two fields as they were, except that a tag or category
      update that empties both drops the description with the record. */
  lemma {:induction false} UpdatesReadBack(tags: map<int, RepoTag>, id: int, s: string)
    requires Filed(tags)
    ensures Current(AfterTagUpdate(tags, id, s), id).tag == s
    ensures Current(AfterTagUpdate(tags, id, s), id).category == Current(tags, id).category
    ensures Current(AfterCategoryUpdate(tags, id, s), id).category == s
    ensures Current(AfterCategoryUpdate(tags, id, s), id).tag == Current(tags, id).tag
    ensures Current(AfterDescriptionUpdate(tags, id, s), id) == Current(tags, id).(description := s)
    ensures s != "" || Current(tags, id).category != "" ==>
      Current(AfterTagUpdate(tags, id, s), id).description == Current(tags, id).description
    ensures s == "" && Current(tags, id).category == "" ==>
      Current(AfterTagUpdate(tags, id, s), id).description == ""
  {
    TagUpdateEffect(tags, id, s);
    CategoryUpdateEffect(tags, id, s);
    DescriptionUpdateEffect(tags, id, s);
  }

  /** After a tag update that keeps the record, the annotated snapshot shows
      the new tag on every repository with that ID; one that drops the record
      shows such a repository as stored, with whatever tag the snapshot itself
      holds. Every other repository reads as before. */
  lemma TagUpdateVisible(repos: seq<Repo>, tags: map<int, RepoTag>, id: int, t: string)
    requires Filed(tags)
    ensures t != "" || Current(tags, id).category != "" ==>
      forall i :: 0 <= i < |repos| && repos[i].id == id ==> Overlay(repos, AfterTagUpdate(tags, id, t))[i].tag == t
    ensures t == "" && Current(tags, id).category == "" ==>
      forall i :: 0 <= i < |repos| && repos[i].id == id ==> Overlay(repos, AfterTagUpdate(tags, id, t))[i] == repos[i]
    ensures forall i :: 0 <= i < |repos| && repos[i].id != id ==>
      Overlay(repos, AfterTagUpdate(tags, id, t))[i] == Overlay(repos, tags)[i]
  {
    TagUpdateEffect(tags, id, t);
  }

  /** `UpdateTag`. A body that does not bind is refused and nothing changes. */
  method UpdateTag(store: FileRepository, id: int, body: Option<string>) returns (accepted: bool)
    requires store.Valid()
    modifies store
    ensures accepted <==> body.Some?
    ensures store.tags == (if body.Some? then AfterTagUpdate(old(store.tags), id, body.value) else old(store.tags))
    ensures store.repos == old(store.repos) && store.syncTime == old(store.syncTime)
    ensures store.Valid()
  {
    if body.None? {
      return false;
    }
    var stored := store.GetRepoTag(id);
    var tagInfo := if stored.Some? then stored.value else RepoTag(id, "", "", "");
    tagInfo := tagInfo.(tag := body.value);
    if tagInfo.tag == "" && tagInfo.category == "" {
      store.DeleteRepoTag(id);
    } else {
      store.SaveRepoTag(tagInfo);
    }
    return true;
  }

  /** `UpdateCategory`. A body that does not bind is refused and nothing
      changes. */
  method UpdateCategory(store: FileRepository, id: int, body: Option<string>) returns (accepted: bool)
    requires store.Valid()
    modifies store
    ensures accepted <==> body.Some?
    ensures store.tags == (if body.Some? then AfterCategoryUpdate(old(store.tags), id, body.value) else old(store.tags))
    ensures store.repos == old(store.repos) && store.syncTime == old(store.syncTime)
    ensures store.Valid()
  {
    if body.None? {
      return false;
    }
    var stored := store.GetRepoTag(id);
    var tagInfo := if stored.Some? then stored.value else RepoTag(id, "", "", "");
    tagInfo := tagInfo.(category := body.value);
    if tagInfo.tag == "" && tagInfo.category == "" {
      store.DeleteRepoTag(id);
    } else {
      store.SaveRepoTag(tagInfo);
    }
    return true;
  }

  /** `UpdateDescription`. A body that does not bind is refused and nothing
      changes. */
  method UpdateDescription(store: FileRepository, id: int, body: Option<string>) returns (accepted: bool)
    requires store.Valid()
    modifies store
    ensures accepted <==> body.Some?
    ensures store.tags == (if body.Some? then AfterDescriptionUpdate(old(store.tags), id, body.value) else old(store.tags))
    ensures store.repos == old(store.repos) && store.syncTime == old(store.syncTime)
    ensures store.Valid()
  {
    if body.None? {
      return false;
    }
    var stored := store.GetRepoTag(id);
    var tagInfo := if stored.Some? then stored.value else RepoTag(id, "", "", "");
    tagInfo := tagInfo.(description := body.value);
    if tagInfo.tag == "" && tagInfo.category == "" && tagInfo.description == "" {
      store.DeleteRepoTag(id);
    } else {
      store.SaveRepoTag(tagInfo);
    }
    return true;
  }

  /** The first repository of `list` with ID `id`, if any. */
  method FindRepo(list: seq<Repo>, id: int) returns (r: Option<Repo>)
    ensures r.None? <==> forall i :: 0 <= i < |list| ==> list[i].id != id
    ensures r.Some? ==> exists i :: 0 <= i < |list| && list[i] == r.value && r.value.id == id
                                    && forall j :: 0 <= j < i ==> list[j].id != id
  {
    for i := 0 to |list|
      invariant forall j :: 0 <= j < i ==> list[j].id != id
    {
      if list[i].id == id {
        return Some(list[i]);
      }
    }
    return None;
  }

  /** `getRepoByID`: the first repository of the annotated snapshot with that
      ID; the store's error while no snapshot exists, `RepoNotFound` when none
      has the ID. */
  method GetRepoByID(store: FileRepository, id: int) returns (r: Result<Repo>)
    ensures store.repos.None? ==> r == Err(DataFileMissing)
    ensures store.repos.Some? ==>
      var list := Overlay(store.repos.value, store.tags);
      && (r.Err? <==> forall i :: 0 <= i < |list| ==> list[i].id != id)
      && (r.Err? ==> r.error == RepoNotFound(id))
      && (r.Ok? ==> exists i :: 0 <= i < |list| && list[i] == r.value && r.value.id == id
                                && forall j :: 0 <= j < i ==> list[j].id != id)
  {
    var repos := store.GetReposWithTag();
    if repos.Err? {
      return Err(repos.error);
    }
    var found := FindRepo(repos.value, id);
    if found.None? {
      return Err(RepoNotFound(id));
    }
    return Ok(found.value);
  }
}
