/** The synchronisation half of the star controller (controllers/star.go):
    the two merges of the remote list with the local snapshot, the merge
    progress formula, and the two handlers that run a sync, `SyncStars`
    (one answer) and `SyncProgressWS` (a stream of progress events). */
module StarMerge {
  import opened Wrappers
  import opened Paging
  import opened GitHub
  import opened Repository
  import opened StarCollect

  // ---------------------------------------------------------- local index

  /** `localRepoMap`: each ID of the local list to its record. */
  function LocalIndex(local: seq<Repo>): (m: map<int, Repo>)
    ensures forall i :: 0 <= i < |local| ==> local[i].id in m
    ensures forall id :: id in m ==> m[id].id == id
  {
    if local == [] then map[]
    else
      var front := local[..|local| - 1];
      var x := local[|local| - 1];
      assert forall i :: 0 <= i < |front| ==> front[i] == local[i];
      LocalIndex(front)[x.id := x]
  }

  /** Every key is the ID of a local record, and of several local records with
      one ID the last one wins: `i` is the position of the record kept. */
  lemma {:induction false} LocalIndexLastWins(local: seq<Repo>, id: int) returns (i: nat)
    requires id in LocalIndex(local)
    ensures i < |local| && local[i] == LocalIndex(local)[id]
    ensures forall j :: i < j < |local| ==> local[j].id != id
  {
    var front := local[..|local| - 1];
    var x := local[|local| - 1];
    assert LocalIndex(local) == LocalIndex(front)[x.id := x];
    if x.id != id {
      i := LocalIndexLastWins(front, id);
      assert local[i] == front[i];
      forall j | i < j < |local| ensures local[j].id != id {
        if j < |local| - 1 {
          assert local[j] == front[j];
        }
      }
    } else {
      i := |local| - 1;
    }
  }

  /** The loop that fills `localRepoMap`. */
  method BuildLocalIndex(local: seq<Repo>) returns (m: map<int, Repo>)
    ensures m == LocalIndex(local)
  {
    m := map[];
    for i := 0 to |local|
      invariant m == LocalIndex(local[..i])
    {
      assert local[..i + 1][..i] == local[..i];
      m := m[local[i].id := local[i]];
    }
    assert local[..|local|] == local;
  }

  /** What `SyncStars` and `SyncProgressWS` take as the local list: the
      annotated snapshot, or nothing when there is none. */
  function LocalSnapshot(repos: Option<seq<Repo>>, tags: map<int, RepoTag>): seq<Repo>
  {
    match repos
    case None => []
    case Some(list) => Overlay(list, tags)
  }

  // --------------------------------------------------------------- merges

  /** The entry `SyncStars` emits for remote repository `x`. */
  function KeepLocal(x: Repo, index: map<int, Repo>): Repo
  {
    if x.id in index then index[x.id] else x.(tag := "", category := "")
  }

  /** The entry `SyncProgressWS` emits for remote repository `x`. */
  function KeepRemote(x: Repo, index: map<int, Repo>): Repo
  {
    if x.id in index then x else x.(tag := "", category := "")
  }

  /** The merge of `SyncStars`, one entry per remote repository. */
  function MergeKeepingLocal(remote: seq<Repo>, local: seq<Repo>): (r: seq<Repo>)
    ensures |r| == |remote|
  {
    var index := LocalIndex(local);
    seq(|remote|, i requires 0 <= i < |remote| => KeepLocal(remote[i], index))
  }

  /** The merge of `SyncProgressWS`, one entry per remote repository. */
  function MergeKeepingRemote(remote: seq<Repo>, local: seq<Repo>): (r: seq<Repo>)
    ensures |r| == |remote|
  {
    var index := LocalIndex(local);
    seq(|remote|, i requires 0 <= i < |remote| => KeepRemote(remote[i], index))
  }

  /** `SyncStars` emits one entry per remote repository, in remote order, with
      its ID: an ID known locally keeps its local record (the last one with
      that ID) as it is, a new ID takes the remote record without tag and
      category. */
  lemma MergeKeepingLocalMeaning(remote: seq<Repo>, local: seq<Repo>, i: nat)
    requires i < |remote|
    ensures MergeKeepingLocal(remote, local)[i].id == remote[i].id
    ensures (exists j :: 0 <= j < |local| && local[j].id == remote[i].id) ==>
      exists j :: 0 <= j < |local| && local[j] == MergeKeepingLocal(remote, local)[i]
                  && forall k :: j < k < |local| ==> local[k].id != remote[i].id
    ensures (forall j :: 0 <= j < |local| ==> local[j].id != remote[i].id) ==>
      MergeKeepingLocal(remote, local)[i] == remote[i].(tag := "", category := "")
  {
    if remote[i].id in LocalIndex(local) {
      var j := LocalIndexLastWins(local, remote[i].id);
    }
  }

  /** `SyncProgressWS` emits one entry per remote repository, in remote order:
      an ID known locally takes the remote record unchanged, a new ID the
      remote record without tag and category. */
  lemma MergeKeepingRemoteMeaning(remote: seq<Repo>, local: seq<Repo>, i: nat)
    requires i < |remote|
    ensures (exists j :: 0 <= j < |local| && local[j].id == remote[i].id) ==>
      MergeKeepingRemote(remote, local)[i] == remote[i]
    ensures (forall j :: 0 <= j < |local| ==> local[j].id != remote[i].id) ==>
      MergeKeepingRemote(remote, local)[i] == remote[i].(tag := "", category := "")
  {
    if remote[i].id in LocalIndex(local) {
      var j := LocalIndexLastWins(local, remote[i].id);
    }
  }

  /** Both merges keep the remote IDs in remote order, and they differ only
      at IDs known locally. */
  lemma MergesAgreeOnNewIds(remote: seq<Repo>, local: seq<Repo>)
    ensures forall i :: 0 <= i < |remote| ==>
      && MergeKeepingLocal(remote, local)[i].id == remote[i].id
      && MergeKeepingRemote(remote, local)[i].id == remote[i].id
    ensures forall i :: 0 <= i < |remote| && MergeKeepingLocal(remote, local)[i] != MergeKeepingRemote(remote, local)[i] ==>
      exists j :: 0 <= j < |local| && local[j].id == remote[i].id
  {
    forall i | 0 <= i < |remote|
      ensures MergeKeepingLocal(remote, local)[i].id == remote[i].id
      ensures MergeKeepingLocal(remote, local)[i] != MergeKeepingRemote(remote, local)[i] ==>
        exists j :: 0 <= j < |local| && local[j].id == remote[i].id
    {
      MergeKeepingLocalMeaning(remote, local, i);
      MergeKeepingRemoteMeaning(remote, local, i);
    }
  }

  /** The items the collector produces carry no tag and no category, so the
      merge of `SyncProgressWS` hands them on unchanged: the local snapshot
      decides nothing there, and annotations live only in the records. */
  lemma MergeKeepingRemoteOfUnannotated(remote: seq<Repo>, local: seq<Repo>)
    requires forall i :: 0 <= i < |remote| ==> remote[i].tag == "" && remote[i].category == ""
    ensures MergeKeepingRemote(remote, local) == remote
  {
    var r := MergeKeepingRemote(remote, local);
    forall i | 0 <= i < |r| ensures r[i] == remote[i] {
      assert r[i] == KeepRemote(remote[i], LocalIndex(local));
    }
  }

  /** Annotation records outlive a sync: reading the merged snapshot back lays
      every record over the remote repository of its ID, whichever merge ran. */
  lemma AnnotationsSurviveSync(remote: seq<Repo>, local: seq<Repo>, tags: map<int, RepoTag>)
    ensures forall i :: 0 <= i < |remote| && remote[i].id in tags ==>
      && Overlay(MergeKeepingLocal(remote, local), tags)[i].tag == tags[remote[i].id].tag
      && Overlay(MergeKeepingLocal(remote, local), tags)[i].category == tags[remote[i].id].category
      && Overlay(MergeKeepingRemote(remote, local), tags)[i].tag == tags[remote[i].id].tag
      && Overlay(MergeKeepingRemote(remote, local), tags)[i].category == tags[remote[i].id].category
  {
    forall i | 0 <= i < |remote| && remote[i].id in tags {
      MergeKeepingLocalMeaning(remote, local, i);
    }
  }

  /** The merge loop of `SyncStars`. */
  method MergeStars(remote: seq<Repo>, local: seq<Repo>) returns (merged: seq<Repo>)
    ensures merged == MergeKeepingLocal(remote, local)
  {
    var localRepoMap := BuildLocalIndex(local);
    merged := [];
    for i := 0 to |remote|
      invariant |merged| == i
      invariant forall k :: 0 <= k < i ==> merged[k] == KeepLocal(remote[k], localRepoMap)
    {
      var githubRepo := remote[i];
      if githubRepo.id in localRepoMap {
        merged := merged + [localRepoMap[githubRepo.id]];
      } else {
        merged := merged + [githubRepo.(tag := "", category := "")];
      }
    }
    assert merged == MergeKeepingLocal(remote, local);
  }

  // ------------------------------------------------------- progress events

  datatype EventKind = Start | Info | Progress | Failure | Complete

  /** `SyncProgress` without its message text. */
  datatype SyncEvent = SyncEvent(kind: EventKind, progress: int, current: nat, total: nat)

  ghost predicate NonDecreasing(es: seq<SyncEvent>)
  {
    forall i, j :: 0 <= i < j < |es| ==> es[i].progress <= es[j].progress
  }

  ghost predicate AtMost(es: seq<SyncEvent>, level: int)
  {
    forall i :: 0 <= i < |es| ==> es[i].progress <= level
  }

  ghost predicate AtLeast(es: seq<SyncEvent>, level: int)
  {
    forall i :: 0 <= i < |es| ==> level <= es[i].progress
  }

  lemma AppendNonDecreasing(a: seq<SyncEvent>, b: seq<SyncEvent>, level: int)
    requires NonDecreasing(a) && NonDecreasing(b) && AtMost(a, level) && AtLeast(b, level)
    ensures NonDecreasing(a + b)
  {
  }

  lemma NonDecreasingPrefix(es: seq<SyncEvent>, k: nat)
    requires k <= |es| && NonDecreasing(es)
    ensures NonDecreasing(es[..k])
  {
    assert forall i :: 0 <= i < k ==> es[..k][i] == es[i];
  }

  /** The merge progress after item `i` of `n`: `90 + (i + 1) * 5 / n`, at
      most 95. */
  function MergeProgress(i: nat, n: nat): (p: int)
    requires i < n
    ensures 90 <= p <= 95
  {
    var v := 90 + (i + 1) * 5 / n;
    if v > 95 then 95 else v
  }

  /** An event is sent after every `n / 10 + 1` items and after the last. */
  predicate MergeReports(i: nat, n: nat)
    requires i < n
  {
    (i + 1) % (n / 10 + 1) == 0 || i == n - 1
  }

  /** The merge progress never goes back, and reaches 95 with the last item. */
  lemma MergeProgressMonotone(i: nat, j: nat, n: nat)
    requires i <= j < n
    ensures MergeProgress(i, n) <= MergeProgress(j, n)
    ensures MergeProgress(n - 1, n) == 95
  {
    DivMonotone((i + 1) * 5, (j + 1) * 5, n);
    MulDivCancel(5, n);
    assert n * 5 == 5 * n;
  }

  /** The merge progress events for the first `k` of `n` items. */
  function MergeTicks(n: nat, k: nat): seq<SyncEvent>
    requires k <= n
  {
    if k == 0 then []
    else MergeTicks(n, k - 1) + (if MergeReports(k - 1, n) then [SyncEvent(Progress, MergeProgress(k - 1, n), k, n)] else [])
  }

  /** Every event is the progress event of one of the first `k` items, at
      the merge progress of that item. */
  ghost predicate ItemTicks(ts: seq<SyncEvent>, n: nat, k: nat)
  {
    forall t :: 0 <= t < |ts| ==>
      && ts[t].kind == Progress && ts[t].total == n
      && 1 <= ts[t].current <= n && ts[t].current <= k
      && ts[t].progress == MergeProgress(ts[t].current - 1, n)
  }

  /** The events are for items in increasing order. */
  ghost predicate Increasing(ts: seq<SyncEvent>)
  {
    forall s, t :: 0 <= s < t < |ts| ==> ts[s].current < ts[t].current
  }

  /** The merge events are progress events for items in increasing order,
      each at the merge progress of its item. */
  lemma {:induction false} MergeTicksItems(n: nat, k: nat)
    requires k <= n
    ensures ItemTicks(MergeTicks(n, k), n, k) && Increasing(MergeTicks(n, k))
  {
    if k > 0 {
      MergeTicksItems(n, k - 1);
      var front := MergeTicks(n, k - 1);
      var ts := MergeTicks(n, k);
      if MergeReports(k - 1, n) {
        var e := SyncEvent(Progress, MergeProgress(k - 1, n), k, n);
        assert ts == front + [e];
        assert forall t :: 0 <= t < |front| ==> ts[t] == front[t];
      } else {
        assert ts == front;
      }
    }
  }

  /** The events for the first `k` items are for items among the first `k`. */
  lemma {:induction false} MergeTicksBelow(n: nat, k: nat)
    requires k <= n
    ensures forall t :: 0 <= t < |MergeTicks(n, k)| ==> MergeTicks(n, k)[t].current <= k
  {
    if k > 0 {
      MergeTicksBelow(n, k - 1);
    }
  }

  /** Some event of `ts` is for item number `c` (counted from 1). */
  ghost predicate HasTickFor(ts: seq<SyncEvent>, c: nat)
  {
    exists t :: 0 <= t < |ts| && ts[t].current == c
  }

  /** The `k`-th item has an event exactly when `MergeReports` says so. */
  lemma MergeTicksLast(n: nat, k: nat)
    requires 0 < k <= n
    ensures MergeReports(k - 1, n) <==> HasTickFor(MergeTicks(n, k), k)
  {
    MergeTicksBelow(n, k - 1);
    var ts := MergeTicks(n, k);
    var front := MergeTicks(n, k - 1);
    if MergeReports(k - 1, n) {
      assert ts[|ts| - 1].current == k;
    } else {
      assert ts == front;
    }
  }

  /** Later items add no events for earlier ones. */
  lemma MergeTicksEarlier(n: nat, k: nat, c: nat)
    requires 0 < k <= n && c < k
    ensures HasTickFor(MergeTicks(n, k), c) <==> HasTickFor(MergeTicks(n, k - 1), c)
  {
    var ts := MergeTicks(n, k);
    var front := MergeTicks(n, k - 1);
    assert forall t :: 0 <= t < |front| ==> ts[t] == front[t];
    assert forall t :: |front| <= t < |ts| ==> ts[t].current == k;
    if HasTickFor(ts, c) {
      var t :| 0 <= t < |ts| && ts[t].current == c;
      assert t < |front|;
    }
    if HasTickFor(front, c) {
      var t :| 0 <= t < |front| && front[t].current == c;
      assert ts[t] == front[t];
    }
  }

  /** Item `i` has an event exactly when `MergeReports` says so. */
  lemma {:induction false} MergeTicksReports(n: nat, k: nat, i: nat)
    requires i < k <= n
    ensures MergeReports(i, n) <==> HasTickFor(MergeTicks(n, k), i + 1)
  {
    if i == k - 1 {
      MergeTicksLast(n, k);
    } else {
      MergeTicksReports(n, k - 1, i);
      MergeTicksEarlier(n, k, i + 1);
    }
  }

  /** The merge events stay between 90 and 95 and never go back; the last
      item always reports, at 95. */
  lemma MergeTicksProgress(n: nat, k: nat)
    requires k <= n
    ensures var ts := MergeTicks(n, k);
      && NonDecreasing(ts) && AtLeast(ts, 90) && AtMost(ts, 95)
      && (k == n && n > 0 ==> |ts| > 0 && ts[|ts| - 1].current == n && ts[|ts| - 1].progress == 95)
  {
    MergeTicksItems(n, k);
    var ts := MergeTicks(n, k);
    forall s, t | 0 <= s < t < |ts| ensures ts[s].progress <= ts[t].progress {
      assert 1 <= ts[s].current < ts[t].current <= n;
      MergeProgressMonotone(ts[s].current - 1, ts[t].current - 1, n);
    }
    if k == n && n > 0 {
      assert MergeReports(n - 1, n);
      MergeProgressMonotone(n - 1, n - 1, n);
    }
  }

  /** The merge loop of `SyncProgressWS`, with its progress events. */
  method MergeWithProgress(remote: seq<Repo>, local: seq<Repo>) returns (merged: seq<Repo>, ticks: seq<SyncEvent>)
    ensures merged == MergeKeepingRemote(remote, local)
    ensures ticks == MergeTicks(|remote|, |remote|)
  {
    var localRepoMap := BuildLocalIndex(local);
    var totalRepos := |remote|;
    merged := [];
    ticks := [];
    for i := 0 to totalRepos
      invariant |merged| == i
      invariant forall k :: 0 <= k < i ==> merged[k] == KeepRemote(remote[k], localRepoMap)
      invariant ticks == MergeTicks(totalRepos, i)
    {
      var githubRepo := remote[i];
      if githubRepo.id in localRepoMap {
        merged := merged + [githubRepo];
      } else {
        merged := merged + [githubRepo.(tag := "", category := "")];
      }
      var progress := 90 + (i + 1) * 5 / totalRepos;
      if progress > 95 {
        progress := 95;
      }
      if (i + 1) % (totalRepos / 10 + 1) == 0 || i == totalRepos - 1 {
        ticks := ticks + [SyncEvent(Progress, progress, i + 1, totalRepos)];
      }
    }
    assert merged == MergeKeepingRemote(remote, local);
  }

  // ------------------------------------------------------------- handlers

  /** `SyncStars`: fetch the starred list, merge it with the local snapshot
      keeping local records, save the result and the sync time, and answer
      with the count. A failed fetch answers with the error and leaves the
      store as it was. */
  method SyncStars(store: FileRepository, list: nat -> Result<seq<Repo>>, ghost last: nat, now: string)
    returns (r: Result<nat>)
    requires EndsBy(list, last)
    modifies store
    ensures StarredRepos(list, last).Err? ==>
      && r == Err(StarredRepos(list, last).error)
      && store.repos == old(store.repos) && store.tags == old(store.tags) && store.syncTime == old(store.syncTime)
    ensures StarredRepos(list, last).Ok? ==>
      var merged := MergeKeepingLocal(StarredRepos(list, last).value, LocalSnapshot(old(store.repos), old(store.tags)));
      && r == Ok(|merged|)
      && store.repos == Some(merged) && store.tags == old(store.tags) && store.syncTime == Some(now)
  {
    var githubRepos := GetStarredRepos(list, last);
    if githubRepos.Err? {
      return Err(githubRepos.error);
    }
    var loaded := store.GetReposWithTag();
    var localRepos := if loaded.Ok? then loaded.value else [];
    var merged := MergeStars(githubRepos.value, localRepos);
    store.SaveRepos(merged);
    store.SaveSyncTime(now);
    return Ok(|merged|);
  }

  /** The collection events for the counts in the order the callbacks write
      them: one progress event per count, at `CollectProgress` of that count. */
  function CollectEvents(delivered: seq<nat>, total: nat): seq<SyncEvent>
    requires |delivered| > 0 ==> total > 0
  {
    seq(|delivered|, k requires 0 <= k < |delivered| =>
      SyncEvent(Progress, CollectProgress(delivered[k], total), delivered[k], total))
  }

  /** Whatever the order, the collection events carry the delivered counts
      and lie between 10 and 80. */
  lemma CollectEventsBounds(delivered: seq<nat>, total: nat)
    requires |delivered| > 0 ==> total > 0
    ensures var es := CollectEvents(delivered, total);
      && |es| == |delivered|
      && (forall k :: 0 <= k < |es| ==> es[k].kind == Progress && es[k].current == delivered[k] && es[k].total == total)
      && AtLeast(es, 10) && AtMost(es, 80)
  {
  }

  /** Counts written in increasing order, as the mutex hands them out, give
      collection events that never go back. */
  lemma SortedDeliveryNeverGoesBack(delivered: seq<nat>, total: nat)
    requires |delivered| > 0 ==> total > 0
    requires forall i, j :: 0 <= i < j < |delivered| ==> delivered[i] <= delivered[j]
    ensures NonDecreasing(CollectEvents(delivered, total))
  {
    var es := CollectEvents(delivered, total);
    forall i, j | 0 <= i < j < |es| ensures es[i].progress <= es[j].progress {
      CollectProgressMonotone(delivered[i], delivered[j], total);
    }
  }

  /** A worker raises the shared count under the mutex but calls the progress
      callback after releasing it, so two workers can write their counts in
      the opposite order. For 101 repositories, two pages: page 1's first item
      takes count 1, page 2's only item takes count 2, and page 2's callback
      writes first; the stream then goes from 11 back to 10. */
  lemma OutOfOrderDeliveryGoesBack()
    ensures PageCount(101) == 2 && IsOrderOf([2, 1], 2)
    ensures var es := CollectEvents([2, 1], 101);
      && es[0].progress == 11 && es[1].progress == 10
      && !NonDecreasing(es)
  {
    assert PageNumbers(2) == [1, 2];
    assert multiset([2, 1]) == multiset([1, 2]);
    var es := CollectEvents([2, 1], 101);
    assert es[0].progress == CollectProgress(2, 101) == 11;
    assert es[1].progress == CollectProgress(1, 101) == 10;
  }

  /** The progress callback of `SyncProgressWS`, once per count, in the order
      the callbacks write: `10 + count * 70 / total`, at most 80, appended to
      the stream. */
  method ReportDelivered(events: seq<SyncEvent>, delivered: seq<nat>, total: nat) returns (out: seq<SyncEvent>)
    requires |delivered| > 0 ==> total > 0
    ensures out == events + CollectEvents(delivered, total)
  {
    out := events;
    for k := 0 to |delivered|
      invariant |out| == |events| + k && out[..|events|] == events
      invariant forall j :: 0 <= j < k ==> out[|events| + j] == CollectEvents(delivered, total)[j]
    {
      var progress := 10 + delivered[k] * 70 / total;
      if progress > 80 {
        progress := 80;
      }
      out := out + [SyncEvent(Progress, progress, delivered[k], total)];
    }
    assert out == events + CollectEvents(delivered, total);
  }

  /** The events before the merge of `n` collected repositories. */
  function MergeOpening(n: nat): seq<SyncEvent>
  {
    [SyncEvent(Info, 80, 0, n), SyncEvent(Info, 85, 0, 0), SyncEvent(Info, 90, 0, 0)]
  }

  /** The events after a merge of `n` repositories, ending the stream. */
  function MergeClosing(n: nat): seq<SyncEvent>
  {
    [SyncEvent(Info, 95, 0, 0), SyncEvent(Complete, 100, 0, n)]
  }

  /** The collected events, then the merge events with their opening and
      closing, never go back when the collected events do not. */
  lemma MergeStream(events: seq<SyncEvent>, ticks: seq<SyncEvent>, n: nat)
    requires NonDecreasing(events) && AtMost(events, 80)
    requires NonDecreasing(ticks) && AtLeast(ticks, 90) && AtMost(ticks, 95)
    ensures var out := events + MergeOpening(n) + ticks + MergeClosing(n);
      NonDecreasing(out) && NonDecreasing(out[..|out| - 1])
  {
    AppendNonDecreasing(events, MergeOpening(n), 80);
    var a := events + MergeOpening(n);
    AppendNonDecreasing(a, ticks, 90);
    var b := a + ticks;
    AppendNonDecreasing(b, MergeClosing(n), 95);
    NonDecreasingPrefix(b + MergeClosing(n), |b| + 1);
  }

  /** With the collected events within 0 .. 80, the whole stream stays within
      0 .. 100. */
  lemma StreamWithinBounds(events: seq<SyncEvent>, ticks: seq<SyncEvent>, n: nat)
    requires AtMost(events, 80) && AtLeast(events, 0)
    requires AtLeast(ticks, 90) && AtMost(ticks, 95)
    ensures var out := events + MergeOpening(n) + ticks + MergeClosing(n);
      AtLeast(out, 0) && AtMost(out, 100)
  {
  }

  /** The tail of `SyncProgressWS` once the remote list is collected: merge
      it with the local snapshot (remote records kept) with its progress
      events, save the result and the sync time, and complete at 100. */
  method MergeAndSave(store: FileRepository, repos: seq<Repo>, events: seq<SyncEvent>, now: string)
    returns (out: seq<SyncEvent>)
    modifies store
    ensures out == events + MergeOpening(|repos|) + MergeTicks(|repos|, |repos|) + MergeClosing(|repos|)
    ensures store.repos == Some(MergeKeepingRemote(repos, LocalSnapshot(old(store.repos), old(store.tags))))
    ensures store.tags == old(store.tags) && store.syncTime == Some(now)
    ensures AtLeast(events, 0) && AtMost(events, 80) ==> AtLeast(out, 0) && AtMost(out, 100)
    ensures NonDecreasing(events) && AtMost(events, 80) ==> NonDecreasing(out) && NonDecreasing(out[..|out| - 1])
  {
    out := events + [SyncEvent(Info, 80, 0, |repos|), SyncEvent(Info, 85, 0, 0), SyncEvent(Info, 90, 0, 0)];
    var loaded := store.GetReposWithTag();
    var localRepos := if loaded.Ok? then loaded.value else [];
    var merged, ticks := MergeWithProgress(repos, localRepos);
    out := out + ticks;
    out := out + [SyncEvent(Info, 95, 0, 0), SyncEvent(Complete, 100, 0, |merged|)];
    store.SaveRepos(merged);
    store.SaveSyncTime(now);
    MergeTicksProgress(|repos|, |repos|);
    if AtLeast(events, 0) && AtMost(events, 80) {
      StreamWithinBounds(events, ticks, |repos|);
    }
    if NonDecreasing(events) && AtMost(events, 80) {
      MergeStream(events, ticks, |repos|);
    }
  }

  /** A failure event at 0 ends a collection stream within 0 .. 80: the
      stream before it is left as it was. */
  lemma FailureEnds(events: seq<SyncEvent>)
    requires AtLeast(events, 0) && AtMost(events, 80)
    ensures var out := events + [SyncEvent(Failure, 0, 0, 0)];
      && out[..|out| - 1] == events && out[|out| - 1] == SyncEvent(Failure, 0, 0, 0)
      && AtLeast(out, 0) && AtMost(out, 100)
  {
    var out := events + [SyncEvent(Failure, 0, 0, 0)];
    assert out[..|out| - 1] == events;
  }

  /** The remote list `SyncProgressWS` collects: the estimate from the list
      requests `list`, then the pages the workers request through `pages`,
      detailed, in the arrival order `arrival` gives for that many pages. */
  function WSRemote(list: ListCall, pages: ListCall, detail: DetailCall, last: nat, arrival: nat -> seq<nat>): Result<seq<Repo>>
    requires EndsBy(ListingFetcher(list), last)
  {
    match TotalStarred(list, last)
    case Err(e) => Err(e)
    case Ok(total) => Gathered(Arrivals(pages, detail, arrival(PageCount(total))))
  }

  /** After a successful estimate the collection can still fail: a page whose
      list request fails for its worker fails the remote list. */
  lemma WorkerFailureAfterEstimate(list: ListCall, pages: ListCall, detail: DetailCall, last: nat,
                                   arrival: nat -> seq<nat>, p: nat)
    requires EndsBy(ListingFetcher(list), last)
    requires ArrivalOrders(arrival)
    requires TotalStarred(list, last).Ok?
    requires 1 <= p <= PageCount(TotalStarred(list, last).value) && PageOutcome(pages, p).Err?
    ensures WSRemote(list, pages, detail, last, arrival).Err?
  {
    var n := PageCount(TotalStarred(list, last).value);
    WorkerFailureFailsCollection(pages, detail, arrival(n), n, p);
  }

  /** When the workers see the pages the estimator saw, the remote list is
      collected and holds as many repositories as the estimate counted. */
  lemma WSRemoteMatchesEstimate(list: ListCall, pages: ListCall, detail: DetailCall, last: nat, arrival: nat -> seq<nat>)
    requires EndsBy(ListingFetcher(list), last) && PagesAtMostFull(ListingFetcher(list))
    requires ArrivalOrders(arrival)
    requires TotalStarred(list, last).Ok?
    requires SamePages(list, pages, PageCount(TotalStarred(list, last).value))
    ensures WSRemote(list, pages, detail, last, arrival).Ok?
    ensures |WSRemote(list, pages, detail, last, arrival).value| == TotalStarred(list, last).value
  {
    CollectionMatchesEstimate(list, pages, detail, last, arrival(PageCount(TotalStarred(list, last).value)));
  }

  /** The events up to the estimate of `total` repositories. */
  function EstimateEvents(total: nat): seq<SyncEvent>
  {
    [SyncEvent(Start, 0, 0, 0), SyncEvent(Info, 5, 0, 0), SyncEvent(Info, 10, 0, total)]
  }

  /** The events up to the end of the collection stay within 0 .. 80, and
      never go back when the counts are written in increasing order. */
  lemma EstimateThenCollect(total: nat, delivered: seq<nat>)
    requires |delivered| > 0 ==> total > 0
    ensures var es := EstimateEvents(total) + CollectEvents(delivered, total);
      && |es| >= 2 && es[0] == SyncEvent(Start, 0, 0, 0)
      && AtLeast(es, 0) && AtMost(es, 80)
      && ((forall i, j :: 0 <= i < j < |delivered| ==> delivered[i] <= delivered[j]) ==> NonDecreasing(es))
  {
    CollectEventsBounds(delivered, total);
    if forall i, j :: 0 <= i < j < |delivered| ==> delivered[i] <= delivered[j] {
      SortedDeliveryNeverGoesBack(delivered, total);
      AppendNonDecreasing(EstimateEvents(total), CollectEvents(delivered, total), 10);
    }
  }

  /** `arrival(n)` is the order in which `n` pages reach the fan-in. */
  ghost predicate ArrivalOrders(arrival: nat -> seq<nat>)
  {
    forall n :: IsOrderOf(arrival(n), n)
  }

  /** `delivery(n)` is what the progress callbacks write once `n` counts have
      been handed out under the mutex: `n` counts, in the order the writes
      happen. Every ordering of `1 .. n` is allowed, and so is any other
      sequence of that length: what is proved holds for all of them. */
  ghost predicate DeliveryOrders(delivery: nat -> seq<nat>)
  {
    forall n :: |delivery(n)| == n
  }

  /** The callbacks write the counts in the order the mutex hands them out. */
  ghost predicate InLockOrder(delivery: nat -> seq<nat>)
  {
    forall n :: delivery(n) == PageNumbers(n)
  }

  /** The collecting part of `SyncProgressWS`: the start events, the
      estimate, then the detailed pages with one progress event per count, in
      the order `delivery` gives the callbacks' writes for that many counts.
      `total` is the estimate and `delivered` the counts as written.
      The events stay within 0 .. 80, and never go back when the callbacks
      write in lock order. */
  method CollectWithProgress(list: ListCall, pages: ListCall, detail: DetailCall, ghost last: nat,
                             arrival: nat -> seq<nat>, delivery: nat -> seq<nat>)
    returns (collected: Result<seq<Repo>>, events: seq<SyncEvent>, ghost total: nat, ghost delivered: seq<nat>)
    requires EndsBy(ListingFetcher(list), last)
    requires ArrivalOrders(arrival)
    requires DeliveryOrders(delivery)
    ensures collected == WSRemote(list, pages, detail, last, arrival)
    ensures TotalStarred(list, last).Err? ==> |events| == 2 && events[1] == SyncEvent(Info, 5, 0, 0)
    ensures TotalStarred(list, last).Ok? ==>
      && total == TotalStarred(list, last).value
      && |delivered| == OkItems(PageResults(pages, detail, PageCount(total)))
      && delivered == delivery(|delivered|)
      && events == EstimateEvents(total) + CollectEvents(delivered, total)
    ensures |events| >= 2 && events[0] == SyncEvent(Start, 0, 0, 0)
    ensures AtLeast(events, 0) && AtMost(events, 80)
    ensures InLockOrder(delivery) ==> NonDecreasing(events)
  {
    events := [SyncEvent(Start, 0, 0, 0), SyncEvent(Info, 5, 0, 0)];
    var totalCount := GetTotalStarredRepos(list, last);
    if totalCount.Err? {
      collected, total, delivered := Err(totalCount.error), 0, [];
      return;
    }
    var count := totalCount.value;
    var order := arrival(PageCount(count));
    var requested, reported;
    collected, requested, reported := GetAllStarredReposDetailed(pages, detail, count, order);
    assert TotalStarred(list, last) == Ok(count);
    assert collected == WSRemote(list, pages, detail, last, arrival);
    var written := delivery(|reported|);
    events := ReportDelivered(EstimateEvents(count), written, count);
    total, delivered := count, written;
    EstimateThenCollect(total, delivered);
  }

  /** `SyncProgressWS`: the same sync as a stream of progress events. Without
      a session, or when collecting the remote list fails, the stream ends
      with a failure event and nothing is saved; otherwise it ends with the
      completion event, after the merged list (remote records kept) and the
      sync time have been saved. Progress stays within 0 .. 100; it never
      goes back before the last event when the progress callbacks write in
      lock order. */
  method SyncProgressWS(store: FileRepository, hasSession: bool, list: ListCall, pages: ListCall, detail: DetailCall,
                        ghost last: nat, arrival: nat -> seq<nat>, delivery: nat -> seq<nat>, now: string)
    returns (events: seq<SyncEvent>)
    requires EndsBy(ListingFetcher(list), last)
    requires ArrivalOrders(arrival)
    requires DeliveryOrders(delivery)
    modifies store
    ensures |events| >= 1
    ensures AtLeast(events, 0) && AtMost(events, 100)
    ensures InLockOrder(delivery) ==> NonDecreasing(events[..|events| - 1])
    ensures var final := events[|events| - 1];
      && (final.kind == Complete || final.kind == Failure)
      && (final.kind == Complete <==> hasSession && WSRemote(list, pages, detail, last, arrival).Ok?)
      && (final.kind == Failure ==> final.progress == 0)
      && (final.kind == Complete ==> final.progress == 100 && (InLockOrder(delivery) ==> NonDecreasing(events)))
    ensures events[|events| - 1].kind == Failure ==>
      store.repos == old(store.repos) && store.tags == old(store.tags) && store.syncTime == old(store.syncTime)
    ensures events[|events| - 1].kind == Complete ==>
      var merged := MergeKeepingRemote(WSRemote(list, pages, detail, last, arrival).value, LocalSnapshot(old(store.repos), old(store.tags)));
      && store.repos == Some(merged) && store.tags == old(store.tags) && store.syncTime == Some(now)
      && events[|events| - 1].total == |merged|
  {
    var failure := SyncEvent(Failure, 0, 0, 0);
    if !hasSession {
      return [failure];
    }
    var collected;
    ghost var total, delivered;
    collected, events, total, delivered := CollectWithProgress(list, pages, detail, last, arrival, delivery);
    if collected.Err? {
      FailureEnds(events);
      return events + [failure];
    }
    events := MergeAndSave(store, collected.value, events, now);
  }
}
