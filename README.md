# github-stars-manager, modelled in Dafny

github-stars-manager keeps a local copy of the repositories a GitHub user has
starred. The user can tag, categorise and describe each one, or have a chat
model suggest a category and tags. This project models the core of the
program:

- **The sync engine of the star controller** (`controllers/star.go`):
  - the count estimator, which walks the starred list page by page;
  - the page workers, which enrich every listed repository with its details
    and retry each request up to three times;
  - the fan-in of the page results;
  - the progress formulas;
  - the two merges of the remote list with the local snapshot, in
    `SyncStars` and in the WebSocket handler `SyncProgressWS`, together with
    those two handlers;
  - the annotation handlers `UpdateTag`, `UpdateCategory` and
    `UpdateDescription`, and the lookup `getRepoByID`;
  - the normalisation of the chat model's answer (`callAIAnalysis`) and its
    filing (`saveAnalysisResult`).
- **The file-backed store** (`repository/file_repository.go`): the repository
  snapshot, the annotation records keyed by repository ID, and the last sync
  time. It is a class whose fields are those three files held in memory.
- **The GitHub client** (`utils/github.go`): the paginated list of starred
  repositories, and the assembly of one repository's details from its record
  and its language map.
- **The chat client** (`utils/openai.go`):
  - the dotted-path merge of custom body fields into the request body
    (`mergeNestedField`), with JSON values as a recursive datatype;
  - the request URL;
  - the decision that turns the endpoint's answer into content or an error.
- **The session store** (`session/session.go`): a map from session ID to user
  data, with its handlers, and the shape of generated session IDs.

Every network request is a function argument, an oracle that answers
`Ok(value)` or `Err(cause)`. A request with retries is an oracle of the attempt
number too. JSON decoding is part of the oracle's answer. The
clock (`now`) and the random index source (`pick`) are parameters as well.
The goroutines of the collector run one after another. The order in which
their results reach the fan-in is a parameter: any permutation of the pages.
So is the order in which their progress callbacks write. The estimator and
the workers make their own list requests, through two separate oracles.

The modules follow the source files:

| module | file | models |
|---|---|---|
| `Wrappers` | wrappers.dfy | `Option`, `Result` and the error values |
| `Strings` | strings.dfy | the functions of Go's `strings` package that the code uses |
| `Paging` | paging.dfy | "pages 1, 2, … up to the first short page" |
| `GitHub` | github.dfy | utils/github.go |
| `Repository` | repository.dfy | repository/file_repository.go |
| `StarCollect` | star_collect.dfy | controllers/star.go: estimator, workers, fan-in, progress |
| `StarMerge` | star_merge.dfy | controllers/star.go: merges, `SyncStars`, `SyncProgressWS` |
| `StarAnnotate` | star_annotate.dfy | controllers/star.go: `Update*`, `getRepoByID` |
| `StarAnalysis` | star_analysis.dfy | controllers/star.go: `callAIAnalysis`, `saveAnalysisResult` |
| `OpenAI` | openai.dfy | utils/openai.go |
| `Session` | session.dfy | session/session.go |

Nearly every loop of the source is a `method` with that loop. Each method is
proved equal to a specification function (for example
`GetTotalStarredRepos` to `TotalStarred`, `MergeStars` to
`MergeKeepingLocal`, `GetReposWithTag` to `Overlay`). The lemmas then state
what the source promises about those functions.

There are two places where the code and the intended behaviour part ways.
The model follows the code in both, and a lemma says what then happens:

- A worker that obtains a repository's details emits the detail answer. It
  does not emit the listed fields, so the listed fields survive only when the
  detail answer agrees with the listing (`EnrichKeepsListedFields`).
- A tag or category update that empties both fields deletes the whole record,
  even when it still holds a description (`TagUpdateEffect`,
  `UpdatesReadBack`).

## Model

| member | source | states |
|---|---|---|
| Paging.PageCount | controllers/star.go:1026 | the page count is the least `p` with `p * 100 >= total`, and it is 0 exactly for an empty collection |
| Paging.PagesShape | controllers/star.go:969-1013 | a successful walk received pages `p, p + 1, …` one request each, in order; every page but the last is full and the last is short |
| Paging.PagesError | utils/github.go:112-128 | a failed walk reports the error of a page it requested, and every page before that one was full |
| Paging.PagesRequested | controllers/star.go:1004-1012 | a walk over pages of at most 100 items makes `total / 100 + 1` requests, and its last page is empty exactly when the total is a multiple of 100: an exact multiple costs one further empty request |
| Paging.PageCountCoversWalk | controllers/star.go:1026 | the first `(total + 99) / 100` pages of a walk hold every item it received; at most one final empty page lies beyond them |
| GitHub.GetStarredRepos | utils/github.go:99-143 | the result is every page up to and including the first one with fewer than 100 items, concatenated in page order; a request or decode error returns that error and drops the pages already gathered |
| GitHub.GetRepoDetails | utils/github.go:146-206 | a failed base request or decode is returned as the error; otherwise the repository keeps every field except two. Its languages gain exactly the keys of the language map, each once. Its README link is the page URL plus "#readme". A failed language request leaves the languages untouched and is not an error |
| Repository.Overlay | repository/file_repository.go:70-75 | the annotated list has the stored list's length and order; a repository with a record takes that record's tag and category and keeps every other field, the description included; one without a record is unchanged |
| Repository.CountAnalyzedBounds | repository/file_repository.go:171-175 | the analysed count is at most the number of repositories; it equals that number exactly when every repository has a tag or a category, and is 0 exactly when none has |
| Repository.OverlayIdempotent | repository/file_repository.go:70-75 | laying the records over an already annotated list changes nothing more |
| Repository.OverlayEmpty | repository/file_repository.go:226-231 | with no records (a missing tags file reads as the empty map) the snapshot reads back exactly as stored |
| Repository.FileRepository.constructor | repository/file_repository.go:24-37 | a fresh store on an empty data directory has no snapshot, no records and no sync time, and every record is filed under its own ID |
| Repository.FileRepository.GetReposWithTag | repository/file_repository.go:40-79 | reading with no snapshot file is an error; otherwise the result is the snapshot with the records laid over it, position by position |
| Repository.FileRepository.SaveRepos | repository/file_repository.go:82-102 | the snapshot becomes the given list, and the records and the sync time stay as they were |
| Repository.FileRepository.GetRepoTag | repository/file_repository.go:105-123 | the result is the record filed under the ID, or nothing (and no error) when there is none; the record returned carries that ID |
| Repository.FileRepository.SaveRepoTag | repository/file_repository.go:126-138 | the record is filed under its own ID and replaces any earlier one there; every other ID keeps its record; the snapshot and the sync time stay |
| Repository.FileRepository.DeleteRepoTag | repository/file_repository.go:141-153 | only the given ID loses its record; deleting an ID that has none changes nothing, so a second delete changes nothing either |
| Repository.FileRepository.GetStats | repository/file_repository.go:156-184 | with no snapshot the result is the store's error; otherwise the total is the number of stored repositories, the analysed count counts the annotated repositories that have a tag or a category and is at most the total, and the last sync is the saved time or "" |
| Repository.FileRepository.SaveSyncTime | repository/file_repository.go:187-202 | the saved sync time becomes the given timestamp; nothing else changes |
| Repository.FileRepository.LoadSyncTime | repository/file_repository.go:205-223 | the result is the saved time, or "" (no error) when none was ever saved |
| Repository.SaveThenRead | repository/file_repository.go:82-102 | saving a list and reading it back yields that list with the stored records laid over it |
| StarCollect.RetriedMeaning | controllers/star.go:1134-1142 | a three-attempt retry succeeds exactly when one of the three attempts does, then with the answer of the first one that does; a failed retry ends with the third attempt's error |
| StarCollect.RetryCall | controllers/star.go:974-984 | the retry loop makes one to three attempts and stops at the first success; every attempt before the last failed, and a failure means all three were made |
| StarCollect.FetchListPage | controllers/star.go:1086-1122 | a page request that fails three times is an error for that page, and a body that does not decode is a decode error for that page; otherwise the result is the decoded items |
| StarCollect.ListEndsByPages | controllers/star.go:1086-1096 | when the list has finitely many pages, so does the list as seen through retries |
| StarCollect.GetTotalStarredRepos | controllers/star.go:962-1017 | the estimate is the sum of the page sizes up to and including the first page of fewer than 100 items; a page that fails three times, or does not decode, ends the walk with that page's error |
| StarCollect.EstimateCoversPages | controllers/star.go:1026 | when the workers' requests for pages `1 .. n` end as the estimator's did, the page count derived from the estimate covers exactly the pages the estimator walked through, bar a final empty one, and the workers' pages are the estimator's |
| StarCollect.FullName | controllers/star.go:1127-1129 | there is no full name exactly when the URL, without its ".git" suffix, has no '/' |
| StarCollect.FullNameOfPage | controllers/star.go:1127-1129 | a URL `…/owner/name` yields the full name `owner/name` |
| StarCollect.BasicRepo | controllers/star.go:1151-1162 | the fallback item carries exactly the listed fields, no languages, no tag, no category and no README link |
| StarCollect.EnrichItem | controllers/star.go:1143-1144 | an emitted item never carries a tag or a category |
| StarCollect.EnrichItemMeaning | controllers/star.go:1127-1182 | a URL without a full name, or three failed detail attempts, gives the basic item; otherwise the item is the answer of the first successful attempt, with tag and category cleared |
| StarCollect.EnrichKeepsListedFields | controllers/star.go:1124-1182 | the listed fields survive enrichment whenever the detail answers describe the listed repository; the basic item always keeps them |
| StarCollect.PageResultShape | controllers/star.go:1098-1122 | a page fails exactly when its list request or decode fails, with that error; otherwise it holds one enriched item per listed item, in list order, none annotated |
| StarCollect.GetPageStarredRepos | controllers/star.go:1078-1194 | the worker returns the page's result, and on success calls the progress callback once per item |
| StarCollect.EnrichPage | controllers/star.go:1124-1188 | the loop emits the enriched items in list order, with one progress tick per listed item |
| StarCollect.EnrichOne | controllers/star.go:1126-1182 | one listed repository becomes the item its URL and detail answers call for |
| StarCollect.GatheredMeaning | controllers/star.go:1060-1074 | the fan-in succeeds exactly when every message does, and then holds all their items in arrival order, as many as the pages hold together; otherwise it reports the first error in arrival order |
| StarCollect.GatheredStopsAtError | controllers/star.go:1067-1069 | once an error is received, later messages change nothing |
| StarCollect.FanIn | controllers/star.go:1060-1074 | the fan-in receives every message when all succeed; on an error it stops at the first failed message and returns that message's error |
| StarCollect.ArrivalOrderInRange | controllers/star.go:1029-1057 | an arrival order of `n` pages has `n` entries, each a page number between 1 and `n` |
| StarCollect.GetAllStarredReposDetailed | controllers/star.go:1020-1075 | one worker is started per page `1 .. (total + 99) / 100`, in order, one each, and none for a total of 0; the result is the fan-in of the page results in arrival order; the counts taken under the mutex are 1, 2, … in the order they are taken, one per item of a successful page |
| StarCollect.RunWorkers | controllers/star.go:1035-1057 | the workers are started for pages `1 .. n`, in order, one each; their results, in page order, are the page results; the count taken under the mutex grows by one per processed item |
| StarCollect.CountTicks | controllers/star.go:1037-1042 | each progress tick raises the shared count by one and takes the new count |
| StarCollect.ApplyPermutes | controllers/star.go:1060-1071 | the page results that arrive in some order are a permutation of those in page order |
| StarCollect.SumPermutes | controllers/star.go:1060-1071 | collecting permuted pages gives the same items, as many as before |
| StarCollect.GatheredPermutes | controllers/star.go:1060-1071 | fan-ins over two orders of the same messages succeed together, and then hold the same items; a failed one reports one of the messages' errors |
| StarCollect.ArrivalOrderIrrelevant | controllers/star.go:1035-1074 | the arrival order decides only the order of the collected items and which page's error is reported |
| StarCollect.CollectionMatchesEstimate | controllers/star.go:1026-1074 | when the workers see the pages the estimator saw, the collection succeeds in any arrival order and holds exactly as many repositories as the estimate counted |
| StarCollect.WorkerFailureFailsCollection | controllers/star.go:1048-1054 | a page whose list request fails for its worker fails the collection, in any arrival order |
| StarCollect.CollectProgress | controllers/star.go:689-694 | the collection progress lies between 10 and 80 |
| StarCollect.CollectProgressMonotone | controllers/star.go:689-694 | the collection progress is 10 for no items, never goes back as more items are processed, and is 80 once the estimate is reached |
| StarMerge.LocalIndex | controllers/star.go:588-592 | every local ID is indexed, and each entry is filed under its own ID |
| StarMerge.LocalIndexLastWins | controllers/star.go:588-592 | of several local records with one ID, the last one is kept |
| StarMerge.BuildLocalIndex | controllers/star.go:588-592 | the loop builds the local index |
| StarMerge.MergeKeepingLocalMeaning | controllers/star.go:598-611 | `SyncStars` emits one entry per remote repository, in remote order, with its ID: a known ID keeps its (last) local record unchanged, and a new ID takes the remote record without tag and category |
| StarMerge.MergeKeepingRemoteMeaning | controllers/star.go:760-772 | `SyncProgressWS` emits the remote record unchanged for a known ID, and the remote record without tag and category for a new one |
| StarMerge.MergesAgreeOnNewIds | controllers/star.go:588-611 | both merges keep the remote IDs in remote order, which drops IDs that exist only locally; the two differ only at IDs known locally |
| StarMerge.MergeKeepingRemoteOfUnannotated | controllers/star.go:760-772 | collected items carry no annotation, so the `SyncProgressWS` merge hands them on unchanged |
| StarMerge.AnnotationsSurviveSync | controllers/star.go:598-624 | after either merge, reading the snapshot back lays each record over the remote repository of its ID |
| StarMerge.MergeStars | controllers/star.go:588-611 | the merge loop of `SyncStars` computes the merge that keeps local records |
| StarMerge.MergeProgress | controllers/star.go:775-778 | the merge progress lies between 90 and 95 |
| StarMerge.MergeProgressMonotone | controllers/star.go:775-778 | the merge progress never goes back and is 95 at the last item |
| StarMerge.MergeTicksItems | controllers/star.go:775-787 | the merge events are progress events for items in increasing order, each at its item's progress |
| StarMerge.MergeTicksBelow | controllers/star.go:775-787 | the events for the first `k` items are events for items among them |
| StarMerge.MergeTicksLast | controllers/star.go:779 | item `k` has an event exactly when the report condition holds for it |
| StarMerge.MergeTicksEarlier | controllers/star.go:760-788 | later items add no events for earlier ones |
| StarMerge.MergeTicksReports | controllers/star.go:779 | an item has an event exactly when it is a multiple of `n / 10 + 1` or the last item |
| StarMerge.MergeTicksProgress | controllers/star.go:775-787 | the merge events stay between 90 and 95, never go back, and the last item reports at 95 |
| StarMerge.MergeWithProgress | controllers/star.go:744-788 | the merge loop of `SyncProgressWS` computes the merge that keeps remote records, together with its progress events |
| StarMerge.SyncStars | controllers/star.go:569-631 | a failed fetch answers with its error and leaves the store unchanged; otherwise the snapshot becomes the merge (local records kept) and the sync time is saved, the records stay, and the answer is the merged count |
| StarMerge.CollectEventsBounds | controllers/star.go:689-703 | whatever the order of the counts, there is one progress event per delivered count, carrying that count and the estimate, at the collection progress, between 10 and 80 |
| StarMerge.SortedDeliveryNeverGoesBack | controllers/star.go:689-694 | counts written in increasing order give collection events that never go back |
| StarMerge.OutOfOrderDeliveryGoesBack | controllers/star.go:1039-1044 | for 101 repositories (two pages), counts written as 2 then 1 give progress 11 then 10: the stream goes back |
| StarMerge.ReportDelivered | controllers/star.go:689-703 | the callbacks append one event per count, in the order they write, at the collection progress of that count |
| StarMerge.EstimateThenCollect | controllers/star.go:661-703 | the start, the estimate and the collection events stay within 0 .. 80, and never go back when the counts come in increasing order |
| StarMerge.WorkerFailureAfterEstimate | controllers/star.go:704-726 | after a successful estimate, a page whose list request fails for its worker still fails the remote list, so the stream ends with the failure event |
| StarMerge.WSRemoteMatchesEstimate | controllers/star.go:661-706 | when the workers see the pages the estimator saw, the remote list is collected and holds as many repositories as the estimate counted |
| StarMerge.MergeStream | controllers/star.go:709-812 | the collection events, the opening events, the merge events and the closing events together never go back when the collection events do not |
| StarMerge.StreamWithinBounds | controllers/star.go:709-812 | with the collection events within 0 .. 80, the whole stream stays within 0 .. 100 |
| StarMerge.MergeAndSave | controllers/star.go:731-812 | the events at 80, 85 and 90, then the merge events, then 95 and the completion at 100; the snapshot becomes the merge (remote records kept) and the sync time is saved; the stream stays within 0 .. 100, and never goes back if it did not before |
| StarMerge.CollectWithProgress | controllers/star.go:661-726 | the remote list is the estimate followed by the workers' detailed pages in arrival order; a failed estimate leaves exactly the start event at 0 and the request event at 5; otherwise the estimate is announced at 10, then comes one progress event per count handed out under the mutex (one per item of a successful page), in the order the callbacks write them; the events stay within 0 .. 80, and never go back when the callbacks write in lock order |
| StarMerge.SyncProgressWS | controllers/star.go:634-815 | without a session, or after a failed estimate or collection, the stream ends with a failure event and nothing is saved; otherwise it ends with the completion event at 100 after the merge (remote records kept) and the sync time are saved; progress stays within 0 .. 100, and never goes back before the last event when the callbacks write in lock order |
| StarAnnotate.TagUpdateEffect | controllers/star.go:831-853 | a tag update changes only the tag of the ID's record, starting from `{ID}` when it has none; the record is kept exactly when the tag or the category is non-empty, so a record holding only a description is deleted; every other ID is untouched |
| StarAnnotate.CategoryUpdateEffect | controllers/star.go:873-895 | a category update changes only the category; the record is kept exactly when the tag or the category is non-empty; every other ID is untouched |
| StarAnnotate.DescriptionUpdateEffect | controllers/star.go:916-937 | a description update changes only the description; the record is deleted only when all three fields are empty; every other ID is untouched |
| StarAnnotate.UpdatesReadBack | controllers/star.go:831-937 | reading back after an update yields the value written and the other fields as they were, except that a tag update that empties tag and category loses the description |
| StarAnnotate.TagUpdateVisible | controllers/star.go:831-853 | after a tag update that keeps the record, the annotated snapshot shows the new tag on the repository; after one that deletes it, the repository reads as stored; every other repository reads as before |
| StarAnnotate.UpdateTag | controllers/star.go:818-857 | a body that does not bind is refused and changes nothing; otherwise the records become those after the tag update |
| StarAnnotate.UpdateCategory | controllers/star.go:860-899 | a body that does not bind is refused and changes nothing; otherwise the records become those after the category update |
| StarAnnotate.UpdateDescription | controllers/star.go:902-941 | a body that does not bind is refused and changes nothing; otherwise the records become those after the description update |
| StarAnnotate.FindRepo | controllers/star.go:183-188 | the result is the first repository with the ID, or none exactly when no repository has it |
| StarAnnotate.GetRepoByID | controllers/star.go:177-190 | with no snapshot the result is the store's error; otherwise it is the first annotated repository with the ID, or a not-found error exactly when none has it |
| StarAnalysis.ExtractJsonFound | controllers/star.go:361-369 | a block is extracted exactly when some '{' comes before some '}' |
| StarAnalysis.ExtractJsonShape | controllers/star.go:361-369 | an extracted block starts with '{', ends with '}', and holds no newline and no backslash |
| StarAnalysis.CallAIAnalysis | controllers/star.go:346-441 | the analysis is the chat call's error, the stage that fails, or the validated record |
| StarAnalysis.DecodeAnswer | controllers/star.go:354-413 | the answer is decoded directly; failing that, the extracted block is decoded loosely and laid over the partial record; no block, or an undecodable one, is its own error |
| StarAnalysis.CompleteFromRaw | controllers/star.go:374-410 | string fields of the loose map replace the record's; a string of tags is split at commas and each piece trimmed; an array gives its elements; anything else keeps the tags |
| StarAnalysis.TrimEach | controllers/star.go:430-433 | every tag is trimmed in place |
| StarAnalysis.ValidateAccepted | controllers/star.go:416-433 | a record that passes keeps its non-empty category and its description, and one to three tags: its first ones, each trimmed, so none has white space at either end |
| StarAnalysis.AnalysisAccepted | controllers/star.go:416-433 | an accepted analysis has a category and one to three trimmed tags, the first tags of the decoded record |
| StarAnalysis.AnalysisErrors | controllers/star.go:346-423 | the errors come in order: a failed chat call, then no block, then a block that does not decode, then an empty category, then no tags; a decoded record is accepted exactly when it has a category and a tag |
| StarAnalysis.TrimSpaceKeepsOut | controllers/star.go:430-433 | trimming adds no character |
| StarAnalysis.TagStringTags | controllers/star.go:394-400 | tags that came as one string are its first comma-separated pieces, trimmed, and none holds a comma |
| StarAnalysis.BlankTagStringKeepsOneEmptyTag | controllers/star.go:394-400 | a blank tags string splits into one empty piece, so it passes the missing-tags check and the result holds the single tag "" |
| StarAnalysis.AnalysisRecordRoundTrip | controllers/star.go:446-451 | tags without commas come back from the saved record by splitting it at commas |
| StarAnalysis.SaveAnalysisResult | controllers/star.go:444-470 | the result is filed as the ID's record, replacing any earlier one; every other record, the snapshot and the sync time stay |
| OpenAI.InsertReaches | utils/openai.go:45-53 | following the dotted path just written reaches the value written |
| OpenAI.InsertKeepsOtherKeys | utils/openai.go:49-72 | keys other than the path's first segment keep their values |
| OpenAI.InsertIntermediate | utils/openai.go:55-71 | an intermediate map is descended into, with its other keys kept; a missing or non-map intermediate becomes a fresh map |
| OpenAI.InsertOverrides | utils/openai.go:45-73 | writing the same path twice leaves only the second value |
| OpenAI.MergeNestedField | utils/openai.go:45-73 | the walk down and the rebuild store the value at the key's dotted path |
| OpenAI.BuildBody | utils/openai.go:77-95 | the body is the base body with the custom fields applied in order |
| OpenAI.LaterFieldWins | utils/openai.go:88-95 | the last custom field holds its path, and overrides any earlier field with the same path |
| OpenAI.ModelOverridable | utils/openai.go:77-95 | without custom fields the body is the base body; a field "model" replaces the model and keeps the messages |
| OpenAI.ChatURLShape | utils/openai.go:83-87 | the URL is the endpoint without its trailing '/', then "/chat/completions" |
| OpenAI.ChatURLTrailingSlash | utils/openai.go:83-87 | a trailing '/' on the endpoint makes no difference to the URL |
| OpenAI.DecideResponseCases | utils/openai.go:126-154 | content comes back exactly from a 200 answer that decodes, with no error message and at least one choice, and it is the first choice's content; a non-200 status, an error message and no choices are each their own error |
| OpenAI.CallWithPrompt | utils/openai.go:75-155 | the request goes to the chat URL with the merged body, and the result is the decision on its answer |
| Session.CharsetIsAlphanumeric | session/session.go:30 | the alphabet holds 62 distinct ASCII letters and digits, and every ASCII letter and digit is in it |
| Session.GenerateSessionID | session/session.go:29-36 | a session ID is 32 characters, each drawn from the alphabet by the index source |
| Session.EverySessionIdPossible | session/session.go:29-36 | every string of 32 alphabet characters is a session ID some index source produces |
| Session.SessionStore.constructor | session/session.go:18 | the store starts empty |
| Session.SessionStore.Set | session/session.go:97-101 | the ID maps to the data, and every other ID is unchanged |
| Session.SessionStore.Get | session/session.go:103-108 | the result is the ID's data and true, or nothing and false when it is absent |
| Session.SessionStore.Delete | session/session.go:110-114 | the ID maps to nothing; every other ID is unchanged; deleting an absent ID changes nothing |
| Session.SessionStore.SetSession | session/session.go:38-52 | the data is stored under a fresh 32-character ID, which is the cookie's value |
| Session.SessionStore.GetSession | session/session.go:54-72 | no cookie is an error; an unknown ID is no session and no error; a known ID gives its data |
| Session.SessionStore.ClearSession | session/session.go:74-95 | only the cookie's ID is removed; without a cookie nothing changes |
| Session.SetGetDelete | session/session.go:97-114 | `Get` after `Set` finds the data; `Get` after `Delete` finds nothing |
| Session.SessionRoundTrip | session/session.go:38-95 | a session set is found with its own cookie; once cleared it is gone |

## Left out

- Concurrency: the goroutine per page, the mutexes and the write lock of the WebSocket connection. The workers run one after another. The arrival order at the fan-in is a parameter, any permutation of the pages. The order in which the progress callbacks write their counts is another parameter, `delivery`: the callback runs after the mutex is released, so that order need not be the order in which the mutex handed the counts out (see Findings).
- StarMerge.CollectWithProgress: that the events never go back is proved only when the callbacks write their counts in lock order (`InLockOrder`), which the code does not guarantee; for any other order only the bounds 0 .. 80 are proved, and `OutOfOrderDeliveryGoesBack` shows the events going back.
- StarMerge.SyncProgressWS: that progress never goes back is proved only when the callbacks write in lock order (`InLockOrder`); for any other order only the bounds 0 .. 100 are proved.
- StarMerge.DeliveryOrders: a delivery is only required to write as many counts as were handed out, which allows more sequences than the orderings of `1 .. n` the code can produce; every ordering is among them, so what is proved holds for each of them.
- StarCollect.EstimateCoversPages: the estimator and the workers request the list separately (the oracles `list` and `pages`); the lemma holds under the hypothesis `SamePages` that the workers' requests for pages `1 .. n` end as the estimator's did. A list that changes between the two walks can make the collection fail after a successful estimate (`WorkerFailureAfterEstimate`), or hold more items than the estimate, where the progress stops at 80; no lemma relates the two walks then.
- StarCollect.CollectionMatchesEstimate: holds under `SamePages`, as above.
- StarMerge.WSRemoteMatchesEstimate: holds under `SamePages`, as above.
- After a failed page, the other workers may still run and write progress events after the failure event, until the connection closes. The model ends the stream at the failure event.
- CollectProgress, MergeProgress: the source computes with `float64` and truncates; the model uses integer division of the same operands.
- The sleeps between retries (`time.Sleep`) are not modelled: they change no result.
- The clock: the formatted `time.Now()` of `SaveSyncTime` is the parameter `now`.
- `math/rand`: the index source `pick` stands for the calls to `rand.Intn`.
- HTTP, JSON and YAML: every request, with the decoding of its body, is an oracle. The direct decode of `callAIAnalysis` is an oracle that may fill part of the record before it fails. The loose decode gives the `category`, `description` and `tags` entries, with array elements already rendered as `%v` renders them.
- Request headers (utils/openai.go:109-113, and the authorisation headers of the GitHub requests) are not modelled. Nor is a failure of `json.Marshal` on the body (utils/openai.go:98-101), which cannot happen for a map of strings.
- Gin: the HTTP status codes and messages of the handlers, the cookie attributes, and the WebSocket upgrade. The id is parsed with `strconv.ParseInt` (its failure reads as 0), and that parsed ID is the handler's parameter. A body that does not bind is `None`. The human-readable messages of the progress events are not modelled.
- `buildAIAnalysisPrompt`, the README request with its base64 decoding, and the handlers `AnalyzeRepo` and `GetRepos` are not part of this model. The chat call's outcome is the input of `CallAIAnalysis`.
- File errors other than a missing file are not modelled: the model's `SaveRepos`, `SaveRepoTag` and `SaveSyncTime` never fail. Therefore the error answer of `saveAnalysisResult` (controllers/star.go:460-466) is not modelled. Nor is a read or parse error of `repo_tags.json`.
- The key sorting in `saveTags` (repository/file_repository.go:249-254) is not modelled: it has no effect on the map that is written.
- Repository.FileRepository.Valid: a tags file edited by hand could file a record under another ID; the model assumes every record is filed under its own ID, as `SaveRepoTag` files it.
- OpenAI.MergeNestedField: it is modelled on values. The Go code mutates nested maps in place, through references that could be shared with the caller's map; that aliasing is not modelled.
- Session.SessionStore: it stores `SessionData` values rather than references to them, so a `nil` session stored under an ID is not modelled.
- `strings.TrimSpace` strips ASCII white space only, not the rest of Unicode's.
- Integer widths: IDs (`int64`) and counts (`int`) are unbounded integers.
- Paging.EndsBy: the list walks terminate only if the remote holds finitely many pages. The model takes as a parameter a page after which every page is empty.
- StarCollect.EnrichKeepsListedFields: the listed fields are preserved only when the detail answers describe the listed repository. The code emits the detail answer as it is.
- StarCollect.GetAllStarredReposDetailed: the fan-in receives fewer than all messages once one is an error; it returns at the first failed message, as the code does. `reported` are the counts in the order the mutex hands them out, not the order the callbacks write them.
- GitHub.GetRepoDetails: the language names are appended in an unspecified order (Go's map iteration), and the contract states only which names and that each appears once.
- Session.Charset: it is written as three ranges of consecutive characters, and `CharsetIsAlphanumeric` proves it is the 62-character alphabet of the source.

## Findings

| source | as written | input that shows it | evidently intended | confidence | as-written member | corrected member |
|---|---|---|---|---|---|---|
| controllers/star.go:1039-1044 | the shared count is raised under the mutex, but the progress callback is called after the mutex is released, so two workers can write their counts in the opposite order | 101 repositories, two pages: page 1's first item takes count 1, page 2's only item takes count 2, page 2's callback writes first; the stream shows 11 then 10 | the progress never goes back: the counts are written in the order the mutex hands them out | not executed; medium | StarMerge.ReportDelivered, StarMerge.OutOfOrderDeliveryGoesBack | StarMerge.SortedDeliveryNeverGoesBack, with `InLockOrder` in StarMerge.CollectWithProgress and StarMerge.SyncProgressWS |
