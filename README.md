# Remote-mediator note sync, modelled in Dafny

The note list of `cmp-room-demo` pages through a fake remote API. It caches
what it has fetched in a local Room database. The database has two tables:

- `notes`, keyed by note id;
- `remote_keys`, which records for each stored note the page boundaries
  `(prevKey, nextKey)` of the page it came from.

The Paging library calls the `NoteRemoteMediator` with a load trigger:
REFRESH, PREPEND or APPEND. The mediator then:

1. chooses the remote page;
2. fetches it from `NoteApiService`;
3. merges the page into both tables inside one database transaction.

This project models that sync engine and proves what it does.

- `entities.dfy` (module `Entities`): the records `NoteEntity`, `RemoteKey`,
  `NoteDto` and `Note`. A Kotlin nullable value is an `Option`.
- `mappers.dfy` (module `Mappers`): `toDomainModel`.
- `note_api_service.dfy` (module `NoteApi`): `getNotes` as a pure function.
  It includes the decimal rendering of a `Long` in a string template, with
  its inverse.
- `note_dao.dfy` (module `NoteDao`): the seven DAO operations. The store is
  the class `NoteStore`, which holds two maps. Each write method changes them
  in place. Insert-or-replace is the function `Upsert`, which the insert
  loops are proved against. The three queries are reads of the state:
  `NotesById`, `RemoteKeyByNoteId` and `LastRemoteKey`.
- `note_remote_mediator.dfy` (module `RemoteMediator`): `load`.
  - The pure function `LoadEffect` gives the meaning of one call.
  - The class `NoteRemoteMediator` runs it step by step on a `NoteStore`.
    Its method `Load` is proved to have exactly the effect `LoadEffect`
    describes. The transaction block is the method `WriteInTransaction`.
  - What the environment does wrong is an input, `Fault`: a failing
    `getLastRemoteKey`, a failing `getNotes`, or the n-th DAO write inside
    the transaction throwing. Every fault the load reaches becomes
    `MediatorResult.Error`; a fault at a step the load never reaches has no
    effect.
  - A load also reports which page it passed to `getNotes`. `None` means the
    API was not called.
- `pagination_scenario.dfy` (module `PaginationScenario`): the paging run
  with the page size the app configures, 5
  (`data/repository/NoteRepositoryImpl.kt:51`). REFRESH stores notes 1–5.
  Each APPEND adds the next five notes up to note 25. After that, every
  APPEND fetches page 6, gets an empty page and changes nothing.

Once the remote is exhausted, APPEND keeps requesting. The keys of page 5
keep `nextKey = 6`, and an empty page writes no key, so the last stored key
never changes. Every later APPEND therefore requests page 6 again and
returns `Success(true)`. This is proved by `ScenarioExhausted` and
`AppendShortCircuitsOnlyWhenNoKeys`. For the same reason, no stored key ever
has a null `nextKey` (`LoadKeepsPageBoundKeys`).

`NoteRemoteMediator.kt` calls a transaction helper named `withTransaction2`,
whose definition is not part of this model. The model treats that block as
all-or-nothing. `NoteStore.RollBack` restores the snapshot taken when the
block began, and `WriteInTransaction` calls it whenever a write throws.

Source paths in the table are relative to the repository root.

## Model

| member | source | states |
|---|---|---|
| Mappers.ToDomainModel | composeApp/src/commonMain/kotlin/com/innosage/cmp/example/roomdemo/data/Mappers.kt:6-8 | The domain note has the entity's id, title and content. |
| Mappers.ToDomainModelInjective | composeApp/src/commonMain/kotlin/com/innosage/cmp/example/roomdemo/data/Mappers.kt:6-8 | Two entities that map to the same note are equal, so the mapping loses nothing. |
| NoteApi.NatToDecimal | composeApp/src/commonMain/kotlin/com/innosage/cmp/example/roomdemo/data/remote/api/NoteApiService.kt:21 | The decimal rendering of a number in a string template is a non-empty string of digits. It has no leading zero, and it is "0" for zero. |
| NoteApi.LongToStringRoundTrip | composeApp/src/commonMain/kotlin/com/innosage/cmp/example/roomdemo/data/remote/api/NoteApiService.kt:21 | The decimal rendering of an id in the title and content templates can be parsed back to the id. |
| NoteApi.GetNotesPastLastPage | composeApp/src/commonMain/kotlin/com/innosage/cmp/example/roomdemo/data/remote/api/NoteApiService.kt:13-16 | Any page after page 5 is empty, whatever the page size. |
| NoteApi.GetNotesLength | composeApp/src/commonMain/kotlin/com/innosage/cmp/example/roomdemo/data/remote/api/NoteApiService.kt:19 | Pages 1 to 5 hold exactly `pageSize` items, or none when `pageSize <= 0`. |
| NoteApi.GetNotesItem | composeApp/src/commonMain/kotlin/com/innosage/cmp/example/roomdemo/data/remote/api/NoteApiService.kt:19-21 | The i-th item (from 1) has id `(page-1)*pageSize + i` and title "Note #" followed by that id. It is the fake note for that id, so the result depends only on `(page, pageSize)`. |
| NoteApi.IdAt | composeApp/src/commonMain/kotlin/com/innosage/cmp/example/roomdemo/data/remote/api/NoteApiService.kt:19-20 | The same id formula by 0-based position, together with the page bound `page <= 5` and the position bound. |
| NoteApi.GetNotesAscending | composeApp/src/commonMain/kotlin/com/innosage/cmp/example/roomdemo/data/remote/api/NoteApiService.kt:19-20 | Ids within one page are strictly ascending. |
| NoteApi.PageIds | composeApp/src/commonMain/kotlin/com/innosage/cmp/example/roomdemo/data/remote/api/NoteApiService.kt:19-20 | For `page <= 5` and `pageSize > 0`, a page carries exactly the ids `(page-1)*pageSize+1 .. page*pageSize`. |
| NoteApi.LastIdOfPage | composeApp/src/commonMain/kotlin/com/innosage/cmp/example/roomdemo/data/remote/api/NoteApiService.kt:20 | For `page <= 5` and `pageSize > 0`, the last item of a page has id `page*pageSize`. |
| NoteApi.FirstIdOfPage | composeApp/src/commonMain/kotlin/com/innosage/cmp/example/roomdemo/data/remote/api/NoteApiService.kt:20 | For `page <= 5` and `pageSize > 0`, the first item of a page has id `(page-1)*pageSize + 1`. |
| NoteApi.PagesAdjacent | composeApp/src/commonMain/kotlin/com/innosage/cmp/example/roomdemo/data/remote/api/NoteApiService.kt:20 | For `1 <= p < 5`, the first id of page `p+1` is one more than the last id of page `p`. |
| NoteApi.PagesDisjoint | composeApp/src/commonMain/kotlin/com/innosage/cmp/example/roomdemo/data/remote/api/NoteApiService.kt:19-20 | Two distinct pages share no id. |
| NoteApi.PagesTile | composeApp/src/commonMain/kotlin/com/innosage/cmp/example/roomdemo/data/remote/api/NoteApiService.kt:13-20 | For `pageSize > 0`, every id in `1..5*pageSize` is served by one of pages 1..5, and no page serves an id outside that range. With `PagesDisjoint`, pages 1..5 tile `1..5*pageSize`. |
| NoteApi.TitleNamesId | composeApp/src/commonMain/kotlin/com/innosage/cmp/example/roomdemo/data/remote/api/NoteApiService.kt:21 | A title is "Note #" followed by text that parses back to the note's id, so distinct notes never share a title. |
| NoteDao.Upsert | composeApp/src/commonMain/kotlin/com/innosage/cmp/example/roomdemo/data/local/NoteDao.kt:20-21 | After a REPLACE insert, the table's keys are the old keys plus the batch's keys, and every row is still stored under its own primary key. |
| NoteDao.UpsertUntouched | composeApp/src/commonMain/kotlin/com/innosage/cmp/example/roomdemo/data/local/NoteDao.kt:20-21 | A row whose key the batch does not carry keeps its value, or stays absent. |
| NoteDao.UpsertLastWins | composeApp/src/commonMain/kotlin/com/innosage/cmp/example/roomdemo/data/local/NoteDao.kt:20-21 | A batch row that no later batch row replaces is stored under its key, so with duplicates the last write wins. |
| NoteDao.UpsertOverridesBase | composeApp/src/commonMain/kotlin/com/innosage/cmp/example/roomdemo/data/local/NoteDao.kt:43-44 | The rows stored under the batch's keys do not depend on what the table held before. |
| NoteDao.UpsertIdempotent | composeApp/src/commonMain/kotlin/com/innosage/cmp/example/roomdemo/data/local/NoteDao.kt:20-21 | Inserting the same batch twice leaves the same table as inserting it once. |
| NoteDao.UpsertKeepsRowProperty | composeApp/src/commonMain/kotlin/com/innosage/cmp/example/roomdemo/data/local/NoteDao.kt:43-44 | If every old row and every batch row has a property, every row after the insert has it. |
| NoteDao.NotesById | composeApp/src/commonMain/kotlin/com/innosage/cmp/example/roomdemo/data/local/NoteDao.kt:28-29 | The listing is strictly ascending by id, lists only stored rows, and lists every stored row, whatever the insertion order. |
| NoteDao.RemoteKeyByNoteId | composeApp/src/commonMain/kotlin/com/innosage/cmp/example/roomdemo/data/local/NoteDao.kt:51-52 | Returns the stored key whose `noteId` is the one asked for, or null exactly when no stored key has that `noteId`. |
| NoteDao.LastRemoteKey | composeApp/src/commonMain/kotlin/com/innosage/cmp/example/roomdemo/data/local/NoteDao.kt:59-60 | Returns a stored key whose `noteId` is at least that of every stored key. Returns null iff `remote_keys` is empty, whatever `notes` holds. |
| NoteDao.NoteStore.InsertAllNotes | composeApp/src/commonMain/kotlin/com/innosage/cmp/example/roomdemo/data/local/NoteDao.kt:20-21 | `notes` becomes the REPLACE insert of the batch into the old table, and `remote_keys` is untouched. |
| NoteDao.NoteStore.InsertAllRemoteKeys | composeApp/src/commonMain/kotlin/com/innosage/cmp/example/roomdemo/data/local/NoteDao.kt:43-44 | `remote_keys` becomes the REPLACE insert of the batch into the old table, and `notes` is untouched. |
| NoteDao.NoteStore.ClearAllNotes | composeApp/src/commonMain/kotlin/com/innosage/cmp/example/roomdemo/data/local/NoteDao.kt:35-36 | `notes` is empty, and `remote_keys` is unchanged. |
| NoteDao.NoteStore.ClearAllRemoteKeys | composeApp/src/commonMain/kotlin/com/innosage/cmp/example/roomdemo/data/local/NoteDao.kt:66-67 | `remote_keys` is empty, and `notes` is unchanged. |
| NoteDao.NoteStore.RollBack | composeApp/src/commonMain/kotlin/com/innosage/cmp/example/roomdemo/data/paging/NoteRemoteMediator.kt:62 | A transaction that throws leaves both tables as they were when it began. |
| RemoteMediator.ToEntity | composeApp/src/commonMain/kotlin/com/innosage/cmp/example/roomdemo/data/paging/NoteRemoteMediator.kt:82 | The entity has the DTO's id, title and content. |
| RemoteMediator.NoteRemoteMediator.Load | composeApp/src/commonMain/kotlin/com/innosage/cmp/example/roomdemo/data/paging/NoteRemoteMediator.kt:48-80 | The result, the page requested from the API, and the new tables are exactly those `LoadEffect` gives for the old tables. The store stays well keyed. |
| RemoteMediator.NoteRemoteMediator.WriteInTransaction | composeApp/src/commonMain/kotlin/com/innosage/cmp/example/roomdemo/data/paging/NoteRemoteMediator.kt:62-74 | The block commits iff no write inside it throws. When it commits, the tables are the page merged into the old ones (cleared first on REFRESH). Otherwise they are unchanged. |
| RemoteMediator.PrependIsTerminal | composeApp/src/commonMain/kotlin/com/innosage/cmp/example/roomdemo/data/paging/NoteRemoteMediator.kt:52 | PREPEND returns `Success(true)`, makes no API call and changes neither table, whatever the faults. |
| RemoteMediator.AppendWithoutNextKeyIsTerminal | composeApp/src/commonMain/kotlin/com/innosage/cmp/example/roomdemo/data/paging/NoteRemoteMediator.kt:53-56 | When `getLastRemoteKey` does not throw, APPEND with no stored key, or with a last key whose `nextKey` is null, returns `Success(true)` with no API call and no write. |
| RemoteMediator.RequestedPage | composeApp/src/commonMain/kotlin/com/innosage/cmp/example/roomdemo/data/paging/NoteRemoteMediator.kt:50-59 | REFRESH requests page 1 whatever is stored. PREPEND requests nothing. When `getLastRemoteKey` does not throw, APPEND requests exactly the `nextKey` of the last remote key. |
| RemoteMediator.SuccessMergesRequestedPage | composeApp/src/commonMain/kotlin/com/innosage/cmp/example/roomdemo/data/paging/NoteRemoteMediator.kt:59-76 | A successful load that called the API merged exactly `getNotes(page, pageSize)`, with `pageSize` passed through. It reports `endOfPaginationReached` iff that list is empty. A successful load without a call reports the end and changes nothing. |
| RemoteMediator.ErrorLeavesTablesUnchanged | composeApp/src/commonMain/kotlin/com/innosage/cmp/example/roomdemo/data/paging/NoteRemoteMediator.kt:49-79 | A fault the load reaches (a read fault on APPEND; a fetch fault, or a fault in one of the writes the transaction performs, once a page is requested) is reported as `Error`. A load that reports `Error` leaves both tables as they were, and a load with no fault never reports `Error`. |
| RemoteMediator.FetchedIds | composeApp/src/commonMain/kotlin/com/innosage/cmp/example/roomdemo/data/paging/NoteRemoteMediator.kt:71-73 | The notes and the keys built from one response carry exactly that response's ids. |
| RemoteMediator.MergeStoresFetched | composeApp/src/commonMain/kotlin/com/innosage/cmp/example/roomdemo/data/paging/NoteRemoteMediator.kt:68-73 | Each fetched note that no later item repeats is stored as fetched. Its key is `(page == 1 ? null : page-1, page+1)`. |
| RemoteMediator.MergeKeepsUnfetched | composeApp/src/commonMain/kotlin/com/innosage/cmp/example/roomdemo/data/paging/NoteRemoteMediator.kt:72-73 | A non-REFRESH merge leaves every note and key whose id the response does not carry as it was, or absent. |
| RemoteMediator.MergeIds | composeApp/src/commonMain/kotlin/com/innosage/cmp/example/roomdemo/data/paging/NoteRemoteMediator.kt:63-73 | After a merge, each table holds the fetched ids plus, except on REFRESH, the ids it held before. |
| RemoteMediator.RefreshReplacesTables | composeApp/src/commonMain/kotlin/com/innosage/cmp/example/roomdemo/data/paging/NoteRemoteMediator.kt:63-73 | After a successful REFRESH, both tables hold exactly the ids of page 1, each note as fetched with the key `(null, 2)`. An empty page leaves both tables empty. |
| RemoteMediator.RefreshForgetsPriorState | composeApp/src/commonMain/kotlin/com/innosage/cmp/example/roomdemo/data/paging/NoteRemoteMediator.kt:63-65 | A REFRESH without faults has the same outcome from any two starting states, so nothing from before survives it. |
| RemoteMediator.AppendMerge | composeApp/src/commonMain/kotlin/com/innosage/cmp/example/roomdemo/data/paging/NoteRemoteMediator.kt:72-73 | For a response with ascending ids, an APPEND merge keeps every unfetched row and stores each fetched note with the key `(PrevKey(p), p+1)`. |
| RemoteMediator.AppendMergeOfPage | composeApp/src/commonMain/kotlin/com/innosage/cmp/example/roomdemo/data/paging/NoteRemoteMediator.kt:72-73 | The same for any page the fake remote serves. |
| RemoteMediator.AppendMergesPage | composeApp/src/commonMain/kotlin/com/innosage/cmp/example/roomdemo/data/paging/NoteRemoteMediator.kt:62-74 | After a successful APPEND of page `p`, every pre-existing note and key whose id the page lacks is unchanged. Each fetched note is stored as fetched with the key `(PrevKey(p), p+1)`. |
| RemoteMediator.SuccessIsMerge | composeApp/src/commonMain/kotlin/com/innosage/cmp/example/roomdemo/data/paging/NoteRemoteMediator.kt:59-74 | A successful load that made a request left the merge of the fetched page. |
| RemoteMediator.LoadKeepsTablesAligned | composeApp/src/commonMain/kotlin/com/innosage/cmp/example/roomdemo/data/paging/NoteRemoteMediator.kt:63-73 | If `notes` and `remote_keys` hold the same ids before a load, they do after it. |
| RemoteMediator.MergeKeepsAligned | composeApp/src/commonMain/kotlin/com/innosage/cmp/example/roomdemo/data/paging/NoteRemoteMediator.kt:71-73 | A merge keeps both tables on the same ids. |
| RemoteMediator.LoadKeepsPageBoundKeys | composeApp/src/commonMain/kotlin/com/innosage/cmp/example/roomdemo/data/paging/NoteRemoteMediator.kt:68-71 | If every stored key has a non-null `nextKey = p+1` with `prevKey = PrevKey(p)` for some page `p >= 1`, that still holds after any load. |
| RemoteMediator.MergeKeepsPageBound | composeApp/src/commonMain/kotlin/com/innosage/cmp/example/roomdemo/data/paging/NoteRemoteMediator.kt:68-71 | Merging a page `p >= 1` writes only such keys, because an empty page writes none. |
| RemoteMediator.LoadKeepsSyncInvariant | composeApp/src/commonMain/kotlin/com/innosage/cmp/example/roomdemo/data/paging/NoteRemoteMediator.kt:62-74 | The empty database satisfies the invariant (well keyed, aligned tables, page-bound keys), and every load keeps it. |
| RemoteMediator.AppendShortCircuitsOnlyWhenNoKeys | composeApp/src/commonMain/kotlin/com/innosage/cmp/example/roomdemo/data/paging/NoteRemoteMediator.kt:53-56 | Under the invariant, and when `getLastRemoteKey` does not throw, APPEND skips the API call iff `remote_keys` is empty. |
| RemoteMediator.RunKeepsSyncInvariant | composeApp/src/commonMain/kotlin/com/innosage/cmp/example/roomdemo/data/paging/NoteRemoteMediator.kt:48-80 | Every state reached by any sequence of loads, with any faults, keeps the invariant. |
| PaginationScenario.ItemOfPage | composeApp/src/commonMain/kotlin/com/innosage/cmp/example/roomdemo/data/remote/api/NoteApiService.kt:19-21 | With page size 5, item `j` of page `p` is the fake note `5(p-1)+j+1`, which lies on page `p`. |
| PaginationScenario.FetchedEntry | composeApp/src/commonMain/kotlin/com/innosage/cmp/example/roomdemo/data/paging/NoteRemoteMediator.kt:68-73 | After merging page `p`, each of its notes is stored as served, with the key of page `p`. |
| PaginationScenario.KeptEntry | composeApp/src/commonMain/kotlin/com/innosage/cmp/example/roomdemo/data/paging/NoteRemoteMediator.kt:72-73 | After APPENDing page `p` onto pages `1..p-1`, each earlier note and its key are still stored. |
| PaginationScenario.MergedIds | composeApp/src/commonMain/kotlin/com/innosage/cmp/example/roomdemo/data/paging/NoteRemoteMediator.kt:63-73 | After that merge, both tables hold exactly the ids `1..5p`. |
| PaginationScenario.MergeNextPage | composeApp/src/commonMain/kotlin/com/innosage/cmp/example/roomdemo/data/paging/NoteRemoteMediator.kt:62-74 | Merging page `p` onto pages `1..p-1`, or on REFRESH onto anything, leaves exactly notes `1..5p` as served, each with its page's key. |
| PaginationScenario.ScenarioRefresh | composeApp/src/commonMain/kotlin/com/innosage/cmp/example/roomdemo/data/paging/NoteRemoteMediator.kt:51-76 | REFRESH from any state requests page 1, returns `Success(false)`, and leaves exactly notes 1–5 with keys `(null, 2)`. |
| PaginationScenario.LastKeyOfPages | composeApp/src/commonMain/kotlin/com/innosage/cmp/example/roomdemo/data/local/NoteDao.kt:59-60 | With notes `1..5k` stored, the last remote key is note `5k`'s key, `(PrevKey(k), k+1)`. |
| PaginationScenario.AppendFetchesPage | composeApp/src/commonMain/kotlin/com/innosage/cmp/example/roomdemo/data/paging/NoteRemoteMediator.kt:53-59 | With pages `1..p-1` stored and `2 <= p <= 5`, APPEND requests page `p`, returns `Success(false)` and merges that page. |
| PaginationScenario.ScenarioAppend | composeApp/src/commonMain/kotlin/com/innosage/cmp/example/roomdemo/data/paging/NoteRemoteMediator.kt:53-76 | The same APPEND leaves exactly notes `1..5p`. The new notes `5p-4..5p` have keys `(p-1, p+1)`. |
| PaginationScenario.ScenarioExhausted | composeApp/src/commonMain/kotlin/com/innosage/cmp/example/roomdemo/data/paging/NoteRemoteMediator.kt:53-76 | With all 25 notes stored, APPEND requests page 6, returns `Success(true)` and leaves both tables unchanged. |
| PaginationScenario.AppendStep | composeApp/src/commonMain/kotlin/com/innosage/cmp/example/roomdemo/data/paging/NoteRemoteMediator.kt:53-76 | One APPEND on pages `1..k` leaves pages `1..k+1` while `k < 5`, and leaves the tables unchanged at `k = 5`. |
| PaginationScenario.ScenarioRun | composeApp/src/commonMain/kotlin/com/innosage/cmp/example/roomdemo/data/paging/NoteRemoteMediator.kt:48-80 | From any state, REFRESH followed by `n` APPENDs with page size 5 leaves exactly notes `1..5*min(n+1, 5)`, each as served with its page's key. |

## Left out

- Kotlin `Int`/`Long` widths are not modelled: ids and page numbers are unbounded integers. Overflow of `page + 1` and `(page - 1) * pageSize` would need pages or page sizes near 2^31, which the app never uses.
- The `delay(1500)` and both `println` calls in `getNotes` are left out. They are a suspension and console output, and they do not affect the result.
- Paging-library orchestration is left out. This covers `Pager`, `PagingConfig`, `cachedIn`, the view models, when loads are triggered, single-flighting, prefetching and invalidation of the `PagingSource`. That code is in a library whose source is not modelled. The sequence of loads is an input (`RemoteMediator.Run`).
- The `PagingSource` object is left out. `pagingSource` is modelled as the ordered list its query selects (`NoteDao.NotesById`), not as a windowed loader.
- The implementation of `withTransaction2` and Room's generated DAO code are not part of this model. All-or-nothing behaviour is assumed: `NoteStore.RollBack` restores the tables when a write throws. Isolation from concurrent readers is not modelled.
- The exception carried by `MediatorResult.Error` is not modelled, only the fact that an error was reported.
- A cancelled coroutine is not distinguished from other exceptions. It is treated like any other fault.
- `domain/model/Note.kt` is not part of this model. `Note` has the three fields `Mappers.kt` fills.
- The second source tree (`org.example.project`) is not modelled separately. Its mapper is the same function as the one modelled here.
- PaginationScenario: the end-to-end run fixes the page size to 5, the value the app configures. The general properties of `load` hold for every page size.
- RemoteMediator.LoadEffect: a read fault is only possible on APPEND, since only APPEND calls `getLastRemoteKey`. A write fault numbers only the DAO writes the block actually performs: 4 on REFRESH, 2 otherwise.
