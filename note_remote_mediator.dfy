/** The remote mediator: for each load trigger it decides which remote page
    to fetch and merges that page into the two local tables inside one
    database transaction.

    The remote API is the deterministic `NoteApi.GetNotes`. What can go
    wrong while loading (a failing read, fetch or write) is an input,
    `Fault`, chosen by the environment. `LoadEffect` is the meaning of one
    call of `load`; `NoteRemoteMediator.Load` performs it step by step on a
    `NoteStore` and is proved to have exactly that effect. */
module RemoteMediator {
  import opened Entities
  import opened NoteDao
  import opened NoteApi

  /** Paging's `LoadType`. */
  datatype LoadType = Refresh | Prepend | Append

  /** Paging's `MediatorResult`. The exception an `Error` carries is not
      modelled. */
  datatype MediatorResult = Success(endOfPaginationReached: bool) | Error

  /** The exception, if any, that the environment raises during one load. */
  datatype Fault =
    | NoFault
      /** `getLastRemoteKey` throws (only APPEND reads it). */
    | ReadFault
      /** `getNotes` throws. */
    | FetchFault
      /** The DAO write numbered `step` (from 0, in program order) inside the
          transaction throws; a step the load never reaches has no effect. */
    | WriteFault(step: nat)

  /** What one load reports, which page it asked the API for (`None`: the
      API was not called), and the tables afterwards. */
  datatype Outcome = Outcome(result: MediatorResult, request: Option<int>, db: Tables)

  /** `NoteDto.toEntity()`. */
  function ToEntity(dto: NoteDto): (e: NoteEntity)
    ensures e.id == dto.id && e.title == dto.title && e.content == dto.content
  {
    NoteEntity(dto.id, dto.title, dto.content)
  }

  /** `response.map { it.toEntity() }`. */
  function ToEntities(response: seq<NoteDto>): seq<NoteEntity>
  {
    seq(|response|, i requires 0 <= i < |response| => ToEntity(response[i]))
  }

  /** The `prevKey` recorded for a page: none before the first page. */
  function PrevKey(page: int): Option<int>
  {
    if page == 1 then None else Some(page - 1)
  }

  /** The `nextKey` recorded for a page: none once a page came back empty. */
  function NextKey(page: int, endOfPaginationReached: bool): Option<int>
  {
    if endOfPaginationReached then None else Some(page + 1)
  }

  /** One `RemoteKey` per fetched note, all with the page's boundaries. */
  function KeysForPage(response: seq<NoteDto>, prevKey: Option<int>, nextKey: Option<int>): seq<RemoteKey>
  {
    seq(|response|, i requires 0 <= i < |response| => RemoteKey(response[i].id, prevKey, nextKey))
  }

  /** The page a trigger asks for, given the last stored remote key (only
      APPEND consults it); `None` returns at once with the end reached. */
  function PageToLoad(loadType: LoadType, lastRemoteKey: Option<RemoteKey>): Option<int>
  {
    match loadType
    case Refresh => Some(1)
    case Prepend => None
    case Append => if lastRemoteKey.Some? then lastRemoteKey.value.nextKey else None
  }

  /** How many DAO writes the transaction block performs. */
  function WriteCount(loadType: LoadType): nat
  {
    if loadType == Refresh then 4 else 2
  }

  /** The tables after the transaction block commits: on REFRESH both tables
      are cleared first; then the keys and the notes of the page are
      upserted. */
  function Merge(db: Tables, loadType: LoadType, page: int, response: seq<NoteDto>): Tables
  {
    var base := if loadType == Refresh then EmptyTables else db;
    var keys := KeysForPage(response, PrevKey(page), NextKey(page, response == []));
    Tables(Upsert(base.notes, ToEntities(response), NoteId),
           Upsert(base.remoteKeys, keys, KeyNoteId))
  }

  /** The meaning of `load(loadType, state)` with `state.config.pageSize ==
      pageSize`, started on the tables `db`, when the environment raises
      `fault`. A write that throws inside the transaction rolls back every
      write of the block. */
  function LoadEffect(db: Tables, loadType: LoadType, pageSize: int, fault: Fault): (o: Outcome)
    requires WellKeyed(db)
    ensures WellKeyed(o.db)
  {
    if loadType == Append && fault == ReadFault then Outcome(Error, None, db)
    else
      var last := if loadType == Append then LastRemoteKey(db.remoteKeys) else None;
      match PageToLoad(loadType, last)
      case None => Outcome(Success(true), None, db)
      case Some(page) =>
        if fault == FetchFault then Outcome(Error, Some(page), db)
        else if fault.WriteFault? && fault.step < WriteCount(loadType) then Outcome(Error, Some(page), db)
        else
          var response := GetNotes(page, pageSize);
          Outcome(Success(response == []), Some(page), Merge(db, loadType, page, response))
  }

  /** `NoteRemoteMediator`, bound to the database it fills. */
  class NoteRemoteMediator {
    const dao: NoteStore

    constructor (dao: NoteStore)
      ensures this.dao == dao
    {
      this.dao := dao;
    }

    /** `load`: choose the page, fetch it, and merge it in one transaction;
        any exception becomes `Error` and leaves the tables as they were. */
    method Load(loadType: LoadType, pageSize: int, fault: Fault) returns (result: MediatorResult, request: Option<int>)
      requires dao.Valid()
      modifies dao
      ensures dao.Valid()
      ensures Outcome(result, request, dao.Snapshot()) == LoadEffect(old(dao.Snapshot()), loadType, pageSize, fault)
    {
      var page: int;
      match loadType {
        case Refresh =>
          page := 1;
        case Prepend =>
          return Success(true), None;
        case Append =>
          if fault == ReadFault {
            return Error, None;
          }
          var lastRemoteKey := dao.GetLastRemoteKey();
          if lastRemoteKey.None? || lastRemoteKey.value.nextKey.None? {
            return Success(true), None;
          }
          page := lastRemoteKey.value.nextKey.value;
      }

      request := Some(page);
      if fault == FetchFault {
        return Error, request;
      }
      var response := GetNotes(page, pageSize);
      var endOfPaginationReached := response == [];
      var committed := WriteInTransaction(loadType, page, response, fault);
      result := if committed then Success(endOfPaginationReached) else Error;
    }

    /** The `withTransaction2` block: on REFRESH clear both tables, then
        store the page's keys and notes. A write that throws rolls the
        tables back to where the block started, and nothing is committed. */
    method WriteInTransaction(loadType: LoadType, page: int, response: seq<NoteDto>, fault: Fault)
      returns (committed: bool)
      requires dao.Valid()
      modifies dao
      ensures dao.Valid()
      ensures committed <==> !(fault.WriteFault? && fault.step < WriteCount(loadType))
      ensures dao.Snapshot() ==
                if committed then Merge(old(dao.Snapshot()), loadType, page, response)
                else old(dao.Snapshot())
    {
      var saved := dao.Snapshot();
      var step := 0;
      if loadType == Refresh {
        if fault == WriteFault(step) {
          dao.RollBack(saved);
          return false;
        }
        dao.ClearAllNotes();
        step := step + 1;
        if fault == WriteFault(step) {
          dao.RollBack(saved);
          return false;
        }
        dao.ClearAllRemoteKeys();
        step := step + 1;
      }
      var prevKey := PrevKey(page);
      var nextKey := NextKey(page, response == []);
      var remoteKeys := KeysForPage(response, prevKey, nextKey);
      if fault == WriteFault(step) {
        dao.RollBack(saved);
        return false;
      }
      dao.InsertAllRemoteKeys(remoteKeys);
      step := step + 1;
      if fault == WriteFault(step) {
        dao.RollBack(saved);
        return false;
      }
      dao.InsertAllNotes(ToEntities(response));
      committed := true;
    }
  }

  /** PREPEND is terminal: it reports the end without calling the API and
      without touching either table, whatever the environment does. */
  lemma PrependIsTerminal(db: Tables, pageSize: int, fault: Fault)
    requires WellKeyed(db)
    ensures LoadEffect(db, Prepend, pageSize, fault) == Outcome(Success(true), None, db)
  {
  }

  /** When `getLastRemoteKey` does not throw, APPEND with no stored remote
      key, or a last key without `nextKey`, reports the end without calling
      the API and without writing. */
  lemma AppendWithoutNextKeyIsTerminal(db: Tables, pageSize: int, fault: Fault)
    requires WellKeyed(db)
    requires fault != ReadFault
    requires LastRemoteKey(db.remoteKeys).None? || LastRemoteKey(db.remoteKeys).value.nextKey.None?
    ensures LoadEffect(db, Append, pageSize, fault) == Outcome(Success(true), None, db)
  {
  }

  /** REFRESH always asks for page 1, whatever keys are stored; when
      `getLastRemoteKey` does not throw, APPEND asks for exactly the
      `nextKey` of the key with the largest `noteId`; PREPEND never calls
      the API. */
  lemma RequestedPage(db: Tables, loadType: LoadType, pageSize: int, fault: Fault)
    requires WellKeyed(db)
    ensures loadType == Refresh ==> LoadEffect(db, loadType, pageSize, fault).request == Some(1)
    ensures loadType == Prepend ==> LoadEffect(db, loadType, pageSize, fault).request == None
    ensures loadType == Append && fault != ReadFault && LastRemoteKey(db.remoteKeys).Some? ==>
              LoadEffect(db, loadType, pageSize, fault).request == LastRemoteKey(db.remoteKeys).value.nextKey
  {
  }

  /** A successful load that called the API fetched the requested page with
      the configured page size, merged exactly that response, and reports
      the end of pagination iff the response was empty. A successful load
      that did not call the API reports the end and changes nothing. */
  lemma SuccessMergesRequestedPage(db: Tables, loadType: LoadType, pageSize: int, fault: Fault)
    requires WellKeyed(db)
    requires LoadEffect(db, loadType, pageSize, fault).result.Success?
    ensures var o := LoadEffect(db, loadType, pageSize, fault);
            o.request.Some? ==>
              && o.result.endOfPaginationReached == (GetNotes(o.request.value, pageSize) == [])
              && o.db == Merge(db, loadType, o.request.value, GetNotes(o.request.value, pageSize))
    ensures var o := LoadEffect(db, loadType, pageSize, fault);
            o.request.None? ==> o.result.endOfPaginationReached && o.db == db
  {
  }

  /** Every failure the load reaches, in the read, the fetch or the
      transaction, is reported as `Error`; an `Error` leaves both tables
      exactly as they were; and a load without failure never reports
      `Error`. */
  lemma ErrorLeavesTablesUnchanged(db: Tables, loadType: LoadType, pageSize: int, fault: Fault)
    requires WellKeyed(db)
    ensures loadType == Append && fault == ReadFault ==>
              LoadEffect(db, loadType, pageSize, fault).result == Error
    ensures LoadEffect(db, loadType, pageSize, fault).request.Some? &&
            (fault == FetchFault || (fault.WriteFault? && fault.step < WriteCount(loadType))) ==>
              LoadEffect(db, loadType, pageSize, fault).result == Error
    ensures LoadEffect(db, loadType, pageSize, fault).result.Error? ==>
              LoadEffect(db, loadType, pageSize, fault).db == db
    ensures fault == NoFault ==> LoadEffect(db, loadType, pageSize, fault).result.Success?
  {
  }

  /** Both tables hold the same ids: the mediator writes a note and its key
      together and clears them together (no foreign key enforces this). */
  ghost predicate TablesAligned(db: Tables)
  {
    db.notes.Keys == db.remoteKeys.Keys
  }

  /** A key as one load writes it for a non-empty page `p >= 1`:
      `nextKey == p + 1` and `prevKey == PrevKey(p)`. */
  predicate PageBound(k: RemoteKey)
  {
    k.nextKey.Some? && k.nextKey.value >= 2 && k.prevKey == PrevKey(k.nextKey.value - 1)
  }

  /** Every stored key is page-bound; in particular no stored `nextKey` is
      null. */
  ghost predicate PageBoundKeys(remoteKeys: map<int, RemoteKey>)
  {
    forall j :: j in remoteKeys ==> PageBound(remoteKeys[j])
  }

  /** What every state the mediator reaches from empty tables satisfies. */
  ghost predicate SyncInvariant(db: Tables)
  {
    WellKeyed(db) && TablesAligned(db) && PageBoundKeys(db.remoteKeys)
  }

  /** The notes and the keys written for one response carry exactly the
      response's ids. */
  lemma FetchedIds(response: seq<NoteDto>, prevKey: Option<int>, nextKey: Option<int>)
    ensures KeysOf(ToEntities(response), NoteId) == IdsOf(response)
    ensures KeysOf(KeysForPage(response, prevKey, nextKey), KeyNoteId) == IdsOf(response)
  {
    var es := ToEntities(response);
    var ks := KeysForPage(response, prevKey, nextKey);
    forall x
      ensures x in KeysOf(es, NoteId) <==> x in IdsOf(response)
      ensures x in KeysOf(ks, KeyNoteId) <==> x in IdsOf(response)
    {
      if x in IdsOf(response) {
        var i :| 0 <= i < |response| && response[i].id == x;
        assert NoteId(es[i]) == x;
        assert KeyNoteId(ks[i]) == x;
      }
    }
  }

  /** A fetched note that no later entry of the response repeats is stored
      as fetched, with a key that carries the page's boundaries. */
  lemma MergeStoresFetched(db: Tables, loadType: LoadType, page: int, response: seq<NoteDto>, j: int)
    requires 0 <= j < |response|
    requires forall j' :: j < j' < |response| ==> response[j'].id != response[j].id
    ensures var m := Merge(db, loadType, page, response);
            && response[j].id in m.notes
            && m.notes[response[j].id] == ToEntity(response[j])
            && response[j].id in m.remoteKeys
            && m.remoteKeys[response[j].id] == RemoteKey(response[j].id, PrevKey(page), Some(page + 1))
  {
    var base := if loadType == Refresh then EmptyTables else db;
    var keys := KeysForPage(response, PrevKey(page), NextKey(page, false));
    UpsertLastWins(base.notes, ToEntities(response), NoteId, j);
    UpsertLastWins(base.remoteKeys, keys, KeyNoteId, j);
  }

  /** A merge that does not refresh leaves every note and key whose id the
      response does not carry as it was. */
  lemma MergeKeepsUnfetched(db: Tables, page: int, response: seq<NoteDto>, id: int)
    requires id !in IdsOf(response)
    ensures var m := Merge(db, Append, page, response);
            && (id in m.notes <==> id in db.notes)
            && (id in db.notes ==> m.notes[id] == db.notes[id])
            && (id in m.remoteKeys <==> id in db.remoteKeys)
            && (id in db.remoteKeys ==> m.remoteKeys[id] == db.remoteKeys[id])
  {
    var keys := KeysForPage(response, PrevKey(page), NextKey(page, response == []));
    FetchedIds(response, PrevKey(page), NextKey(page, response == []));
    UpsertUntouched(db.notes, ToEntities(response), NoteId, id);
    UpsertUntouched(db.remoteKeys, keys, KeyNoteId, id);
  }

  /** The ids in each table after a merge: on REFRESH exactly the fetched
      ids, otherwise the old ids and the fetched ones. */
  lemma MergeIds(db: Tables, loadType: LoadType, page: int, response: seq<NoteDto>)
    ensures var m := Merge(db, loadType, page, response);
            && m.notes.Keys == (if loadType == Refresh then {} else db.notes.Keys) + IdsOf(response)
            && m.remoteKeys.Keys == (if loadType == Refresh then {} else db.remoteKeys.Keys) + IdsOf(response)
  {
    FetchedIds(response, PrevKey(page), NextKey(page, response == []));
  }

  /** After a successful REFRESH the tables hold exactly page 1: one note
      and one key `(null, 2)` per fetched id, nothing from before; an empty
      page leaves both tables empty. */
  lemma RefreshReplacesTables(db: Tables, pageSize: int, fault: Fault)
    requires WellKeyed(db)
    requires LoadEffect(db, Refresh, pageSize, fault).result.Success?
    ensures var m := LoadEffect(db, Refresh, pageSize, fault).db;
            var response := GetNotes(1, pageSize);
            && m.notes.Keys == IdsOf(response)
            && m.remoteKeys.Keys == IdsOf(response)
            && (forall j :: 0 <= j < |response| ==>
                  m.notes[response[j].id] == ToEntity(response[j]) &&
                  m.remoteKeys[response[j].id] == RemoteKey(response[j].id, None, Some(2)))
            && (response == [] ==> m == EmptyTables)
  {
    var response := GetNotes(1, pageSize);
    MergeIds(db, Refresh, 1, response);
    GetNotesAscending(1, pageSize);
    forall j | 0 <= j < |response|
      ensures var m := Merge(db, Refresh, 1, response);
              m.notes[response[j].id] == ToEntity(response[j]) &&
              m.remoteKeys[response[j].id] == RemoteKey(response[j].id, None, Some(2))
    {
      MergeStoresFetched(db, Refresh, 1, response, j);
    }
  }

  /** REFRESH forgets the previous state: two successful refreshes with the
      same page size leave the same tables whatever they started from, so
      refreshing twice is the same as refreshing once. */
  lemma RefreshForgetsPriorState(db1: Tables, db2: Tables, pageSize: int)
    requires WellKeyed(db1) && WellKeyed(db2)
    ensures LoadEffect(db1, Refresh, pageSize, NoFault) == LoadEffect(db2, Refresh, pageSize, NoFault)
  {
  }

  /** An APPEND merge of a response whose ids are distinct: a note whose id
      the response does not carry keeps its rows, and a fetched note is
      stored as fetched with the key `(PrevKey(p), p + 1)`. */
  lemma AppendMerge(db: Tables, p: int, response: seq<NoteDto>, id: int)
    requires forall i, j :: 0 <= i < j < |response| ==> response[i].id < response[j].id
    ensures var m := Merge(db, Append, p, response);
            && (id !in IdsOf(response) ==>
                  && (id in m.notes <==> id in db.notes)
                  && (id in db.notes ==> m.notes[id] == db.notes[id])
                  && (id in m.remoteKeys <==> id in db.remoteKeys)
                  && (id in db.remoteKeys ==> m.remoteKeys[id] == db.remoteKeys[id]))
            && (forall j :: 0 <= j < |response| && response[j].id == id ==>
                  && id in m.notes && m.notes[id] == ToEntity(response[j])
                  && id in m.remoteKeys && m.remoteKeys[id] == RemoteKey(id, PrevKey(p), Some(p + 1)))
  {
    if id !in IdsOf(response) {
      MergeKeepsUnfetched(db, p, response, id);
    }
    forall j | 0 <= j < |response| && response[j].id == id
      ensures var m := Merge(db, Append, p, response);
              && id in m.notes && m.notes[id] == ToEntity(response[j])
              && id in m.remoteKeys && m.remoteKeys[id] == RemoteKey(id, PrevKey(p), Some(p + 1))
    {
      MergeStoresFetched(db, Append, p, response, j);
    }
  }

  /** `AppendMerge` for a page of the fake remote, whose ids ascend. */
  lemma AppendMergeOfPage(db: Tables, p: int, pageSize: int, m: Tables, id: int)
    requires m == Merge(db, Append, p, GetNotes(p, pageSize))
    ensures var response := GetNotes(p, pageSize);
            && (id !in IdsOf(response) ==>
                  && (id in m.notes <==> id in db.notes)
                  && (id in db.notes ==> m.notes[id] == db.notes[id])
                  && (id in m.remoteKeys <==> id in db.remoteKeys)
                  && (id in db.remoteKeys ==> m.remoteKeys[id] == db.remoteKeys[id]))
            && (forall j :: 0 <= j < |response| && response[j].id == id ==>
                  && id in m.notes && m.notes[id] == ToEntity(response[j])
                  && id in m.remoteKeys && m.remoteKeys[id] == RemoteKey(id, PrevKey(p), Some(p + 1)))
  {
    GetNotesAscending(p, pageSize);
    AppendMerge(db, p, GetNotes(p, pageSize), id);
  }

  /** After a successful APPEND that fetched page `p`, every note and key
      whose id the page does not carry is unchanged, and every fetched note
      is stored as fetched with the key `(PrevKey(p), p + 1)`. */
  lemma AppendMergesPage(db: Tables, pageSize: int, fault: Fault, o: Outcome, id: int)
    requires WellKeyed(db)
    requires o == LoadEffect(db, Append, pageSize, fault)
    requires o.result.Success? && o.request.Some?
    ensures var p := o.request.value;
            var response := GetNotes(p, pageSize);
            && (id !in IdsOf(response) ==>
                  && (id in o.db.notes <==> id in db.notes)
                  && (id in db.notes ==> o.db.notes[id] == db.notes[id])
                  && (id in o.db.remoteKeys <==> id in db.remoteKeys)
                  && (id in db.remoteKeys ==> o.db.remoteKeys[id] == db.remoteKeys[id]))
            && (forall j :: 0 <= j < |response| && response[j].id == id ==>
                  && id in o.db.notes && o.db.notes[id] == ToEntity(response[j])
                  && id in o.db.remoteKeys && o.db.remoteKeys[id] == RemoteKey(id, PrevKey(p), Some(p + 1)))
  {
    SuccessIsMerge(db, Append, pageSize, fault, o);
    AppendMergeOfPage(db, o.request.value, pageSize, o.db, id);
  }

  /** A successful load that made a request stored exactly the merge of
      the page it fetched. */
  lemma SuccessIsMerge(db: Tables, loadType: LoadType, pageSize: int, fault: Fault, o: Outcome)
    requires WellKeyed(db)
    requires o == LoadEffect(db, loadType, pageSize, fault)
    requires o.result.Success? && o.request.Some?
    ensures o.db == Merge(db, loadType, o.request.value, GetNotes(o.request.value, pageSize))
  {
    SuccessMergesRequestedPage(db, loadType, pageSize, fault);
  }

  /** Every load keeps both tables on the same ids. */
  lemma LoadKeepsTablesAligned(db: Tables, loadType: LoadType, pageSize: int, fault: Fault)
    requires WellKeyed(db) && TablesAligned(db)
    ensures TablesAligned(LoadEffect(db, loadType, pageSize, fault).db)
  {
    var o := LoadEffect(db, loadType, pageSize, fault);
    if o.db != db {
      var p := o.request.value;
      assert o.db == Merge(db, loadType, p, GetNotes(p, pageSize));
      MergeKeepsAligned(db, loadType, p, GetNotes(p, pageSize));
    }
  }

  /** A merge writes a note and its key for every fetched id, so aligned
      tables stay aligned. */
  lemma MergeKeepsAligned(db: Tables, loadType: LoadType, p: int, response: seq<NoteDto>)
    requires TablesAligned(db)
    ensures TablesAligned(Merge(db, loadType, p, response))
  {
    MergeIds(db, loadType, p, response);
  }

  /** Every load keeps every stored key page-bound: the keys one load
      writes all share `(PrevKey(p), p + 1)` for the fetched page `p >= 1`,
      and an empty page writes no key, so no stored `nextKey` is ever null. */
  lemma LoadKeepsPageBoundKeys(db: Tables, loadType: LoadType, pageSize: int, fault: Fault)
    requires WellKeyed(db) && PageBoundKeys(db.remoteKeys)
    ensures PageBoundKeys(LoadEffect(db, loadType, pageSize, fault).db.remoteKeys)
  {
    var o := LoadEffect(db, loadType, pageSize, fault);
    if o.db != db {
      var p := o.request.value;
      assert p >= 1 by {
        if loadType == Append {
          var last := LastRemoteKey(db.remoteKeys).value;
          assert PageBound(db.remoteKeys[last.noteId]);
        }
      }
      assert o.db == Merge(db, loadType, p, GetNotes(p, pageSize));
      MergeKeepsPageBound(db, loadType, p, GetNotes(p, pageSize));
    }
  }

  /** Merging a page `p >= 1` writes only page-bound keys. */
  lemma MergeKeepsPageBound(db: Tables, loadType: LoadType, p: int, response: seq<NoteDto>)
    requires p >= 1 && PageBoundKeys(db.remoteKeys)
    ensures PageBoundKeys(Merge(db, loadType, p, response).remoteKeys)
  {
    var keys := KeysForPage(response, PrevKey(p), NextKey(p, response == []));
    var base := if loadType == Refresh then map[] else db.remoteKeys;
    assert forall i :: 0 <= i < |keys| ==> PageBound(keys[i]);
    UpsertKeepsRowProperty(base, keys, KeyNoteId, PageBound);
  }

  /** The invariant holds of the empty database and is kept by every load. */
  lemma LoadKeepsSyncInvariant(db: Tables, loadType: LoadType, pageSize: int, fault: Fault)
    requires SyncInvariant(db)
    ensures SyncInvariant(LoadEffect(db, loadType, pageSize, fault).db)
    ensures SyncInvariant(EmptyTables)
  {
    LoadKeepsTablesAligned(db, loadType, pageSize, fault);
    LoadKeepsPageBoundKeys(db, loadType, pageSize, fault);
  }

  /** Under the invariant, and when `getLastRemoteKey` does not throw,
      APPEND short-circuits exactly when `remote_keys` is empty: once a page
      has been stored, every later APPEND calls the API, even after an empty
      page. */
  lemma AppendShortCircuitsOnlyWhenNoKeys(db: Tables, pageSize: int, fault: Fault)
    requires SyncInvariant(db)
    requires fault != ReadFault
    ensures LoadEffect(db, Append, pageSize, fault).request.None? <==> db.remoteKeys == map[]
  {
    if db.remoteKeys != map[] {
      var last := LastRemoteKey(db.remoteKeys).value;
      assert PageBound(db.remoteKeys[last.noteId]);
    }
  }

  /** One call of `load` as the Paging library issues it. */
  datatype Trigger = Trigger(loadType: LoadType, pageSize: int, fault: Fault)

  /** The tables after the loads `triggers`, one after the other. */
  function Run(db: Tables, triggers: seq<Trigger>): (r: Tables)
    requires WellKeyed(db)
    ensures WellKeyed(r)
    decreases |triggers|
  {
    if triggers == [] then db
    else
      var t := triggers[0];
      Run(LoadEffect(db, t.loadType, t.pageSize, t.fault).db, triggers[1..])
  }

  /** Every state reached from the empty database, by any loads with any
      failures, keeps notes and keys on the same ids and has only
      page-bound keys (no null `nextKey`). */
  lemma {:induction false} RunKeepsSyncInvariant(db: Tables, triggers: seq<Trigger>)
    requires SyncInvariant(db)
    ensures SyncInvariant(Run(db, triggers))
    decreases |triggers|
  {
    if triggers != [] {
      var t := triggers[0];
      LoadKeepsSyncInvariant(db, t.loadType, t.pageSize, t.fault);
      RunKeepsSyncInvariant(LoadEffect(db, t.loadType, t.pageSize, t.fault).db, triggers[1..]);
    }
  }
}
