/** The paging sequence the note list goes through with its page size of
    5: one REFRESH, then APPENDs until the fake remote runs dry. */
module PaginationScenario {
  import opened Entities
  import opened NoteDao
  import opened NoteApi
  import opened RemoteMediator

  /** The page size the note list's pager is configured with. */
  const PageSize: int := 5

  /** The page that holds note `id`. */
  function PageOf(id: int): int
  {
    (id - 1) / PageSize + 1
  }

  /** The key a stored note carries: the boundaries of its page. */
  function KeyOf(id: int): RemoteKey
  {
    RemoteKey(id, PrevKey(PageOf(id)), Some(PageOf(id) + 1))
  }

  /** The tables hold exactly the notes `1 .. last`, each as the fake remote
      serves it and with the key of its page (this fixes both tables). */
  ghost predicate HoldsNotesUpTo(db: Tables, last: int)
  {
    && (forall id :: id in db.notes <==> 1 <= id <= last)
    && (forall id :: id in db.remoteKeys <==> 1 <= id <= last)
    && (forall id :: id in db.notes ==> db.notes[id] == ToEntity(FakeNote(id)))
    && (forall id :: id in db.remoteKeys ==> db.remoteKeys[id] == KeyOf(id))
  }

  /** The `j`-th item of page `p` is note `PageSize * (p - 1) + j + 1`, which belongs
      to page `p`. */
  lemma ItemOfPage(p: int, j: int)
    requires 0 <= j < |GetNotes(p, PageSize)|
    ensures GetNotes(p, PageSize)[j] == FakeNote(PageSize * (p - 1) + j + 1)
    ensures PageOf(PageSize * (p - 1) + j + 1) == p
  {
    IdAt(p, PageSize, j);
  }

  /** The states page `p` is merged into in the sequence: any state on
      REFRESH of page 1, the notes of the earlier pages on APPEND. */
  ghost predicate MergesOnto(db: Tables, loadType: LoadType, p: int)
  {
    && 1 <= p <= LastPage
    && (loadType == Refresh || loadType == Append)
    && (loadType == Refresh ==> p == 1)
    && (loadType == Append ==> HoldsNotesUpTo(db, PageSize * (p - 1)))
  }

  /** After the merge, each note of page `p` is stored as fetched, with
      the key of page `p`. */
  lemma FetchedEntry(db: Tables, loadType: LoadType, p: int, id: int)
    requires 1 <= p <= LastPage && PageSize * (p - 1) < id <= PageSize * p
    ensures var m := Merge(db, loadType, p, GetNotes(p, PageSize));
            && id in m.notes && m.notes[id] == ToEntity(FakeNote(id))
            && id in m.remoteKeys && m.remoteKeys[id] == KeyOf(id)
  {
    var response := GetNotes(p, PageSize);
    var j := id - PageSize * (p - 1) - 1;
    ItemOfPage(p, j);
    assert response[j] == FakeNote(id);
    assert KeyOf(id) == RemoteKey(id, PrevKey(p), Some(p + 1));
    forall j' | j < j' < |response|
      ensures response[j'].id != id
    {
      IdAt(p, PageSize, j');
    }
    MergeStoresFetched(db, loadType, p, response, j);
  }

  /** After an APPEND merge, each note of the earlier pages is still stored
      with its key. */
  lemma KeptEntry(db: Tables, p: int, id: int)
    requires MergesOnto(db, Append, p) && 1 <= id <= PageSize * (p - 1)
    ensures var m := Merge(db, Append, p, GetNotes(p, PageSize));
            && id in m.notes && m.notes[id] == ToEntity(FakeNote(id))
            && id in m.remoteKeys && m.remoteKeys[id] == KeyOf(id)
  {
    GetNotesAscending(p, PageSize);
    PageIds(p, PageSize);
    AppendMerge(db, p, GetNotes(p, PageSize), id);
  }

  /** After the merge, both tables hold the ids `1 .. 5p`. */
  lemma MergedIds(db: Tables, loadType: LoadType, p: int, m: Tables)
    requires MergesOnto(db, loadType, p)
    requires m == Merge(db, loadType, p, GetNotes(p, PageSize))
    ensures forall id :: id in m.notes <==> 1 <= id <= PageSize * p
    ensures forall id :: id in m.remoteKeys <==> 1 <= id <= PageSize * p
  {
    var ids := IdsOf(GetNotes(p, PageSize));
    PageIds(p, PageSize);
    MergeIds(db, loadType, p, GetNotes(p, PageSize));
    var before := if loadType == Refresh then EmptyTables else db;
    assert m.notes.Keys == before.notes.Keys + ids;
    assert m.remoteKeys.Keys == before.remoteKeys.Keys + ids;
    forall id
      ensures id in m.notes <==> 1 <= id <= PageSize * p
      ensures id in m.remoteKeys <==> 1 <= id <= PageSize * p
    {
      assert id in ids <==> PageSize * (p - 1) < id <= PageSize * p;
      assert id in before.notes <==> 1 <= id <= PageSize * (p - 1);
      assert id in before.remoteKeys <==> 1 <= id <= PageSize * (p - 1);
    }
  }

  /** Merging page `p` onto the notes of the earlier pages (or, on
      REFRESH, onto anything) leaves the notes `1 .. 5p`. */
  lemma MergeNextPage(db: Tables, loadType: LoadType, p: int, m: Tables)
    requires MergesOnto(db, loadType, p)
    requires m == Merge(db, loadType, p, GetNotes(p, PageSize))
    ensures HoldsNotesUpTo(m, PageSize * p)
  {
    MergedIds(db, loadType, p, m);
    forall id | 1 <= id <= PageSize * p
      ensures m.notes[id] == ToEntity(FakeNote(id)) && m.remoteKeys[id] == KeyOf(id)
    {
      if id > PageSize * (p - 1) {
        FetchedEntry(db, loadType, p, id);
      } else {
        KeptEntry(db, p, id);
      }
    }
  }

  /** REFRESH from any state succeeds without reaching the end and leaves
      notes 1..5, each with the key `(null, 2)`, and nothing else. */
  lemma ScenarioRefresh(db: Tables, o: Outcome)
    requires WellKeyed(db)
    requires o == LoadEffect(db, Refresh, PageSize, NoFault)
    ensures o.result == Success(false) && o.request == Some(1)
    ensures HoldsNotesUpTo(o.db, PageSize)
  {
    assert GetNotes(1, PageSize) != [] by { IdAt(1, PageSize, 0); }
    MergeNextPage(db, Refresh, 1, o.db);
  }

  /** With notes `1 .. 5k` stored, the last remote key is note `5k`'s, whose
      next page is `k + 1`. */
  lemma LastKeyOfPages(db: Tables, k: int)
    requires k >= 1 && HoldsNotesUpTo(db, PageSize * k)
    ensures LastRemoteKey(db.remoteKeys) == Some(RemoteKey(PageSize * k, PrevKey(k), Some(k + 1)))
  {
    var keys := db.remoteKeys;
    assert PageSize * k in keys;
    var r := LastRemoteKey(keys);
    assert keys[PageSize * k].noteId == PageSize * k;
    assert r.value.noteId in keys;
    assert keys[r.value.noteId] == KeyOf(r.value.noteId);
  }

  /** With pages `1 .. p - 1` stored, `2 <= p <= 5`, APPEND asks for page
      `p`, which is not empty, and merges it. */
  lemma AppendFetchesPage(db: Tables, p: int, o: Outcome)
    requires 2 <= p <= LastPage
    requires WellKeyed(db) && HoldsNotesUpTo(db, PageSize * (p - 1))
    requires o == LoadEffect(db, Append, PageSize, NoFault)
    ensures o.result == Success(false) && o.request == Some(p)
    ensures o.db == Merge(db, Append, p, GetNotes(p, PageSize))
  {
    var response := GetNotes(p, PageSize);
    LastKeyOfPages(db, p - 1);
    assert PageToLoad(Append, LastRemoteKey(db.remoteKeys)) == Some(p);
    assert response != [] by { IdAt(p, PageSize, 0); }
    assert o == Outcome(Success(false), Some(p), Merge(db, Append, p, response));
  }

  /** With pages `1 .. p - 1` stored, `2 <= p <= 5`, APPEND fetches page
      `p`, does not reach the end, and adds notes `5p - 4 .. 5p` with the
      keys `(p - 1, p + 1)`. */
  lemma ScenarioAppend(db: Tables, p: int, o: Outcome)
    requires 2 <= p <= LastPage
    requires WellKeyed(db) && HoldsNotesUpTo(db, PageSize * (p - 1))
    requires o == LoadEffect(db, Append, PageSize, NoFault)
    ensures o.result == Success(false) && o.request == Some(p)
    ensures HoldsNotesUpTo(o.db, PageSize * p)
  {
    AppendFetchesPage(db, p, o);
    MergeNextPage(db, Append, p, o.db);
  }

  /** Once all five pages are stored, APPEND fetches page 6, receives an
      empty page, reports the end and changes nothing; since the state is
      unchanged, every further APPEND fetches page 6 again. */
  lemma ScenarioExhausted(db: Tables)
    requires WellKeyed(db) && HoldsNotesUpTo(db, PageSize * LastPage)
    ensures LoadEffect(db, Append, PageSize, NoFault) == Outcome(Success(true), Some(LastPage + 1), db)
  {
    LastKeyOfPages(db, LastPage);
    assert Merge(db, Append, LastPage + 1, []) == db;
  }

  /** `count` APPEND calls with page size `PageSize` and no failure. */
  function Appends(count: nat): (ts: seq<Trigger>)
    ensures |ts| == count
    ensures forall i :: 0 <= i < count ==> ts[i] == Trigger(Append, PageSize, NoFault)
  {
    seq(count, _ => Trigger(Append, PageSize, NoFault))
  }

  /** Running one more trigger is one more load on the state reached. */
  lemma {:induction false} RunSnoc(db: Tables, ts: seq<Trigger>, t: Trigger)
    requires WellKeyed(db)
    ensures Run(db, ts + [t]) == LoadEffect(Run(db, ts), t.loadType, t.pageSize, t.fault).db
    decreases |ts|
  {
    if ts != [] {
      var next := LoadEffect(db, ts[0].loadType, ts[0].pageSize, ts[0].fault).db;
      assert (ts + [t])[1..] == ts[1..] + [t];
      RunSnoc(next, ts[1..], t);
    }
  }

  /** From any state, REFRESH followed by `count` APPENDs leaves the notes
      of pages `1 .. min(count + 1, 5)` stored: each APPEND adds the next
      page up to the fifth, and every later one changes nothing. */
  lemma {:induction false} ScenarioRun(db: Tables, count: nat)
    requires WellKeyed(db)
    ensures HoldsNotesUpTo(Run(db, [Trigger(Refresh, PageSize, NoFault)] + Appends(count)),
                           PageSize * (if count < LastPage then count + 1 else LastPage))
    decreases count
  {
    var refresh := Trigger(Refresh, PageSize, NoFault);
    var append := Trigger(Append, PageSize, NoFault);
    if count == 0 {
      ScenarioRefresh(db, LoadEffect(db, Refresh, PageSize, NoFault));
      assert [refresh] + Appends(0) == [refresh];
      assert Run(db, [refresh]) == Run(LoadEffect(db, Refresh, PageSize, NoFault).db, []);
    } else {
      var before := Run(db, [refresh] + Appends(count - 1));
      ScenarioRun(db, count - 1);
      assert [refresh] + Appends(count) == ([refresh] + Appends(count - 1)) + [append];
      RunSnoc(db, [refresh] + Appends(count - 1), append);
      AppendStep(before, if count - 1 < LastPage then count else LastPage);
    }
  }

  /** One APPEND on top of the first `k` pages: it adds page `k + 1` while
      there is one, and changes nothing once all five are stored. */
  lemma AppendStep(db: Tables, k: int)
    requires 1 <= k <= LastPage && HoldsNotesUpTo(db, PageSize * k)
    ensures HoldsNotesUpTo(LoadEffect(db, Append, PageSize, NoFault).db,
                           PageSize * (if k < LastPage then k + 1 else LastPage))
  {
    if k < LastPage {
      assert PageSize * k == PageSize * (k + 1 - 1);
      ScenarioAppend(db, k + 1, LoadEffect(db, Append, PageSize, NoFault));
    } else {
      ScenarioExhausted(db);
    }
  }
}
