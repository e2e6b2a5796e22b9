/** The local Room store: the `notes` and `remote_keys` tables and the
    seven DAO operations on them. Each table is a map from its primary key
    to its row. */
module NoteDao {
  import opened Entities

  /** Every row of `table` is stored under its own primary key. */
  ghost predicate KeyedBy<R>(table: map<int, R>, key: R -> int)
  {
    forall k :: k in table ==> key(table[k]) == k
  }

  /** The primary keys a batch of rows carries. */
  function KeysOf<R>(batch: seq<R>, key: R -> int): set<int>
  {
    set i | 0 <= i < |batch| :: key(batch[i])
  }

  /** `@Insert(onConflict = OnConflictStrategy.REPLACE)` of `batch`: the rows
      are written in order, each replacing any row with the same key. */
  function Upsert<R>(table: map<int, R>, batch: seq<R>, key: R -> int): (t: map<int, R>)
    ensures t.Keys == table.Keys + KeysOf(batch, key)
    ensures KeyedBy(table, key) ==> KeyedBy(t, key)
    decreases |batch|
  {
    if batch == [] then table
    else
      var last := batch[|batch| - 1];
      assert batch == batch[..|batch| - 1] + [last];
      Upsert(table, batch[..|batch| - 1], key)[key(last) := last]
  }

  /** A row whose key the batch does not carry is left as it was (or
      absent, if it was absent). */
  lemma {:induction false} UpsertUntouched<R>(table: map<int, R>, batch: seq<R>, key: R -> int, k: int)
    requires k !in KeysOf(batch, key)
    ensures k in Upsert(table, batch, key) <==> k in table
    ensures k in table ==> Upsert(table, batch, key)[k] == table[k]
    decreases |batch|
  {
    if batch != [] {
      var front := batch[..|batch| - 1];
      assert KeysOf(front, key) <= KeysOf(batch, key) by {
        forall i | 0 <= i < |front| ensures key(front[i]) in KeysOf(batch, key) {
          assert front[i] == batch[i];
        }
      }
      UpsertUntouched(table, front, key, k);
    }
  }

  /** Last write wins: a key carried by the batch holds the last row of the
      batch with that key. */
  lemma {:induction false} UpsertLastWins<R>(table: map<int, R>, batch: seq<R>, key: R -> int, j: int)
    requires 0 <= j < |batch|
    requires forall j' :: j < j' < |batch| ==> key(batch[j']) != key(batch[j])
    ensures key(batch[j]) in Upsert(table, batch, key)
    ensures Upsert(table, batch, key)[key(batch[j])] == batch[j]
    decreases |batch|
  {
    if j < |batch| - 1 {
      var front := batch[..|batch| - 1];
      assert front[j] == batch[j];
      UpsertLastWins(table, front, key, j);
    }
  }

  /** The rows stored under the batch's keys do not depend on the table the
      batch is written into. */
  lemma {:induction false} UpsertOverridesBase<R>(t1: map<int, R>, t2: map<int, R>, batch: seq<R>, key: R -> int, k: int)
    requires k in KeysOf(batch, key)
    ensures k in Upsert(t1, batch, key) && k in Upsert(t2, batch, key)
    ensures Upsert(t1, batch, key)[k] == Upsert(t2, batch, key)[k]
    decreases |batch|
  {
    var last := batch[|batch| - 1];
    if key(last) != k {
      var front := batch[..|batch| - 1];
      var i :| 0 <= i < |batch| && key(batch[i]) == k;
      assert front[i] == batch[i];
      UpsertOverridesBase(t1, t2, front, key, k);
    }
  }

  /** Writing the same batch twice leaves the same table as writing it once. */
  lemma UpsertIdempotent<R>(table: map<int, R>, batch: seq<R>, key: R -> int)
    ensures Upsert(Upsert(table, batch, key), batch, key) == Upsert(table, batch, key)
  {
    var once := Upsert(table, batch, key);
    var twice := Upsert(once, batch, key);
    forall k | k in twice
      ensures k in once && twice[k] == once[k]
    {
      if k in KeysOf(batch, key) {
        UpsertOverridesBase(once, table, batch, key, k);
      } else {
        UpsertUntouched(once, batch, key, k);
      }
    }
  }

  /** A property that every old row and every batch row has, every row of
      the result has. */
  lemma {:induction false} UpsertKeepsRowProperty<R>(table: map<int, R>, batch: seq<R>, key: R -> int, P: R -> bool)
    requires forall k :: k in table ==> P(table[k])
    requires forall i :: 0 <= i < |batch| ==> P(batch[i])
    ensures forall k :: k in Upsert(table, batch, key) ==> P(Upsert(table, batch, key)[k])
    decreases |batch|
  {
    if batch != [] {
      UpsertKeepsRowProperty(table, batch[..|batch| - 1], key, P);
    }
  }

  /** Ids strictly ascending along `rows`. */
  predicate AscendingIds(rows: seq<NoteEntity>)
  {
    forall i, j :: 0 <= i < j < |rows| ==> rows[i].id < rows[j].id
  }

  /** `pagingSource` (`SELECT * FROM notes ORDER BY id ASC`): every stored
      note exactly once, in strictly ascending id order, whatever order the
      rows were inserted in. */
  function NotesById(notes: map<int, NoteEntity>): (rows: seq<NoteEntity>)
    requires KeyedBy(notes, NoteId)
    ensures AscendingIds(rows)
    ensures forall i :: 0 <= i < |rows| ==> rows[i].id in notes && notes[rows[i].id] == rows[i]
    ensures forall id :: id in notes ==> notes[id] in rows
    decreases |notes|
  {
    if notes == map[] then []
    else
      assert notes.Keys != {};
      var top := MaxOf(notes.Keys);
      var rest := notes - {top};
      assert |rest| < |notes| by {
        assert rest.Keys + {top} == notes.Keys;
      }
      var front := NotesById(rest);
      NotesByIdStep(notes, top, front);
      front + [notes[top]]
  }

  /** Adding the row of the largest id to an ascending listing of the
      other rows lists them all, still ascending. */
  lemma NotesByIdStep(notes: map<int, NoteEntity>, top: int, front: seq<NoteEntity>)
    requires KeyedBy(notes, NoteId)
    requires top in notes && forall id :: id in notes ==> id <= top
    requires AscendingIds(front)
    requires forall i :: 0 <= i < |front| ==> front[i].id in notes - {top} && (notes - {top})[front[i].id] == front[i]
    requires forall id :: id in notes - {top} ==> (notes - {top})[id] in front
    ensures AscendingIds(front + [notes[top]])
    ensures forall i :: 0 <= i < |front + [notes[top]]| ==>
              (front + [notes[top]])[i].id in notes && notes[(front + [notes[top]])[i].id] == (front + [notes[top]])[i]
    ensures forall id :: id in notes ==> notes[id] in front + [notes[top]]
  {
    var row := notes[top];
    var rows := front + [row];
    forall i | 0 <= i < |front|
      ensures front[i].id < row.id
    {
      assert front[i].id in notes && front[i].id != top;
    }
    AppendAscending(front, row);
    forall i | 0 <= i < |rows|
      ensures rows[i].id in notes && notes[rows[i].id] == rows[i]
    {
      if i < |front| {
        assert rows[i] == front[i];
      } else {
        assert rows[i] == row && row.id == top;
      }
    }
    forall id | id in notes
      ensures notes[id] in rows
    {
      if id != top {
        assert id in notes - {top};
      }
    }
  }

  /** A row whose id is above every id of an ascending list can go last. */
  lemma AppendAscending(rows: seq<NoteEntity>, row: NoteEntity)
    requires AscendingIds(rows)
    requires forall i :: 0 <= i < |rows| ==> rows[i].id < row.id
    ensures AscendingIds(rows + [row])
  {
    var r := rows + [row];
    forall i, j | 0 <= i < j < |r|
      ensures r[i].id < r[j].id
    {
      assert r[i] == rows[i];
    }
  }

  /** The contents of both tables. */
  datatype Tables = Tables(notes: map<int, NoteEntity>, remoteKeys: map<int, RemoteKey>)

  /** Both tables are empty, as before the first refresh. */
  const EmptyTables := Tables(map[], map[])

  /** Each table stores its rows under their primary keys. */
  ghost predicate WellKeyed(db: Tables)
  {
    KeyedBy(db.notes, NoteId) && KeyedBy(db.remoteKeys, KeyNoteId)
  }

  /** The largest element of a non-empty set. */
  function MaxOf(s: set<int>): (m: int)
    requires s != {}
    ensures m in s && forall x :: x in s ==> x <= m
  {
    MaxExists(s);
    var m :| m in s && forall x :: x in s ==> x <= m;
    m
  }

  lemma {:induction false} MaxExists(s: set<int>)
    requires s != {}
    ensures exists m :: m in s && forall x :: x in s ==> x <= m
    decreases |s|
  {
    assert exists y :: y in s by {
      if forall y :: y !in s {
        assert false;
      }
    }
    var y :| y in s;
    var rest := s - {y};
    if rest == {} {
      assert s == {y};
    } else {
      MaxExists(rest);
      var m :| m in rest && forall x :: x in rest ==> x <= m;
      var top := if y <= m then m else y;
      forall x | x in s
        ensures x <= top
      {
        if x != y {
          assert x in rest;
        }
      }
      assert top in s;
    }
  }

  /** `getRemoteKeyByNoteId`: the row of `remote_keys` whose `noteId` is
      the one asked for, or null. */
  function RemoteKeyByNoteId(remoteKeys: map<int, RemoteKey>, noteId: int): (r: Option<RemoteKey>)
    requires KeyedBy(remoteKeys, KeyNoteId)
    ensures r.Some? ==> r.value.noteId == noteId && noteId in remoteKeys && remoteKeys[noteId] == r.value
    ensures r.None? ==> forall j :: j in remoteKeys ==> remoteKeys[j].noteId != noteId
  {
    if noteId in remoteKeys then Some(remoteKeys[noteId]) else None
  }

  /** `getLastRemoteKey`: the row of `remote_keys` with the largest `noteId`
      (whatever `notes` holds), or null when the table is empty. */
  function LastRemoteKey(remoteKeys: map<int, RemoteKey>): (r: Option<RemoteKey>)
    requires KeyedBy(remoteKeys, KeyNoteId)
    ensures r.None? <==> remoteKeys == map[]
    ensures r.Some? ==> r.value.noteId in remoteKeys && remoteKeys[r.value.noteId] == r.value
    ensures r.Some? ==> forall j :: j in remoteKeys ==> remoteKeys[j].noteId <= r.value.noteId
  {
    if remoteKeys == map[] then None
    else
      assert remoteKeys.Keys != {};
      Some(remoteKeys[MaxOf(remoteKeys.Keys)])
  }

  /** The Room database seen through `NoteDao`. The write operations are
      methods that change the two tables; the three queries are functions
      that read them, `GetRemoteKeyByNoteId`, `GetLastRemoteKey` and
      `PagingSource`, which evaluate `RemoteKeyByNoteId`, `LastRemoteKey`
      and `NotesById` on the current tables, where their contracts are
      stated and proved. */
  class NoteStore {
    var notes: map<int, NoteEntity>
    var remoteKeys: map<int, RemoteKey>

    ghost predicate Valid()
      reads this
    {
      WellKeyed(Snapshot())
    }

    /** The current contents of both tables, as a value. */
    function Snapshot(): Tables
      reads this
    {
      Tables(notes, remoteKeys)
    }

    /** A freshly created database: both tables empty. */
    constructor ()
      ensures Valid() && Snapshot() == EmptyTables
    {
      notes := map[];
      remoteKeys := map[];
    }

    /** `insertAllNotes`: insert-or-replace every row of `batch` into `notes`,
        in order; `remote_keys` is not touched. */
    method InsertAllNotes(batch: seq<NoteEntity>)
      requires Valid()
      modifies this
      ensures Valid()
      ensures notes == Upsert(old(notes), batch, NoteId)
      ensures remoteKeys == old(remoteKeys)
    {
      var i := 0;
      while i < |batch|
        invariant 0 <= i <= |batch|
        invariant notes == Upsert(old(notes), batch[..i], NoteId)
        invariant remoteKeys == old(remoteKeys)
        invariant Valid()
      {
        var row := batch[i];
        assert batch[..i + 1][..i] == batch[..i];
        assert Upsert(old(notes), batch[..i + 1], NoteId) == notes[row.id := row];
        notes := notes[row.id := row];
        i := i + 1;
      }
      assert batch[..i] == batch;
    }

    /** `insertAllRemoteKeys`: insert-or-replace every row of `batch` into
        `remote_keys`, in order; `notes` is not touched. */
    method InsertAllRemoteKeys(batch: seq<RemoteKey>)
      requires Valid()
      modifies this
      ensures Valid()
      ensures remoteKeys == Upsert(old(remoteKeys), batch, KeyNoteId)
      ensures notes == old(notes)
    {
      var i := 0;
      while i < |batch|
        invariant 0 <= i <= |batch|
        invariant remoteKeys == Upsert(old(remoteKeys), batch[..i], KeyNoteId)
        invariant notes == old(notes)
        invariant Valid()
      {
        var row := batch[i];
        assert batch[..i + 1][..i] == batch[..i];
        assert Upsert(old(remoteKeys), batch[..i + 1], KeyNoteId) == remoteKeys[row.noteId := row];
        remoteKeys := remoteKeys[row.noteId := row];
        i := i + 1;
      }
      assert batch[..i] == batch;
    }

    /** `clearAllNotes`: `DELETE FROM notes`. */
    method ClearAllNotes()
      requires Valid()
      modifies this
      ensures Valid()
      ensures notes == map[] && remoteKeys == old(remoteKeys)
    {
      notes := map[];
    }

    /** `clearAllRemoteKeys`: `DELETE FROM remote_keys`. */
    method ClearAllRemoteKeys()
      requires Valid()
      modifies this
      ensures Valid()
      ensures remoteKeys == map[] && notes == old(notes)
    {
      remoteKeys := map[];
    }

    /** `getRemoteKeyByNoteId`, read from the current state. */
    function GetRemoteKeyByNoteId(noteId: int): Option<RemoteKey>
      reads this
      requires Valid()
    {
      RemoteKeyByNoteId(remoteKeys, noteId)
    }

    /** `getLastRemoteKey`, read from the current state. */
    function GetLastRemoteKey(): Option<RemoteKey>
      reads this
      requires Valid()
    {
      LastRemoteKey(remoteKeys)
    }

    /** `pagingSource`, read from the current state. */
    function PagingSource(): seq<NoteEntity>
      reads this
      requires Valid()
    {
      NotesById(notes)
    }

    /** The all-or-nothing behaviour of the database transaction: a block
        that throws leaves both tables as they were when it began. */
    method RollBack(saved: Tables)
      requires WellKeyed(saved)
      modifies this
      ensures Valid() && Snapshot() == saved
    {
      notes := saved.notes;
      remoteKeys := saved.remoteKeys;
    }
  }
}
