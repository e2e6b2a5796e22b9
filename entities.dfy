/** The records that flow between the fake remote API, the local Room
    database and the UI: the network DTO, the two table rows, and the
    domain-facing note. Kotlin's `Long` and `Int` are modelled as unbounded
    `int`; a nullable Kotlin value `T?` is an `Option<T>`. */
module Entities {

  /** Kotlin's nullable type `T?`: `None` stands for `null`. */
  datatype Option<+T> = None | Some(value: T)

  /** A row of the `notes` table; `id` is the primary key. */
  datatype NoteEntity = NoteEntity(id: int, title: string, content: string)

  /** A row of the `remote_keys` table: the remote page boundaries recorded
      for the note `noteId`, which is the primary key. There is no foreign
      key to `notes`. */
  datatype RemoteKey = RemoteKey(noteId: int, prevKey: Option<int>, nextKey: Option<int>)

  /** One note as the remote API returns it. */
  datatype NoteDto = NoteDto(id: int, title: string, content: string)

  /** The domain-facing note handed to the UI. */
  datatype Note = Note(id: int, title: string, content: string)

  /** The primary key of a `notes` row. */
  function NoteId(e: NoteEntity): int { e.id }

  /** The primary key of a `remote_keys` row. */
  function KeyNoteId(k: RemoteKey): int { k.noteId }
}
