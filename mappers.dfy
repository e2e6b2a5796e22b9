/** The mapping from a stored note row to the domain model. */
module Mappers {
  import opened Entities

  /** `NoteEntity.toDomainModel()`: a field-for-field copy. */
  function ToDomainModel(e: NoteEntity): (n: Note)
    ensures n.id == e.id
    ensures n.title == e.title
    ensures n.content == e.content
  {
    Note(e.id, e.title, e.content)
  }

  /** No information is lost: distinct rows map to distinct notes. */
  lemma ToDomainModelInjective(a: NoteEntity, b: NoteEntity)
    requires ToDomainModel(a) == ToDomainModel(b)
    ensures a == b
  {
  }
}
