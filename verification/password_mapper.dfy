/** The Room row type and its conversion to and from the domain record. */
module PasswordMapper {
  import opened Wrappers
  import opened DomainModel

  /** A row of the `passwords` table. `id` is the auto-generated primary key:
      0 asks the store to assign one. */
  datatype PasswordEntity = PasswordEntity(
    id: int,
    value: string,
    entropy: real,
    symbols: string,
    folderName: Option<string>,
    createdAt: int)

  /** `PasswordEntity.toDomain()`: every column goes to the field of the same
      name; the key and a missing folder are carried over as they are. */
  function ToDomain(e: PasswordEntity): (p: Password)
    ensures p.id == e.id && p.folderName == e.folderName && p.createdAt == e.createdAt
    ensures p.value == e.value && p.entropy == e.entropy && p.symbols == e.symbols
  {
    Password(e.id, e.value, e.entropy, e.symbols, e.folderName, e.createdAt)
  }

  /** `Password.toEntity()`: nothing is lost, the record converts back. */
  function ToEntity(p: Password): (e: PasswordEntity)
    ensures ToDomain(e) == p
  {
    PasswordEntity(p.id, p.value, p.entropy, p.symbols, p.folderName, p.createdAt)
  }

  /** Converting a record to a row and back gives the record. */
  lemma DomainRoundTrip(p: Password)
    ensures ToDomain(ToEntity(p)) == p
  {
  }

  /** Converting a row to a record and back gives the row. */
  lemma EntityRoundTrip(e: PasswordEntity)
    ensures ToEntity(ToDomain(e)) == e
  {
  }

  /** The id (so also the unnumbered marker 0) and an absent folder are
      carried over as they are: no folder is turned into "". */
  lemma MapperKeepsIdAndFolder(p: Password)
    ensures ToEntity(p).id == p.id
    ensures p.folderName == None ==> ToEntity(p).folderName == None
    ensures p.folderName == Some("") ==> ToEntity(p).folderName == Some("")
  {
  }
}
