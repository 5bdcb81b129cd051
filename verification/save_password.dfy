/** `SavePassword.invoke`: the blank-value guard in front of the insert. The
    thrown `IllegalArgumentException` is the `Failure` case. */
module SavePassword {
  import opened Wrappers
  import opened Text
  import opened DomainModel
  import opened PasswordMapper
  import opened PasswordDao

  const BlankValueError := "Password value cannot be blank."

  /** Refuses a blank value and leaves the store alone; otherwise stores the
      record as a row, unchanged but for the key the table assigns. */
  function Save(s: Store, p: Password): (r: Result<Store, string>)
    ensures r.Failure? <==> IsBlank(p.value)
    ensures r.Failure? ==> r.error == BlankValueError
    ensures r.Success? ==>
      var id := AssignedId(s, ToEntity(p));
      && ToEntity(p).(id := id) in r.value.rows
      && (forall x :: x in r.value.rows && x.id == id ==> x == ToEntity(p).(id := id))
      && (forall x: PasswordEntity :: x.id != id ==> (x in r.value.rows <==> x in s.rows))
    ensures r.Success? && p.id == 0 ==> |r.value.rows| == |s.rows| + 1
  {
    if IsBlank(p.value) then Failure(BlankValueError)
    else Success(InsertPassword(s, p))
  }

  /** Only the value is checked: folder, entropy, symbols and creation time
      never make a save fail. */
  lemma OnlyValueIsValidated(s: Store, p: Password, entropy: real, symbols: string,
                             folderName: Option<string>, createdAt: int)
    ensures Save(s, p).Success? ==
      Save(s, p.(entropy := entropy, symbols := symbols, folderName := folderName, createdAt := createdAt)).Success?
  {
  }

  /** A saved record reads back, as a domain record, from the list it belongs to. */
  lemma SavedRecordIsListed(s: Store, p: Password)
    requires Save(s, p).Success?
    ensures var r := Save(s, p).value;
      var q := p.(id := AssignedId(s, ToEntity(p)));
      && (p.folderName.Some? && p.folderName.value != "" ==> q in PasswordsByFolder(r, p.folderName.value))
      && (p.folderName == None || p.folderName == Some("") ==> q in PasswordsWithoutFolder(r))
  {
    var r := Save(s, p).value;
    var e := ToEntity(p);
    var y := e.(id := AssignedId(s, e));
    InsertedRowIsListed(s, e);
    assert ToDomain(y) == p.(id := AssignedId(s, e));
    if Filed(e) {
      ToDomainAllHas(ByFolder(r, p.folderName.value), y);
    }
    if Unfiled(e) {
      ToDomainAllHas(UnfiledRows(r), y);
    }
  }
}
