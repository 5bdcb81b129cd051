/** `GeneratePasswordViewModel`: the generator screen's state and the effect of
    each event on it and on the store. Every handler, coroutine included, is
    one atomic step. The import's explicit reload of the folder list is part
    of the import's step; after a save, the new list the screen collects
    arrives as a separate `FoldersLoaded` step. */
module GenerateViewModel {
  import opened Wrappers
  import opened Text
  import opened DomainModel
  import opened GeneratePassword
  import opened ImportPasswords
  import opened PasswordMapper
  import opened PasswordDao
  import opened SavePassword

  const NothingToSave := "Нет пароля для сохранения или пароль содержит ошибку."
  const ErrorMarker := "Ошибка"
  const Saved := "Пароль сохранен"
  const SaveFailedPrefix := "Ошибка сохранения: "

  /** The import report shown to the user. */
  datatype ImportResultMessage = ImportResultMessage(message: string, isError: bool)

  /** `GeneratePasswordUiState`. */
  datatype UiState = UiState(
    options: PasswordGenerationSettings,
    generatedPasswordValue: string,
    entropyValue: real,
    charsetSizeForInfo: int,
    folderNameInput: string,
    existingFolders: seq<string>,
    selectedFolder: Option<string>,
    isLoadingFolders: bool,
    isGenerating: bool,
    isSaving: bool,
    saveMessage: Option<string>,
    importResultMessage: Option<ImportResultMessage>,
    isImporting: bool)

  /** The state a new screen starts from. */
  const InitialState := UiState(DefaultSettings, "", 0.0, 0, "", [], None, true, false, false, None, None, false)

  /** The screen's state together with the store its handlers write to. */
  datatype Screen = Screen(ui: UiState, store: Store)

  /** The chosen folder always matches the text field. */
  predicate SelectionMatchesInput(s: UiState) {
    s.selectedFolder.Some? ==> s.folderNameInput == s.selectedFolder.value
  }

  /** `UpdateOptions`: the settings are replaced and nothing else moves. */
  function UpdateOptions(s: UiState, options: PasswordGenerationSettings): (r: UiState)
    ensures r.options == options
    ensures r.(options := s.options) == s
  {
    s.(options := options)
  }

  /** `handleFolderNameChange`: the typed name becomes the input, and it is
      the selection exactly when it names a known folder. */
  function FolderNameChanged(s: UiState, name: string): (r: UiState)
    ensures r.folderNameInput == name
    ensures r.selectedFolder == Some(name) <==> name in s.existingFolders
    ensures r.selectedFolder.None? <==> name !in s.existingFolders
    ensures r.(folderNameInput := s.folderNameInput, selectedFolder := s.selectedFolder) == s
    ensures SelectionMatchesInput(r)
  {
    s.(folderNameInput := name, selectedFolder := if name in s.existingFolders then Some(name) else None)
  }

  /** `handleFolderSelected`: the selection becomes the argument; the input
      follows a chosen folder and is left alone when the choice is cleared. */
  function FolderSelected(s: UiState, folder: Option<string>): (r: UiState)
    ensures r.selectedFolder == folder
    ensures folder.Some? ==> r.folderNameInput == folder.value
    ensures folder.None? ==> r.folderNameInput == s.folderNameInput
    ensures r.(folderNameInput := s.folderNameInput, selectedFolder := s.selectedFolder) == s
    ensures SelectionMatchesInput(r)
  {
    s.(selectedFolder := folder, folderNameInput := folder.GetOr(s.folderNameInput))
  }

  /** `handleGeneratePassword`: the generator's result for the current
      settings is shown. Its `catch` branches are not modelled: the generator
      never throws. */
  function GenerateNewPassword(s: UiState, random: nat -> nat, log2: int -> real): (r: UiState)
    ensures var cs := BuildCharset(s.options);
      && (cs == [] || s.options.length <= 0 ==> r.generatedPasswordValue == "" && r.charsetSizeForInfo == 0)
      && (cs != [] && s.options.length > 0 ==>
            && |r.generatedPasswordValue| == s.options.length
            && r.charsetSizeForInfo == |cs|
            && forall i :: 0 <= i < |r.generatedPasswordValue| ==> r.generatedPasswordValue[i] in cs)
    ensures r.entropyValue == CalculateEntropy(r.generatedPasswordValue, r.charsetSizeForInfo, log2)
    ensures !r.isGenerating
    ensures r.(generatedPasswordValue := s.generatedPasswordValue, entropyValue := s.entropyValue,
               charsetSizeForInfo := s.charsetSizeForInfo, isGenerating := s.isGenerating) == s
  {
    var g := Generate(s.options, random, log2);
    s.(generatedPasswordValue := g.value, entropyValue := g.entropy, charsetSizeForInfo := g.charsetSize, isGenerating := false)
  }

  /** The save guard: nothing generated, or an error text in place of a password. */
  predicate NothingToStore(s: UiState) {
    s.generatedPasswordValue == "" || StartsWith(s.generatedPasswordValue, ErrorMarker)
  }

  /** The folder a save goes to: the selection, else the trimmed input when
      that is not empty, else none. */
  function SaveFolder(s: UiState): (f: Option<string>)
    ensures s.selectedFolder.Some? ==> f == s.selectedFolder
    ensures s.selectedFolder.None? && IsBlank(s.folderNameInput) ==> f.None?
    ensures s.selectedFolder.None? && !IsBlank(s.folderNameInput) ==> f == Some(Trim(s.folderNameInput)) && !IsBlank(f.value)
  {
    if s.selectedFolder.Some? then s.selectedFolder
    else
      var t := Trim(s.folderNameInput);
      if t != "" then Some(t) else None
  }

  /** The record a save stores; `now` is the clock reading at the save. It is
      unnumbered, so the table assigns its key; it carries the password and
      entropy on screen, the tag of the settings in force and the save folder. */
  function RecordToSave(s: UiState, now: int): (p: Password)
    ensures p.id == 0 && p.createdAt == now
    ensures p.value == s.generatedPasswordValue && p.entropy == s.entropyValue
    ensures p.symbols == ToSymbolsString(s.options)
    ensures p.folderName == SaveFolder(s)
    ensures p.folderName.Some? ==> p.folderName == s.selectedFolder || p.folderName == Some(Trim(s.folderNameInput))
    ensures p.folderName.Some? && s.selectedFolder.None? ==> !IsBlank(p.folderName.value)
  {
    Password(0, s.generatedPasswordValue, s.entropyValue, ToSymbolsString(s.options), SaveFolder(s), now)
  }

  function SavedMessage(folder: Option<string>): string {
    Saved + (if folder.Some? then " в '" + folder.value + "'" else "")
  }

  /** `handleSavePassword`. The guard only sets the message. Otherwise the
      record is passed to `SavePassword`: on success the row is stored and the
      generated password and folder fields are cleared; on failure the store
      is untouched and the error is reported. */
  function SaveGeneratedPassword(sc: Screen, now: int): (r: Screen)
    ensures NothingToStore(sc.ui) ==> r == Screen(sc.ui.(saveMessage := Some(NothingToSave)), sc.store)
    ensures !NothingToStore(sc.ui) && IsBlank(sc.ui.generatedPasswordValue) ==>
      && r.store == sc.store
      && r.ui == sc.ui.(isSaving := false, saveMessage := Some(SaveFailedPrefix + BlankValueError))
    ensures !NothingToStore(sc.ui) && !IsBlank(sc.ui.generatedPasswordValue) ==>
      var e := ToEntity(RecordToSave(sc.ui, now));
      var id := AssignedId(sc.store, e);
      && e.(id := id) in r.store.rows
      && e.value == sc.ui.generatedPasswordValue && e.entropy == sc.ui.entropyValue
      && e.symbols == ToSymbolsString(sc.ui.options) && e.folderName == SaveFolder(sc.ui) && e.createdAt == now
      && (forall x: PasswordEntity :: x.id != id ==> (x in r.store.rows <==> x in sc.store.rows))
      && |r.store.rows| == |sc.store.rows| + 1
      && r.ui == sc.ui.(generatedPasswordValue := "", entropyValue := 0.0, charsetSizeForInfo := 0,
                        folderNameInput := "", selectedFolder := None, isSaving := false,
                        saveMessage := Some(SavedMessage(SaveFolder(sc.ui))))
  {
    var s := sc.ui;
    if NothingToStore(s) then
      Screen(s.(saveMessage := Some(NothingToSave)), sc.store)
    else
      var folder := SaveFolder(s);
      match Save(sc.store, RecordToSave(s, now))
      case Success(store) =>
        Screen(s.(isSaving := false, saveMessage := Some(SavedMessage(folder)), generatedPasswordValue := "",
                  entropyValue := 0.0, charsetSizeForInfo := 0, folderNameInput := "", selectedFolder := None),
               store)
      case Failure(message) =>
        Screen(s.(isSaving := false, saveMessage := Some(SaveFailedPrefix + message)), sc.store)
  }

  /** The import report: the messages one per line, flagged as an error only
      when nothing was imported and something failed. */
  function Report(result: ImportResult): (m: ImportResultMessage)
    ensures m.isError <==> result.errorCount > 0 && result.successCount == 0
    ensures m.message == Join(result.messages, "\n")
  {
    ImportResultMessage(Join(result.messages, "\n"), result.errorCount > 0 && result.successCount == 0)
  }

  /** `importPasswordsFromFile`: the importer runs, its accepted records are
      inserted in order, the report is shown, and the folder list is reloaded
      when rows were imported or the file named a folder. The view model's own
      `catch` branches are not modelled: the importer catches everything. */
  function ImportFileSelected(sc: Screen, source: ImportSource, fileName: Option<string>,
                              parse: string -> Option<real>, clock: nat -> int): (r: Screen)
    ensures var o := Import(source, fileName, parse, clock);
      && r.ui.importResultMessage == Some(Report(o.result))
      && !r.ui.isImporting
      && |r.store.rows| == |sc.store.rows| + o.result.successCount
      && r.store.rows[..|sc.store.rows|] == sc.store.rows
      && RowsOf(o.inserted, r.store.rows[|sc.store.rows|..])
      && (o.result.successCount > 0 || o.result.importedToFolderName.Some? ==>
            r.ui.existingFolders == Folders(r.store) && !r.ui.isLoadingFolders)
      && (o.result.successCount == 0 && o.result.importedToFolderName.None? ==>
            r.ui.existingFolders == sc.ui.existingFolders && r.ui.isLoadingFolders == sc.ui.isLoadingFolders)
    ensures UniqueIds(sc.store.rows) ==> UniqueIds(r.store.rows)
    ensures r.ui.(importResultMessage := sc.ui.importResultMessage, isImporting := sc.ui.isImporting,
                  existingFolders := sc.ui.existingFolders, isLoadingFolders := sc.ui.isLoadingFolders) == sc.ui
  {
    var o := Import(source, fileName, parse, clock);
    assert Unnumbered(o.inserted);
    var store := InsertAll(sc.store, o.inserted);
    InsertAllStoresEach(sc.store, o.inserted);
    var ui := sc.ui.(isImporting := false, importResultMessage := Some(Report(o.result)));
    if o.result.successCount > 0 || o.result.importedToFolderName.Some? then
      Screen(ui.(existingFolders := Folders(store), isLoadingFolders := false), store)
    else
      Screen(ui, store)
  }

  /** The folder list arrived. */
  function FoldersLoaded(s: UiState, folders: seq<string>): (r: UiState)
    ensures r.existingFolders == folders && !r.isLoadingFolders
    ensures r.(existingFolders := s.existingFolders, isLoadingFolders := s.isLoadingFolders) == s
  {
    s.(existingFolders := folders, isLoadingFolders := false)
  }

  /** Loading the folder list failed: only the loading flag drops. */
  function FoldersFailed(s: UiState): (r: UiState)
    ensures !r.isLoadingFolders && r.(isLoadingFolders := s.isLoadingFolders) == s
  {
    s.(isLoadingFolders := false)
  }

  /** `ClearSaveMessage` and `ClearImportResult`. */
  function ClearSaveMessage(s: UiState): (r: UiState)
    ensures r.saveMessage.None? && r.(saveMessage := s.saveMessage) == s
  {
    s.(saveMessage := None)
  }

  function ClearImportResult(s: UiState): (r: UiState)
    ensures r.importResultMessage.None? && r.(importResultMessage := s.importResultMessage) == s
  {
    s.(importResultMessage := None)
  }

  /** Every handler keeps the chosen folder in the text field. */
  lemma SelectionMatchesInputKept(s: UiState, options: PasswordGenerationSettings, random: nat -> nat,
                                  log2: int -> real, folders: seq<string>)
    requires SelectionMatchesInput(s)
    ensures SelectionMatchesInput(UpdateOptions(s, options))
    ensures SelectionMatchesInput(GenerateNewPassword(s, random, log2))
    ensures SelectionMatchesInput(FoldersLoaded(s, folders))
    ensures SelectionMatchesInput(FoldersFailed(s))
    ensures SelectionMatchesInput(ClearSaveMessage(s)) && SelectionMatchesInput(ClearImportResult(s))
  {
  }

  lemma SelectionMatchesInputKeptBySave(sc: Screen, now: int)
    requires SelectionMatchesInput(sc.ui)
    ensures SelectionMatchesInput(SaveGeneratedPassword(sc, now).ui)
  {
  }

  lemma SelectionMatchesInputKeptByImport(sc: Screen, source: ImportSource, fileName: Option<string>,
                                          parse: string -> Option<real>, clock: nat -> int)
    requires SelectionMatchesInput(sc.ui)
    ensures SelectionMatchesInput(ImportFileSelected(sc, source, fileName, parse, clock).ui)
  {
    var r := ImportFileSelected(sc, source, fileName, parse, clock);
    assert r.ui.selectedFolder == sc.ui.selectedFolder && r.ui.folderNameInput == sc.ui.folderNameInput;
  }

  /** A folder that was picked from the list is saved to under that very name,
      untrimmed. */
  lemma SelectedFolderIsUsedAsIs(s: UiState, folder: string)
    ensures SaveFolder(FolderSelected(s, Some(folder))) == Some(folder)
    ensures folder in s.existingFolders ==> SaveFolder(FolderNameChanged(s, folder)) == Some(folder)
  {
  }

  /** A typed name that is not a known folder is saved to trimmed, and a
      blank one means no folder. */
  lemma TypedFolderIsTrimmed(s: UiState, name: string)
    requires name !in s.existingFolders
    ensures SaveFolder(FolderNameChanged(s, name)) == (if IsBlank(name) then None else Some(Trim(name)))
  {
  }

  /** The class tag is taken from the settings at save time: changing the
      settings after generating relabels the saved password, whose characters
      were still drawn from the old alphabet. */
  lemma SymbolsFollowSettingsAtSaveTime(sc: Screen, later: PasswordGenerationSettings,
                                        random: nat -> nat, log2: int -> real, now: int)
    requires BuildCharset(sc.ui.options) != [] && sc.ui.options.length > 0
    ensures var generated := GenerateNewPassword(sc.ui, random, log2);
      var r := SaveGeneratedPassword(Screen(UpdateOptions(generated, later), sc.store), now);
      var e := ToEntity(RecordToSave(UpdateOptions(generated, later), now));
      && e.(id := AssignedId(sc.store, e)) in r.store.rows
      && e.symbols == ToSymbolsString(later)
      && forall i :: 0 <= i < |e.value| ==> e.value[i] in BuildCharset(sc.ui.options)
  {
    var generated := GenerateNewPassword(sc.ui, random, log2);
    assert generated.generatedPasswordValue == Generate(sc.ui.options, random, log2).value;
    GeneratedIsVisible(sc.ui.options, random, log2);
    var u := UpdateOptions(generated, later);
    assert u.generatedPasswordValue[0] != ErrorMarker[0];
    assert !NothingToStore(u);
  }

  /** After generating, the save guard refuses exactly when the settings
      leave nothing to generate: an empty alphabet or a non-positive length. */
  lemma GuardAfterGenerate(s: UiState, random: nat -> nat, log2: int -> real)
    ensures NothingToStore(GenerateNewPassword(s, random, log2)) <==>
            BuildCharset(s.options) == [] || s.options.length <= 0
  {
    var generated := GenerateNewPassword(s, random, log2);
    if BuildCharset(s.options) != [] && s.options.length > 0 {
      assert generated.generatedPasswordValue == Generate(s.options, random, log2).value;
      GeneratedIsVisible(s.options, random, log2);
      assert generated.generatedPasswordValue[0] != ErrorMarker[0];
    }
  }

  /** A freshly generated password always passes the guard and is stored. */
  lemma GeneratedPasswordIsStored(sc: Screen, random: nat -> nat, log2: int -> real, now: int)
    requires BuildCharset(sc.ui.options) != [] && sc.ui.options.length > 0
    ensures var generated := GenerateNewPassword(sc.ui, random, log2);
      |SaveGeneratedPassword(Screen(generated, sc.store), now).store.rows| == |sc.store.rows| + 1
  {
    var generated := GenerateNewPassword(sc.ui, random, log2);
    assert generated.generatedPasswordValue == Generate(sc.ui.options, random, log2).value;
    GeneratedIsVisible(sc.ui.options, random, log2);
    assert generated.generatedPasswordValue[0] != ErrorMarker[0];
    assert !NothingToStore(generated);
  }

  /** An import flagged as an error stored nothing. */
  lemma ErrorReportStoresNothing(sc: Screen, source: ImportSource, fileName: Option<string>,
                                 parse: string -> Option<real>, clock: nat -> int)
    requires ImportFileSelected(sc, source, fileName, parse, clock).ui.importResultMessage.value.isError
    ensures ImportFileSelected(sc, source, fileName, parse, clock).store == sc.store
  {
    var o := Import(source, fileName, parse, clock);
    assert o.inserted == [];
  }

  /** After an import that stored rows into a named folder, the folder list
      offers that folder. */
  lemma {:induction false} ImportedFolderIsOffered(sc: Screen, source: ImportSource, fileName: Option<string>,
                                                   parse: string -> Option<real>, clock: nat -> int)
    requires Import(source, fileName, parse, clock).result.successCount > 0
    requires FolderNameFromFile(fileName).Some?
    ensures FolderNameFromFile(fileName).value in ImportFileSelected(sc, source, fileName, parse, clock).ui.existingFolders
  {
    var o := Import(source, fileName, parse, clock);
    var r := ImportFileSelected(sc, source, fileName, parse, clock);
    var f := FolderNameFromFile(fileName).value;
    var store := InsertAll(sc.store, o.inserted);
    assert r.store == store;
    assert Unnumbered(o.inserted);
    InsertAllStoresEach(sc.store, o.inserted);
    RowsOfAt(o.inserted, store.rows[|sc.store.rows|..], 0);
    var y := store.rows[|sc.store.rows|];
    assert y == store.rows[|sc.store.rows|..][0];
    assert y in store.rows;
    assert f != "";
    assert InFolder(y, f);
  }

  /** A file that cannot be opened is reported as an error and changes nothing. */
  lemma UnopenedFileIsAnError(sc: Screen, fileName: Option<string>, parse: string -> Option<real>, clock: nat -> int)
    ensures var r := ImportFileSelected(sc, Unopened, fileName, parse, clock);
      && r.ui.importResultMessage == Some(ImportResultMessage(SummaryFailed + "\n" + MsgCannotOpen, true))
      && r.store == sc.store
  {
    var o := Import(Unopened, fileName, parse, clock);
    assert o.result.messages == [SummaryFailed, MsgCannotOpen];
    assert Join(o.result.messages, "\n") == SummaryFailed + "\n" + MsgCannotOpen;
  }
}
