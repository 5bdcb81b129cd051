/** `PasswordsViewModel`: the vault screen's state, the folder expand/collapse
    logic, deletion, and export. Each handler is one atomic step; a flow
    emission (a new folder list, a folder's contents) is a step of its own. */
module PasswordsViewModel {
  import opened Wrappers
  import opened Text
  import opened DomainModel
  import opened PasswordMapper
  import opened PasswordDao
  import opened CsvExport

  const NothingToExport := "Нет паролей для экспорта."
  const ExportDone := "Пароли успешно экспортированы!"
  const ExportIoErrorPrefix := "Ошибка экспорта: "
  const ExportOtherErrorPrefix := "Непредвиденная ошибка экспорта: "
  const LoadErrorPrefix := "Ошибка загрузки данных: "
  const CsvMimeType := "text/csv"
  const UnfiledFileName := "passwords_unfiled.csv"

  /** `PasswordsUiState`. */
  datatype UiState = UiState(
    isLoadingInitialData: bool,
    folders: seq<string>,
    passwordsWithoutFolder: seq<Password>,
    expandedFolderName: Option<string>,
    passwordsInExpandedFolder: seq<Password>,
    isLoadingFolderContent: bool,
    error: Option<string>,
    folderError: Option<string>,
    deleteError: Option<string>,
    isExporting: bool,
    exportMessage: Option<string>,
    folderToDelete: Option<string>)

  /** The state a new screen starts from. */
  const InitialState := UiState(true, [], [], None, [], false, None, None, None, false, None, None)

  /** A collapsed folder shows no contents and loads nothing. */
  predicate CollapsedIsEmpty(s: UiState) {
    s.expandedFolderName.None? ==> s.passwordsInExpandedFolder == [] && !s.isLoadingFolderContent
  }

  /** `handleFolderClicked`: clicking the open folder closes it; clicking any
      other opens it, empty and loading until its contents arrive. */
  function FolderClicked(s: UiState, name: string): (r: UiState)
    ensures s.expandedFolderName == Some(name) ==> r.expandedFolderName.None? && !r.isLoadingFolderContent
    ensures s.expandedFolderName != Some(name) ==> r.expandedFolderName == Some(name) && r.isLoadingFolderContent
    ensures r.passwordsInExpandedFolder == [] && r.folderError.None?
    ensures r.(expandedFolderName := s.expandedFolderName, passwordsInExpandedFolder := s.passwordsInExpandedFolder,
               isLoadingFolderContent := s.isLoadingFolderContent, folderError := s.folderError) == s
    ensures CollapsedIsEmpty(r)
  {
    if s.expandedFolderName == Some(name) then
      s.(expandedFolderName := None, passwordsInExpandedFolder := [], isLoadingFolderContent := false, folderError := None)
    else
      s.(expandedFolderName := Some(name), isLoadingFolderContent := true, passwordsInExpandedFolder := [], folderError := None)
  }

  /** The contents of folder `name` arrived; they are shown only if that
      folder is still the open one. */
  function FolderContentArrived(s: UiState, name: string, passwords: seq<Password>): (r: UiState)
    ensures s.expandedFolderName == Some(name) ==>
      r.passwordsInExpandedFolder == passwords && !r.isLoadingFolderContent
      && r.(passwordsInExpandedFolder := s.passwordsInExpandedFolder, isLoadingFolderContent := s.isLoadingFolderContent) == s
    ensures s.expandedFolderName != Some(name) ==> r == s
  {
    if s.expandedFolderName == Some(name) then
      s.(passwordsInExpandedFolder := passwords, isLoadingFolderContent := false)
    else s
  }

  function FolderLoadErrorMessage(name: string, message: string): string {
    "Ошибка загрузки '" + name + "': " + message
  }

  /** Loading the contents of folder `name` failed; reported only if that
      folder is still the open one. */
  function FolderContentFailed(s: UiState, name: string, message: string): (r: UiState)
    ensures s.expandedFolderName == Some(name) ==>
      && !r.isLoadingFolderContent && r.folderError == Some(FolderLoadErrorMessage(name, message))
      && r.(isLoadingFolderContent := s.isLoadingFolderContent, folderError := s.folderError) == s
    ensures s.expandedFolderName != Some(name) ==> r == s
  {
    if s.expandedFolderName == Some(name) then
      s.(isLoadingFolderContent := false, folderError := Some(FolderLoadErrorMessage(name, message)))
    else s
  }

  /** `loadInitialData`, on each new pair of folder list and unfiled list. An
      open folder that is no longer listed is closed and emptied; a listed one
      stays open with its contents and loading flag. */
  function ListsArrived(s: UiState, folders: seq<string>, unfiled: seq<Password>): (r: UiState)
    ensures r.folders == folders && r.passwordsWithoutFolder == unfiled
    ensures !r.isLoadingInitialData && r.error.None?
    ensures s.expandedFolderName.Some? && s.expandedFolderName.value !in folders ==>
      r.expandedFolderName.None? && r.passwordsInExpandedFolder == [] && !r.isLoadingFolderContent
    ensures s.expandedFolderName.None? || s.expandedFolderName.value in folders ==>
      && r.expandedFolderName == s.expandedFolderName
      && r.isLoadingFolderContent == s.isLoadingFolderContent
      && (s.expandedFolderName.Some? ==> r.passwordsInExpandedFolder == s.passwordsInExpandedFolder)
    ensures r.expandedFolderName.Some? ==> r.expandedFolderName.value in folders
    ensures r.expandedFolderName.None? ==> r.passwordsInExpandedFolder == []
    ensures r.(isLoadingInitialData := s.isLoadingInitialData, folders := s.folders,
               passwordsWithoutFolder := s.passwordsWithoutFolder, expandedFolderName := s.expandedFolderName,
               passwordsInExpandedFolder := s.passwordsInExpandedFolder,
               isLoadingFolderContent := s.isLoadingFolderContent, error := s.error) == s
  {
    var current := s.expandedFolderName;
    var expanded := if current.Some? && current.value !in folders then None else current;
    var contents := if expanded.None? then [] else if expanded == current then s.passwordsInExpandedFolder else [];
    s.(isLoadingInitialData := false, folders := folders, passwordsWithoutFolder := unfiled,
       expandedFolderName := expanded, passwordsInExpandedFolder := contents,
       isLoadingFolderContent := if expanded == current then s.isLoadingFolderContent else false,
       error := None)
  }

  /** The combined list flow failed. */
  function ListsFailed(s: UiState, message: string): (r: UiState)
    ensures !r.isLoadingInitialData && r.error == Some(LoadErrorPrefix + message)
    ensures r.(isLoadingInitialData := s.isLoadingInitialData, error := s.error) == s
  {
    s.(isLoadingInitialData := false, error := Some(LoadErrorPrefix + message))
  }

  /** The lists the screen receives from a store snapshot. */
  function Refresh(s: UiState, store: Store): (r: UiState)
    ensures r.folders == Folders(store) && r.passwordsWithoutFolder == PasswordsWithoutFolder(store)
  {
    ListsArrived(s, Folders(store), PasswordsWithoutFolder(store))
  }

  /** The screen's state together with the store. */
  datatype Screen = Screen(ui: UiState, store: Store)

  /** `handleDeletePassword`: the row with the record's key goes. */
  function DeletePasswordClicked(sc: Screen, p: Password): (r: Screen)
    ensures forall x :: x in r.store.rows <==> x in sc.store.rows && x.id != p.id
    ensures r.ui == sc.ui.(deleteError := None)
  {
    Screen(sc.ui.(deleteError := None), DeletePassword(sc.store, p))
  }

  /** `DeleteFolderClicked`: the confirmation dialog opens for `name`. */
  function DeleteFolderClicked(s: UiState, name: string): (r: UiState)
    ensures r.folderToDelete == Some(name) && r.(folderToDelete := s.folderToDelete) == s
  {
    s.(folderToDelete := Some(name))
  }

  /** `handleConfirmDeleteFolder`: without a pending folder nothing happens;
      otherwise every row of that folder is removed and the dialog closes. */
  function ConfirmDeleteFolder(sc: Screen): (r: Screen)
    ensures sc.ui.folderToDelete.None? ==> r == sc
    ensures sc.ui.folderToDelete.Some? ==>
      && (forall x :: x in r.store.rows <==> x in sc.store.rows && x.folderName != sc.ui.folderToDelete)
      && r.ui == sc.ui.(folderToDelete := None, deleteError := None)
  {
    match sc.ui.folderToDelete
    case None => sc
    case Some(name) => Screen(sc.ui.(folderToDelete := None, deleteError := None), DeleteByFolder(sc.store, name))
  }

  /** `CancelDeleteFolder`. */
  function CancelDeleteFolder(s: UiState): (r: UiState)
    ensures r.folderToDelete.None? && r.deleteError.None?
    ensures r.(folderToDelete := s.folderToDelete, deleteError := s.deleteError) == s
  {
    s.(folderToDelete := None, deleteError := None)
  }

  /** `ClearError`: all three error texts go. */
  function ClearError(s: UiState): (r: UiState)
    ensures r.error.None? && r.folderError.None? && r.deleteError.None?
    ensures r.(error := s.error, folderError := s.folderError, deleteError := s.deleteError) == s
  {
    s.(error := None, folderError := None, deleteError := None)
  }

  function ClearExportMessage(s: UiState): (r: UiState)
    ensures r.exportMessage.None? && r.(exportMessage := s.exportMessage) == s
  {
    s.(exportMessage := None)
  }

  /** The records an export writes: the open folder's, else the unfiled ones. */
  function ExportSelection(s: UiState): (ps: seq<Password>)
    ensures s.expandedFolderName.Some? ==> ps == s.passwordsInExpandedFolder
    ensures s.expandedFolderName.None? ==> ps == s.passwordsWithoutFolder
  {
    if s.expandedFolderName.Some? then s.passwordsInExpandedFolder else s.passwordsWithoutFolder
  }

  /** The suggested file name: "passwords_", the folder name with spaces as
      underscores and in lower case, ".csv"; for unfiled records a fixed name. */
  function DefaultFileName(s: UiState): (n: string)
    ensures s.expandedFolderName.None? ==> n == UnfiledFileName
    ensures s.expandedFolderName.Some? ==>
      var f := s.expandedFolderName.value;
      && |n| == |f| + 14 && StartsWith(n, "passwords_") && EndsWith(n, ".csv")
      && n[10..|n| - 4] == LowercaseAscii(ReplaceChar(f, ' ', '_'))
      && ' ' !in n
  {
    match s.expandedFolderName
    case None => UnfiledFileName
    case Some(f) =>
      var stem := LowercaseAscii(ReplaceChar(f, ' ', '_'));
      var n := "passwords_" + stem + ".csv";
      assert n[10..|n| - 4] == stem;
      assert forall i :: 0 <= i < |stem| ==> stem[i] != ' ' by {
        var u := ReplaceChar(f, ' ', '_');
        forall i | 0 <= i < |stem| ensures stem[i] != ' ' {
          assert u[i] != ' ' by { assert u[i] in u; }
        }
      }
      assert forall i :: 0 <= i < |n| ==> n[i] != ' ' by {
        forall i | 0 <= i < |n| ensures n[i] != ' ' {
          if 10 <= i < |n| - 4 {
            assert n[i] == stem[i - 10];
          }
        }
      }
      n
  }

  /** `RequestCreateFileForExport`: the file the user is asked to create. */
  datatype ExportRequest = ExportRequest(fileName: string, mimeType: string)

  /** The result of `handleInitiateExport`: the new state and the file
      request sent to the screen, if any. */
  datatype InitiateStep = InitiateStep(ui: UiState, request: Option<ExportRequest>)

  /** `handleInitiateExport`: nothing to export gives a message and no
      request; otherwise the screen is asked for a CSV file under the
      suggested name, and the state does not change. */
  function InitiateExport(s: UiState): (r: InitiateStep)
    ensures ExportSelection(s) == [] <==> r.request.None?
    ensures ExportSelection(s) == [] ==> r.ui == s.(exportMessage := Some(NothingToExport), isExporting := false)
    ensures ExportSelection(s) != [] ==> r.ui == s && r.request == Some(ExportRequest(DefaultFileName(s), CsvMimeType))
  {
    if ExportSelection(s) == [] then InitiateStep(s.(exportMessage := Some(NothingToExport), isExporting := false), None)
    else InitiateStep(s, Some(ExportRequest(DefaultFileName(s), CsvMimeType)))
  }

  /** What the content resolver and the writer do with the chosen file:
      give a stream that takes the whole text, give none, or fail while
      writing (an `IOException` when `isIo`). */
  datatype Sink = Writable | NoStream | WriteFailed(isIo: bool, message: string)

  /** The result of `exportPasswordsToFile`: the new state and the text that
      reached the file, if a stream was written to completion. */
  datatype ExportStep = ExportStep(ui: UiState, written: Option<string>)

  function NoStreamMessage(uri: string): string {
    "Не удалось открыть OutputStream для Uri: " + uri
  }

  /** `exportPasswordsToFile`. The selection is taken again: when it is empty
      nothing is written. Otherwise the CSV text of the selection goes to the
      file, and the message reports success or the exception. The export flag
      is always off afterwards. */
  function ExportToFile(s: UiState, uri: string, sink: Sink, showDouble: real -> string): (r: ExportStep)
    ensures !r.ui.isExporting
    ensures r.ui.(isExporting := s.isExporting, exportMessage := s.exportMessage) == s
    ensures r.written.Some? <==> ExportSelection(s) != [] && sink.Writable?
    ensures r.written.Some? ==> r.written.value == ExportText(ExportSelection(s), showDouble) && r.ui.exportMessage == Some(ExportDone)
    ensures ExportSelection(s) == [] ==> r.ui.exportMessage == Some(NothingToExport)
    ensures ExportSelection(s) != [] && sink.NoStream? ==> r.ui.exportMessage == Some(ExportIoErrorPrefix + NoStreamMessage(uri))
    ensures ExportSelection(s) != [] && sink.WriteFailed? ==>
      r.ui.exportMessage == Some((if sink.isIo then ExportIoErrorPrefix else ExportOtherErrorPrefix) + sink.message)
  {
    var ps := ExportSelection(s);
    if ps == [] then ExportStep(s.(isExporting := false, exportMessage := Some(NothingToExport)), None)
    else
      match sink
      case Writable => ExportStep(s.(isExporting := false, exportMessage := Some(ExportDone)), Some(ExportText(ps, showDouble)))
      case NoStream => ExportStep(s.(isExporting := false, exportMessage := Some(ExportIoErrorPrefix + NoStreamMessage(uri))), None)
      case WriteFailed(isIo, message) =>
        var prefix := if isIo then ExportIoErrorPrefix else ExportOtherErrorPrefix;
        ExportStep(s.(isExporting := false, exportMessage := Some(prefix + message)), None)
  }

  /** The two export handlers agree: a file is requested exactly when the
      export would write something. */
  lemma RequestIffSomethingToWrite(s: UiState, uri: string, showDouble: real -> string)
    ensures InitiateExport(s).request.Some? <==> ExportToFile(s, uri, Writable, showDouble).written.Some?
  {
  }

  /** An exported file is the header followed by one line per selected
      record, in list order. */
  lemma ExportWritesOneLinePerRecord(s: UiState, uri: string, showDouble: real -> string)
    requires ExportSelection(s) != []
    ensures var ls := ExportLines(ExportSelection(s), showDouble);
      && ExportToFile(s, uri, Writable, showDouble).written == Some(ExportText(ExportSelection(s), showDouble))
      && |ls| == |ExportSelection(s)| + 1 && ls[0] == ExportHeader
  {
  }

  /** Every handler keeps a closed folder empty and idle. */
  lemma CollapsedIsEmptyKept(s: UiState, name: string, passwords: seq<Password>, message: string,
                             folders: seq<string>, unfiled: seq<Password>, uri: string, sink: Sink,
                             showDouble: real -> string)
    requires CollapsedIsEmpty(s)
    ensures CollapsedIsEmpty(FolderClicked(s, name))
    ensures CollapsedIsEmpty(FolderContentArrived(s, name, passwords))
    ensures CollapsedIsEmpty(FolderContentFailed(s, name, message))
    ensures CollapsedIsEmpty(ListsArrived(s, folders, unfiled))
    ensures CollapsedIsEmpty(ListsFailed(s, message))
    ensures CollapsedIsEmpty(DeleteFolderClicked(s, name)) && CollapsedIsEmpty(CancelDeleteFolder(s))
    ensures CollapsedIsEmpty(ClearError(s)) && CollapsedIsEmpty(ClearExportMessage(s))
    ensures CollapsedIsEmpty(InitiateExport(s).ui) && CollapsedIsEmpty(ExportToFile(s, uri, sink, showDouble).ui)
  {
  }

  /** A second click on the same folder undoes the first: the folder ends
      open exactly when it started open, and from a closed view the closed
      view comes back. */
  lemma ClickTwiceTogglesBack(s: UiState, name: string)
    ensures FolderClicked(FolderClicked(s, name), name).expandedFolderName == Some(name)
            <==> s.expandedFolderName == Some(name)
    ensures s.expandedFolderName != Some(name) ==> FolderClicked(FolderClicked(s, name), name).expandedFolderName.None?
    ensures s.expandedFolderName.None? && CollapsedIsEmpty(s) ==>
      FolderClicked(FolderClicked(s, name), name) == s.(folderError := None)
  {
  }

  /** Contents that arrive for a folder the user has since closed or left
      change nothing. */
  lemma StaleContentIgnored(s: UiState, first: string, second: string, passwords: seq<Password>)
    requires first != second
    ensures var t := FolderClicked(FolderClicked(s, first), second);
      FolderContentArrived(t, first, passwords) == t
  {
  }

  /** Deleting the open folder closes it once the store's new lists arrive;
      any other open folder stays open. */
  lemma DeletingOpenFolderClosesIt(sc: Screen, name: string)
    requires sc.ui.expandedFolderName == Some(name) && sc.ui.folderToDelete == Some(name)
    ensures var r := ConfirmDeleteFolder(sc);
      var u := Refresh(r.ui, r.store);
      u.expandedFolderName.None? && u.passwordsInExpandedFolder == []
  {
    var r := ConfirmDeleteFolder(sc);
    assert r.store == DeleteByFolder(sc.store, name);
    DeletedFolderIsGone(sc.store, name);
  }

  lemma DeletingAnotherFolderKeepsOpenOne(sc: Screen, name: string, open: string)
    requires sc.ui.expandedFolderName == Some(open) && sc.ui.folderToDelete == Some(name) && open != name
    requires open in Folders(sc.store)
    ensures var r := ConfirmDeleteFolder(sc);
      var u := Refresh(r.ui, r.store);
      u.expandedFolderName == Some(open) && u.passwordsInExpandedFolder == sc.ui.passwordsInExpandedFolder
  {
    var r := ConfirmDeleteFolder(sc);
    assert r.store == DeleteByFolder(sc.store, name);
    DeleteByFolderKeepsOtherFolders(sc.store, name, open);
  }

  /** With no folder open, the export writes exactly the unfiled records of
      the store snapshot the screen last received. */
  lemma UnfiledExportIsStoreListing(s: UiState, store: Store, uri: string, showDouble: real -> string)
    requires s.expandedFolderName.None?
    requires PasswordsWithoutFolder(store) != []
    ensures ExportToFile(Refresh(s, store), uri, Writable, showDouble).written
            == Some(ExportText(PasswordsWithoutFolder(store), showDouble))
    ensures InitiateExport(Refresh(s, store)).request == Some(ExportRequest(UnfiledFileName, CsvMimeType))
  {
  }
}
