/**
 * The older, in-process FileEngine: the same clipboard rules as the plugin,
 * a paste check without the target-exists test that passes over a paste
 * onto the file's own path silently, and mkdir / rename / chmod done
 * directly on the filesystem rather than through the worker.
 */
module LegacyFileEngine {
  import opened Common
  import opened FileOperations
  import LegacyFileWorker
  import PluginFileEngine

  type EngineEvent = PluginFileEngine.EngineEvent

  /** What pasteFiles does; a paste onto the file's own path is among the silent returns. */
  datatype Paste = NoEffect | Rejected(fileName: Path) | Launched

  /** The loop over the clipboard: the first file whose target is its own path or lies under it decides. */
  function PasteCheck(files: seq<Path>, dest: Path): Paste {
    if files == [] then Launched
    else
      var f := files[0];
      var newName := Target(dest, f);
      if f == newName then NoEffect
      else if StartsWith(newName, f) then Rejected(f)
      else PasteCheck(files[1..], dest)
  }

  function PasteDecision(env: Env, h: History, clipboard: seq<Path>, dest: Path): Paste {
    if clipboard == [] || !DirExists(env.info(h, dest)) then NoEffect
    else PasteCheck(clipboard, dest)
  }

  /**
   * A paste is launched exactly when no target starts with its source (a
   * target equal to its source is one of those); a rejection names a
   * clipboard file whose target lies strictly under it; an existing target
   * never stops the paste.
   */
  lemma {:induction false} PasteCheckMeaning(files: seq<Path>, dest: Path)
    ensures PasteCheck(files, dest) == Launched <==>
      forall k :: 0 <= k < |files| ==> !StartsWith(Target(dest, files[k]), files[k])
    ensures PasteCheck(files, dest).Rejected? ==>
      var f := PasteCheck(files, dest).fileName;
      f in files && f != Target(dest, f) && StartsWith(Target(dest, f), f)
  {
    if files != [] {
      PasteCheckMeaning(files[1..], dest);
      assert forall k :: 1 <= k < |files| ==> files[k] == files[1..][k - 1];
      var f := files[0];
      if f == Target(dest, f) {
        assert StartsWith(Target(dest, f), f);
      } else if !StartsWith(Target(dest, f), f) {
        assert forall k :: 0 <= k < |files[1..]| ==> files[1..][k] == files[k + 1];
      }
    }
  }

  /** When the first clipboard file would land on itself, the paste ends with no signal at all. */
  lemma OwnPathIsSilent(env: Env, h: History, clipboard: seq<Path>, dest: Path)
    requires clipboard != [] && Target(dest, clipboard[0]) == clipboard[0]
    ensures PasteDecision(env, h, clipboard, dest) == NoEffect
  {
  }

  class FileEngine {
    var clipboardFiles: seq<Path>
    var clipboardContainsCopy: bool
    /** Created with the engine. */
    var worker: LegacyFileWorker.FileWorker
    var events: seq<EngineEvent>

    constructor ()
      ensures clipboardFiles == [] && !clipboardContainsCopy && events == []
      ensures fresh(worker) && worker.mode == IdleMode && !worker.running && worker.events == []
    {
      clipboardFiles := [];
      clipboardContainsCopy := false;
      worker := new LegacyFileWorker.FileWorker();
      events := [];
    }

    /** FileEngine::busy: busy exactly while the worker's thread runs. */
    predicate Busy()
      reads this, worker
      ensures Busy() ==> worker.running
      ensures worker.running ==> Busy()
    {
      worker.running
    }

    /** FileEngine::cutFiles: the clipboard holds exactly the names, as a move. */
    method CutFiles(fileNames: seq<Path>)
      modifies this
      ensures clipboardFiles == fileNames && !clipboardContainsCopy
      ensures events == old(events) + [PluginFileEngine.ClipboardCountChanged, PluginFileEngine.ClipboardContainsCopyChanged]
      ensures worker == old(worker)
    {
      clipboardFiles := fileNames;
      clipboardContainsCopy := false;
      events := events + [PluginFileEngine.ClipboardCountChanged, PluginFileEngine.ClipboardContainsCopyChanged];
    }

    /**
     * FileEngine::copyFiles: special files are dropped; the clipboard is
     * replaced, as a copy, only when something is left.
     */
    method CopyFiles(fileNames: seq<Path>, isSystem: Path -> bool)
      modifies this
      ensures var kept := PluginFileEngine.WithoutSystem(fileNames, isSystem);
        if kept == [] then
          clipboardFiles == old(clipboardFiles) && clipboardContainsCopy == old(clipboardContainsCopy) &&
          events == old(events)
        else
          clipboardFiles == kept && clipboardContainsCopy &&
          events == old(events) + [PluginFileEngine.ClipboardCountChanged, PluginFileEngine.ClipboardContainsCopyChanged]
      ensures worker == old(worker)
    {
      var kept := PluginFileEngine.FileEngine.DropSystemFiles(fileNames, isSystem);
      if kept != [] {
        clipboardFiles := kept;
        clipboardContainsCopy := true;
        events := events + [PluginFileEngine.ClipboardCountChanged, PluginFileEngine.ClipboardContainsCopyChanged];
      }
    }

    /** FileEngine::deleteFiles: handed straight to the worker. */
    method DeleteFiles(fileNames: seq<Path>)
      modifies worker
      ensures old(worker.running) ==> worker.Refused([LegacyFileWorker.ErrorSignal(ErrorOperationInProgress, "")])
      ensures !old(worker.running) && (exists k :: 0 <= k < |fileNames| && fileNames[k] == []) ==>
        worker.Refused([]) && !worker.running
      ensures !old(worker.running) && (forall k :: 0 <= k < |fileNames| ==> fileNames[k] != []) ==>
        worker.mode == DeleteMode && worker.running && worker.fileNames == fileNames && !worker.cancelled
    {
      worker.StartDeleteFiles(fileNames);
    }

    /** FileEngine::cancel: the worker's flag is raised. */
    method Cancel()
      modifies worker
      ensures worker.cancelled && worker.events == old(worker.events)
      ensures worker.mode == old(worker.mode) && worker.running == old(worker.running)
    {
      worker.Cancel();
    }

    /** The pasteFiles loop over the clipboard. */
    static method CheckFiles(files: seq<Path>, dest: Path) returns (r: Paste)
      ensures r == PasteCheck(files, dest)
    {
      var i := 0;
      while i < |files|
        invariant i <= |files|
        invariant PasteCheck(files[i..], dest) == PasteCheck(files, dest)
      {
        var fileName := files[i];
        var newName := Target(dest, fileName);
        assert files[i..][1..] == files[i + 1..];
        if fileName == newName {
          return NoEffect;
        }
        if StartsWith(newName, fileName) {
          return Rejected(fileName);
        }
        i := i + 1;
      }
      return Launched;
    }

    /**
     * FileEngine::pasteFiles: nothing happens for an empty clipboard, a
     * missing destination or a file pasted onto itself; a target under its
     * source emits ErrorCannotCopyIntoItself and keeps the clipboard;
     * otherwise the clipboard is cleared and the worker started.
     */
    method PasteFiles(env: Env, h: History, destDirectory: Path)
      modifies this, worker
      ensures worker == old(worker) && clipboardContainsCopy == old(clipboardContainsCopy)
      ensures var d := PasteDecision(env, h, old(clipboardFiles), destDirectory);
        !d.Launched? ==>
          clipboardFiles == old(clipboardFiles) && unchanged(worker) &&
          events == old(events) + if d.Rejected? then [PluginFileEngine.ErrorSignal(ErrorCannotCopyIntoItself, d.fileName)] else []
      ensures var d := PasteDecision(env, h, old(clipboardFiles), destDirectory);
        var valid := forall k :: 0 <= k < |old(clipboardFiles)| ==> old(clipboardFiles)[k] != [];
        d.Launched? ==>
          clipboardFiles == [] && events == old(events) + [PluginFileEngine.ClipboardCountChanged] &&
          (old(worker.running) ==> worker.Refused([LegacyFileWorker.ErrorSignal(ErrorOperationInProgress, "")])) &&
          (!old(worker.running) && !valid ==> worker.Refused([]) && !worker.running) &&
          (!old(worker.running) && valid ==>
             worker.running && worker.mode == (if old(clipboardContainsCopy) then CopyMode else MoveMode) &&
             worker.fileNames == old(clipboardFiles) && worker.destDirectory == destDirectory)
    {
      if clipboardFiles == [] {
        return;
      }
      var files := clipboardFiles;
      if !DirExists(env.info(h, destDirectory)) {
        return;
      }
      var verdict := CheckFiles(files, destDirectory);
      if verdict.NoEffect? {
        return;
      }
      if verdict.Rejected? {
        events := events + [PluginFileEngine.ErrorSignal(ErrorCannotCopyIntoItself, verdict.fileName)];
        return;
      }
      clipboardFiles := [];
      events := events + [PluginFileEngine.ClipboardCountChanged];
      if clipboardContainsCopy {
        worker.StartCopyFiles(files, destDirectory);
        return;
      }
      worker.StartMoveFiles(files, destDirectory);
    }

    /** FileEngine::mkdir: QDir(path).mkdir(name); a failure is reported under the new folder's name. */
    method Mkdir(env: Env, h: History, path: Path, name: string) returns (ok: bool)
      modifies this
      ensures ok <==> env.succeeds(h, FileOperations.Mkdir(path, name))
      ensures events == old(events) + if ok then [] else [PluginFileEngine.ErrorSignal(ErrorFolderCreationFailed, name)]
      ensures clipboardFiles == old(clipboardFiles) && worker == old(worker)
    {
      ok := Do(env, h, FileOperations.Mkdir(path, name)).ok;
      if !ok {
        events := events + [PluginFileEngine.ErrorSignal(ErrorFolderCreationFailed, name)];
      }
    }

    /** FileEngine::rename: QFile::rename into the old file's directory; a failure names the old file. */
    method Rename(env: Env, h: History, fullOldFileName: Path, newName: string) returns (ok: bool)
      modifies this
      ensures ok <==> env.succeeds(h, FileOperations.Rename(fullOldFileName, PluginFileEngine.RenameTarget(fullOldFileName, newName)))
      ensures events == old(events) +
        if ok then [] else [PluginFileEngine.ErrorSignal(ErrorRenameFailed, FileName(fullOldFileName))]
      ensures clipboardFiles == old(clipboardFiles) && worker == old(worker)
    {
      var dir := DirOf(fullOldFileName);
      var fullNewFileName := Join(dir, newName);
      ok := Do(env, h, FileOperations.Rename(fullOldFileName, fullNewFileName)).ok;
      if !ok {
        events := events + [PluginFileEngine.ErrorSignal(ErrorRenameFailed, FileName(fullOldFileName))];
      }
    }

    /** FileEngine::chmod: QFile::setPermissions with the mask of exactly the given flags. */
    method Chmod(env: Env, h: History, path: Path, p: Permissions) returns (ok: bool)
      modifies this
      ensures ok <==> env.succeeds(h, FileOperations.SetPermissions(path, PermissionMask(p)))
      ensures events == old(events) + if ok then [] else [PluginFileEngine.ErrorSignal(ErrorChmodFailed, path)]
      ensures clipboardFiles == old(clipboardFiles) && worker == old(worker)
    {
      ok := Do(env, h, FileOperations.SetPermissions(path, PermissionMask(p))).ok;
      if !ok {
        events := events + [PluginFileEngine.ErrorSignal(ErrorChmodFailed, path)];
      }
    }
  }
}
