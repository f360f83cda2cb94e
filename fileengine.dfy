/**
 * The QML-facing FileEngine of the plugin: the clipboard (cut or copy of a
 * list of names), the checks pasteFiles makes before handing the files to
 * the worker, and the single-file mkdir / rename / chmod requests.
 * QFileInfo / QFile::exists readings come from the same oracle the engine
 * uses; StatFileInfo::isSystem is a parameter.
 */
module PluginFileEngine {
  import opened Common
  import opened FileOperations
  import PluginFileWorker

  /** The signals FileEngine emits itself. */
  datatype EngineEvent =
    | ClipboardCountChanged
    | ClipboardFilesChanged
    | ClipboardContainsCopyChanged
    | ErrorSignal(error: Error, fileName: Path)

  /** The names copyFiles keeps: every one that is not a special file, in order. */
  function WithoutSystem(names: seq<Path>, isSystem: Path -> bool): seq<Path> {
    if names == [] then []
    else (if isSystem(names[0]) then [] else [names[0]]) + WithoutSystem(names[1..], isSystem)
  }

  /** A name is kept exactly when it was given and is not a special file, and the order is kept. */
  lemma {:induction false} WithoutSystemKeeps(names: seq<Path>, isSystem: Path -> bool)
    ensures forall x :: x in WithoutSystem(names, isSystem) <==> x in names && !isSystem(x)
    ensures IsSubseq(WithoutSystem(names, isSystem), names)
    ensures |WithoutSystem(names, isSystem)| <= |names|
  {
    if names != [] {
      var rest := WithoutSystem(names[1..], isSystem);
      WithoutSystemKeeps(names[1..], isSystem);
      assert forall x :: x in names <==> x == names[0] || x in names[1..];
      if isSystem(names[0]) {
        assert WithoutSystem(names, isSystem) == rest;
        SubseqSkip(rest, names);
      } else {
        assert WithoutSystem(names, isSystem) == [names[0]] + rest;
        assert ([names[0]] + rest)[1..] == rest;
      }
    }
  }

  /**
   * The check pasteFiles makes for each clipboard file, stopping at the first
   * one that fails: a target (dest/fileName) equal to the source or starting
   * with it is a copy into itself; an existing target is a copy failure.
   */
  function PasteConflict(env: Env, h: History, files: seq<Path>, dest: Path): Option<(Error, Path)> {
    if files == [] then None
    else
      var f := files[0];
      var newName := Target(dest, f);
      if f == newName || StartsWith(newName, f) then Some((ErrorCannotCopyIntoItself, f))
      else if env.info(h, newName).present then Some((ErrorCopyFailed, f))
      else PasteConflict(env, h, files[1..], dest)
  }

  /** The verdict on one file. */
  function FileConflict(env: Env, h: History, f: Path, dest: Path): Option<Error> {
    var newName := Target(dest, f);
    if f == newName || StartsWith(newName, f) then Some(ErrorCannotCopyIntoItself)
    else if env.info(h, newName).present then Some(ErrorCopyFailed)
    else None
  }

  /**
   * No conflict exactly when every file passes; otherwise the conflict names
   * the first file that fails, with that file's error.
   */
  lemma {:induction false} PasteConflictFirst(env: Env, h: History, files: seq<Path>, dest: Path)
    ensures PasteConflict(env, h, files, dest) == None <==>
      forall k :: 0 <= k < |files| ==> FileConflict(env, h, files[k], dest) == None
    ensures PasteConflict(env, h, files, dest).Some? ==>
      exists k :: 0 <= k < |files| &&
        (forall j :: 0 <= j < k ==> FileConflict(env, h, files[j], dest) == None) &&
        FileConflict(env, h, files[k], dest).Some? &&
        PasteConflict(env, h, files, dest) == Some((FileConflict(env, h, files[k], dest).value, files[k]))
  {
    if files != [] {
      PasteConflictFirst(env, h, files[1..], dest);
      var r := PasteConflict(env, h, files, dest);
      if FileConflict(env, h, files[0], dest) == None {
        assert r == PasteConflict(env, h, files[1..], dest);
        assert forall k :: 1 <= k < |files| ==> files[k] == files[1..][k - 1];
        if r.Some? {
          var k :| 0 <= k < |files[1..]| &&
            (forall j :: 0 <= j < k ==> FileConflict(env, h, files[1..][j], dest) == None) &&
            FileConflict(env, h, files[1..][k], dest).Some? &&
            r == Some((FileConflict(env, h, files[1..][k], dest).value, files[1..][k]));
          assert forall j :: 1 <= j < k + 1 ==> files[j] == files[1..][j - 1];
          assert 0 <= k + 1 < |files| && files[k + 1] == files[1..][k];
        }
      } else {
        assert 0 <= 0 < |files|;
      }
    }
  }

  /**
   * The into-itself test is a plain string prefix test: pasting /a/b into
   * its sibling /a/bc is refused, since /a/bc/b starts with /a/b.
   */
  lemma SiblingWithSharedPrefixRefused(env: Env, h: History)
    ensures FileConflict(env, h, "/a/b", "/a/bc") == Some(ErrorCannotCopyIntoItself)
  {
    assert LastIndexOf("/a/b", '/') == 2;
    assert FileName("/a/b") == "b";
    assert Target("/a/bc", "/a/b") == "/a/bc/b";
  }

  /** What pasteFiles does with the clipboard it finds. */
  datatype Paste = NoEffect | Rejected(error: Error, fileName: Path) | Launched

  function PasteDecision(env: Env, h: History, clipboard: seq<Path>, dest: Path): Paste {
    if clipboard == [] || !DirExists(env.info(h, dest)) then NoEffect
    else match PasteConflict(env, h, clipboard, dest)
      case Some((e, f)) => Rejected(e, f)
      case None => Launched
  }

  /**
   * Every rejection names a clipboard file whose target is inside it or
   * already exists, and a paste is launched only when no file has either
   * problem.
   */
  lemma PasteDecisionMeaning(env: Env, h: History, clipboard: seq<Path>, dest: Path)
    ensures PasteDecision(env, h, clipboard, dest).Launched? <==>
      clipboard != [] && DirExists(env.info(h, dest)) &&
      forall k :: 0 <= k < |clipboard| ==> FileConflict(env, h, clipboard[k], dest) == None
    ensures PasteDecision(env, h, clipboard, dest).Rejected? ==>
      var d := PasteDecision(env, h, clipboard, dest);
      d.fileName in clipboard && FileConflict(env, h, d.fileName, dest) == Some(d.error) &&
      (d.error == ErrorCannotCopyIntoItself <==> StartsWith(Target(dest, d.fileName), d.fileName))
  {
    PasteConflictFirst(env, h, clipboard, dest);
    var d := PasteDecision(env, h, clipboard, dest);
    if d.Rejected? {
      var k :| 0 <= k < |clipboard| &&
        (forall j :: 0 <= j < k ==> FileConflict(env, h, clipboard[j], dest) == None) &&
        FileConflict(env, h, clipboard[k], dest).Some? &&
        PasteConflict(env, h, clipboard, dest) == Some((FileConflict(env, h, clipboard[k], dest).value, clipboard[k]));
      assert d.fileName == clipboard[k];
    }
  }

  /** FileEngine::rename: the new name is taken in the old file's directory. */
  function RenameTarget(fullOldFileName: Path, newName: string): Path {
    Join(DirOf(fullOldFileName), newName)
  }

  /** A plain new name ends up as the file name of the target, under the old directory. */
  lemma RenameTargetPlacement(fullOldFileName: Path, newName: string)
    requires newName != [] && '/' !in newName
    ensures FileName(RenameTarget(fullOldFileName, newName)) == newName
    ensures StartsWith(RenameTarget(fullOldFileName, newName), DirOf(fullOldFileName))
  {
    JoinFileName(DirOf(fullOldFileName), newName);
  }

  class FileEngine {
    var clipboardFiles: seq<Path>
    var clipboardContainsCopy: bool
    /** Created on first use, as ensureWorker does. */
    var worker: PluginFileWorker.FileWorker?
    var events: seq<EngineEvent>

    constructor ()
      ensures clipboardFiles == [] && !clipboardContainsCopy && worker == null && events == []
    {
      clipboardFiles := [];
      clipboardContainsCopy := false;
      worker := null;
      events := [];
    }

    /** FileEngine::mode: the worker's mode, Idle while there is no worker. */
    function Mode(): (m: Mode)
      reads this, worker
      ensures worker == null ==> m == IdleMode
      ensures worker != null ==> m == worker.mode
    {
      if worker == null then IdleMode else worker.mode
    }

    /** FileEngine::busy: only a running worker thread counts. */
    predicate Busy()
      reads this, worker
      ensures Busy() ==> worker != null && worker.running
      ensures worker != null && worker.running ==> Busy()
    {
      worker != null && worker.running
    }

    /**
     * The worker, existing or created for the call, refused a start with the
     * given error, which is its one new signal; nothing else of it changed.
     */
    twostate predicate WorkerRefused(error: Error)
      reads this, worker
    {
      worker != null &&
      if old(worker) == null then
        worker.Initial() && worker.events == [PluginFileWorker.ErrorSignal(error, "")]
      else
        worker == old(worker) && worker.Refused([PluginFileWorker.ErrorSignal(error, "")])
    }

    /**
     * The worker, existing or created for the call, was asked to start mode m
     * on names: while busy it refuses with ErrorOperationInProgress, a list
     * holding an empty name it refuses with ErrorInvalidRequest, and
     * otherwise it holds the mode, names and destination.
     */
    twostate predicate WorkerStarted(m: Mode, names: seq<Path>, dest: Path)
      reads this, worker
    {
      var busy := old(worker != null && worker.OperationInProgress());
      worker != null && (old(worker) != null ==> worker == old(worker)) &&
      (busy ==> WorkerRefused(ErrorOperationInProgress)) &&
      (!busy && (exists k :: 0 <= k < |names| && names[k] == []) ==> WorkerRefused(ErrorInvalidRequest)) &&
      (!busy && (forall k :: 0 <= k < |names| ==> names[k] != []) ==>
         worker.mode == m && worker.fileNames == names && worker.destDirectory == dest)
    }

    method EnsureWorker()
      modifies this
      ensures old(worker) != null ==> worker == old(worker)
      ensures old(worker) == null ==>
        fresh(worker) && worker.Initial() && worker.events == []
      ensures worker != null
      ensures clipboardFiles == old(clipboardFiles) && clipboardContainsCopy == old(clipboardContainsCopy)
      ensures events == old(events)
    {
      if worker == null {
        worker := new PluginFileWorker.FileWorker();
      }
    }

    /** FileEngine::cutFiles: the clipboard holds exactly the names, as a move. */
    method CutFiles(fileNames: seq<Path>)
      modifies this
      ensures clipboardFiles == fileNames && !clipboardContainsCopy
      ensures events == old(events) + [ClipboardCountChanged, ClipboardFilesChanged, ClipboardContainsCopyChanged]
      ensures worker == old(worker)
    {
      clipboardFiles := fileNames;
      clipboardContainsCopy := false;
      events := events + [ClipboardCountChanged, ClipboardFilesChanged, ClipboardContainsCopyChanged];
    }

    /** The in-place removal of special files from the list copyFiles was given. */
    static method DropSystemFiles(fileNames: seq<Path>, isSystem: Path -> bool) returns (kept: seq<Path>)
      ensures kept == WithoutSystem(fileNames, isSystem)
    {
      kept := fileNames;
      var i := 0;
      while i < |kept|
        invariant i <= |kept|
        invariant kept[..i] + WithoutSystem(kept[i..], isSystem) == WithoutSystem(fileNames, isSystem)
        decreases |kept| - i
      {
        ghost var before := kept;
        ghost var rest := WithoutSystem(before[i + 1..], isSystem);
        assert before[i..][1..] == before[i + 1..];
        if isSystem(kept[i]) {
          assert WithoutSystem(before[i..], isSystem) == rest;
          kept := kept[..i] + kept[i + 1..];
          assert kept[..i] == before[..i];
          assert kept[i..] == before[i + 1..];
        } else {
          assert WithoutSystem(before[i..], isSystem) == [before[i]] + rest;
          assert kept[..i + 1] == kept[..i] + [kept[i]];
          assert kept[..i] + ([before[i]] + rest) == kept[..i + 1] + rest;
          i := i + 1;
        }
      }
      assert kept[i..] == [];
      assert kept[..i] == kept;
    }

    /**
     * FileEngine::copyFiles: special files are dropped; the clipboard is
     * replaced, as a copy, only when something is left.
     */
    method CopyFiles(fileNames: seq<Path>, isSystem: Path -> bool)
      modifies this
      ensures var kept := WithoutSystem(fileNames, isSystem);
        if kept == [] then
          clipboardFiles == old(clipboardFiles) && clipboardContainsCopy == old(clipboardContainsCopy) &&
          events == old(events)
        else
          clipboardFiles == kept && clipboardContainsCopy &&
          events == old(events) + [ClipboardCountChanged, ClipboardFilesChanged, ClipboardContainsCopyChanged]
      ensures worker == old(worker)
    {
      var kept := DropSystemFiles(fileNames, isSystem);
      if kept != [] {
        clipboardFiles := kept;
        clipboardContainsCopy := true;
        events := events + [ClipboardCountChanged, ClipboardFilesChanged, ClipboardContainsCopyChanged];
      }
    }

    /** FileEngine::deleteFiles: the worker, created if need be, is asked to delete the names. */
    method DeleteFiles(fileNames: seq<Path>, nonprivileged: bool, reply: Option<nat>)
      modifies this, worker
      ensures clipboardFiles == old(clipboardFiles) && clipboardContainsCopy == old(clipboardContainsCopy)
      ensures events == old(events)
      ensures worker != null && (old(worker) != null ==> worker == old(worker)) && (old(worker) == null ==> fresh(worker))
      ensures old(worker != null && worker.OperationInProgress()) ==> WorkerRefused(ErrorOperationInProgress)
      ensures !old(worker != null && worker.OperationInProgress()) && (exists k :: 0 <= k < |fileNames| && fileNames[k] == []) ==>
        WorkerRefused(ErrorInvalidRequest)
      ensures !old(worker != null && worker.OperationInProgress()) && (forall k :: 0 <= k < |fileNames| ==> fileNames[k] != []) ==>
        worker.mode == DeleteMode && worker.fileNames == fileNames && !worker.cancelled
    {
      EnsureWorker();
      worker.StartDeleteFiles(fileNames, nonprivileged, reply);
    }

    /** FileEngine::cancel: passed on to the worker when there is one. */
    method Cancel()
      modifies worker
      ensures worker != null && worker.operation != 0 ==>
        worker.events == old(worker.events) + [PluginFileWorker.RemoteCancel(worker.operation)] &&
        worker.cancelled == old(worker.cancelled)
      ensures worker != null && worker.operation == 0 ==>
        worker.events == old(worker.events) && worker.cancelled == (old(worker.cancelled) || worker.running)
      ensures worker != null ==> worker.mode == old(worker.mode) && worker.running == old(worker.running)
    {
      if worker != null {
        worker.Cancel();
      }
    }

    /** FileEngine::exists: an empty name never exists; otherwise QFile::exists decides. */
    static function Exists(env: Env, h: History, fileName: Path): (r: bool)
      ensures fileName == [] ==> !r
      ensures r ==> env.info(h, fileName).present
      ensures fileName != [] && env.info(h, fileName).present ==> r
    {
      fileName != [] && env.info(h, fileName).present
    }

    /** The pasteFiles loop over the clipboard: the first file that fails a check, if any. */
    static method FindConflict(env: Env, h: History, files: seq<Path>, dest: Path) returns (r: Option<(Error, Path)>)
      ensures r == PasteConflict(env, h, files, dest)
    {
      var i := 0;
      while i < |files|
        invariant i <= |files|
        invariant PasteConflict(env, h, files[i..], dest) == PasteConflict(env, h, files, dest)
      {
        var fileName := files[i];
        var newName := Target(dest, fileName);
        assert files[i..][1..] == files[i + 1..];
        if fileName == newName {
          return Some((ErrorCannotCopyIntoItself, fileName));
        }
        if StartsWith(newName, fileName) {
          return Some((ErrorCannotCopyIntoItself, fileName));
        }
        if env.info(h, newName).present {
          return Some((ErrorCopyFailed, fileName));
        }
        i := i + 1;
      }
      return None;
    }

    /**
     * FileEngine::pasteFiles: nothing happens for an empty clipboard or a
     * missing destination; a failed check emits its error and keeps the
     * clipboard; otherwise the clipboard is cleared and the worker asked to
     * copy or move the files, as the clipboard says.
     */
    method PasteFiles(env: Env, h: History, destDirectory: Path, nonprivileged: bool, reply: Option<nat>)
      modifies this, worker
      ensures clipboardContainsCopy == old(clipboardContainsCopy)
      ensures var d := PasteDecision(env, h, old(clipboardFiles), destDirectory);
        !d.Launched? ==>
          clipboardFiles == old(clipboardFiles) && worker == old(worker) &&
          (old(worker) != null ==> unchanged(old(worker))) &&
          events == old(events) + if d.Rejected? then [ErrorSignal(d.error, d.fileName)] else []
      ensures var d := PasteDecision(env, h, old(clipboardFiles), destDirectory);
        d.Launched? ==>
          clipboardFiles == [] && events == old(events) + [ClipboardCountChanged, ClipboardFilesChanged] &&
          worker != null && (old(worker) == null ==> fresh(worker)) &&
          WorkerStarted(if old(clipboardContainsCopy) then CopyMode else MoveMode, old(clipboardFiles), destDirectory)
    {
      if clipboardFiles == [] {
        return;
      }
      var files := clipboardFiles;
      if !DirExists(env.info(h, destDirectory)) {
        return;
      }
      var conflict := FindConflict(env, h, files, destDirectory);
      if conflict.Some? {
        events := events + [ErrorSignal(conflict.value.0, conflict.value.1)];
        return;
      }
      LaunchPaste(files, destDirectory, nonprivileged, reply);
    }

    /** The end of pasteFiles once every check passed: the clipboard is cleared and the worker started. */
    method LaunchPaste(files: seq<Path>, destDirectory: Path, nonprivileged: bool, reply: Option<nat>)
      modifies this, worker
      ensures clipboardContainsCopy == old(clipboardContainsCopy)
      ensures clipboardFiles == [] && events == old(events) + [ClipboardCountChanged, ClipboardFilesChanged]
      ensures worker != null && (old(worker) == null ==> fresh(worker))
      ensures WorkerStarted(if old(clipboardContainsCopy) then CopyMode else MoveMode, files, destDirectory)
    {
      clipboardFiles := [];
      events := events + [ClipboardCountChanged, ClipboardFilesChanged];
      EnsureWorker();
      if clipboardContainsCopy {
        worker.StartCopyFiles(files, destDirectory, nonprivileged, reply);
      } else {
        worker.StartMoveFiles(files, destDirectory, nonprivileged, reply);
      }
    }

    /** FileEngine::mkdir: a failure is reported under the new folder's name. */
    method Mkdir(env: Env, h: History, path: Path, name: string) returns (ok: bool)
      modifies this
      ensures ok <==> env.succeeds(h, FileOperations.Mkdir(path, name))
      ensures events == old(events) + if ok then [] else [ErrorSignal(ErrorFolderCreationFailed, name)]
      ensures worker != null && clipboardFiles == old(clipboardFiles)
    {
      EnsureWorker();
      ok := PluginFileWorker.FileWorker.Mkdir(env, h, path, name);
      if !ok {
        events := events + [ErrorSignal(ErrorFolderCreationFailed, name)];
      }
    }

    /** FileEngine::rename: a failure is reported under the old file's name. */
    method Rename(env: Env, h: History, fullOldFileName: Path, newName: string) returns (ok: bool)
      modifies this
      ensures ok <==> env.succeeds(h, FileOperations.Rename(fullOldFileName, RenameTarget(fullOldFileName, newName)))
      ensures events == old(events) + if ok then [] else [ErrorSignal(ErrorRenameFailed, FileName(fullOldFileName))]
      ensures worker != null && clipboardFiles == old(clipboardFiles)
    {
      EnsureWorker();
      var dir := DirOf(fullOldFileName);
      var fullNewFileName := Join(dir, newName);
      ok := PluginFileWorker.FileWorker.Rename(env, h, fullOldFileName, fullNewFileName);
      if !ok {
        events := events + [ErrorSignal(ErrorRenameFailed, FileName(fullOldFileName))];
      }
    }

    /** FileEngine::chmod: the worker is asked to apply the mask of exactly the given flags. */
    method Chmod(env: Env, h: History, path: Path, p: Permissions) returns (ok: bool)
      modifies this
      ensures ok <==> env.succeeds(h, FileOperations.SetPermissions(path, PermissionMask(p)))
      ensures events == old(events) + if ok then [] else [ErrorSignal(ErrorChmodFailed, path)]
      ensures worker != null && clipboardFiles == old(clipboardFiles)
    {
      EnsureWorker();
      var mask := PermissionMask(p);
      ok := PluginFileWorker.FileWorker.SetPermissions(env, h, path, mask);
      if !ok {
        events := events + [ErrorSignal(ErrorChmodFailed, path)];
      }
    }
  }
}
