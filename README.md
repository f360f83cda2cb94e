# nemo-qml-plugin-filemanager, modelled in Dafny

This project models the decision logic and bookkeeping of the Sailfish OS
file-manager QML plugin and its file-operations daemon:

- **the shared batch engine** (`FileOperations`): per-path delete,
  copy-overwrite and recursive folder copy, and the batch copy, move and
  delete loops with their `pathResult` trace and result code;
- **the daemon's request dispatcher** (`Daemon.FileOperationsService`):
  handles from a counter, the pending queue, the handle-to-response map,
  cancellation, completion notifications and the linger timer. Its
  invariant keeps a response for every queued or in-flight handle until
  requestFinished retires it (a ghost set `retired` records those handles);
- **the two client workers** (`PluginFileWorker`, `LegacyFileWorker`):
  start guards, cancel routing, matching of daemon callbacks to the current
  operation, and the single closing signal of a run;
- **the two QML file engines** (`PluginFileEngine`, `LegacyFileEngine`):
  the clipboard, the checks `pasteFiles` makes, and mkdir, rename and chmod
  with the permission mask built from nine flags;
- **the directory model** (`FileModel`): the selection list with its cached
  selected count, the active/dirty refresh state machine, the `qt_temp.`
  filter and the sort and filter flags of `directory()`;
- **disk usage** (`DiskUsage`, `DiskUsageSizes`, `StringOrder`): the
  pseudo-path expansion, the subtraction of nested directories over keys
  sorted in descending QString order, the `du` and `rpm` output parsers and
  the apkd cache;
- **the archive model** (`ArchiveModel`): the dirs-first case-insensitive
  entry order, status and error-string transitions, the space requirement
  over the archive tree, the extracted-entries map and the guards that
  apply while an extraction runs.

The filesystem is an oracle, `FileOperations.Env`. Every query (QFileInfo's
exists / isSymLink / isDir / symLinkTarget, QDir::entryList), every
primitive's success (remove, removeRecursively, link, copy, rename, mkdir,
setPermissions) and every answer of a continue function is a function of
the **history** of events so far. Each primitive and each continue check
appends one event, so a later query sees the effect of an earlier step. The
operations return the new history alongside their result, and the lemmas
talk about that trace. Signals are recorded as event lists on the objects
that emit them.

Classes stand for the C++ objects whose fields change in place. Pure helpers
(deleteFile, copyOverwrite, createDirectory, findIndex, the parsers) are
functions. Loops in the source are methods with `while` loops proved equal
to a recursive specification function, and the lemmas are stated about
those specification functions.

Two behaviours of the code are easy to misread:

- A path the continue function refuses is **skipped** by copyFiles,
  moveFiles and deleteFiles, and the loop goes on to the next path; it does
  not stop there (src/shared/fileoperations.cpp:148).
- In copyDirRecursively a symlinked source directory is recreated as a link
  and the copy **then continues** as for a directory; it does not end there
  (src/shared/fileoperations.cpp:82-89).

## Model

| member | source | states |
|---|---|---|
| FileOperations.DeleteFileEffect | src/shared/fileoperations.cpp:40-58 | deleteFile fails with nothing done exactly when the path neither exists nor is a link; otherwise it issues exactly one primitive and returns its outcome: removeRecursively for a real directory, a plain remove for a directory link or for anything else |
| FileOperations.CopyOverwriteEffect | src/shared/fileoperations.cpp:60-78 | an existing destination is removed first, and a failed removal ends the copy with nothing copied; then a link source becomes a new link to the same target and any other source is copied by content; the result is the outcome of that last primitive |
| FileOperations.CopyOverwriteTrace | src/shared/fileoperations.cpp:60-78 | copyOverwrite succeeds exactly when every primitive it issued succeeded, stops at the first failure, and never consults the continue function |
| FileOperations.CopyDirRecursively | src/shared/fileoperations.cpp:80-138 | the method with its two index loops computes exactly the recursive specification of the folder copy |
| FileOperations.CopyDirFiles | src/shared/fileoperations.cpp:105-119 | the files loop computes exactly its specification: for each plain file in turn, the continue check, then copyOverwrite into the destination |
| FileOperations.CopyDirSubdirs | src/shared/fileoperations.cpp:121-135 | the subdirectory loop computes exactly its specification: for each subdirectory in turn, the continue check, then the recursive copy |
| FileOperations.CopyDirTrace | src/shared/fileoperations.cpp:80-138 | nothing is attempted after the first failed primitive or "stop" answer, and a successful folder copy contains no failure and no "stop" at all (no cleanup, no retry) |
| FileOperations.CopyContentsTrace | src/shared/fileoperations.cpp:105-135 | the copy of a folder's contents (its files, then its subdirectories) attempts nothing after the first failure or "stop", and succeeds only when there was none |
| FileOperations.FilesLoopChecksEachFile | src/shared/fileoperations.cpp:105-119 | a files phase that succeeds has consulted the continue function exactly once per file, and never when there is no continue function |
| FileOperations.CopyDirMissingSource | src/shared/fileoperations.cpp:82-94 | a source that is neither a link nor an existing directory fails at once with nothing done |
| FileOperations.CopyDirCreatesDestination | src/shared/fileoperations.cpp:96-103 | with an existing source directory and a missing destination, the first step is mkdir of the destination's name inside its parent, and a failed mkdir ends the copy |
| FileOperations.CopyStepCode | src/shared/fileoperations.cpp:151-163 | a failed copy of a directory carries ErrorFolderCopyFailed, a failed copy of anything else ErrorCopyFailed |
| FileOperations.ActionCodes | src/shared/fileoperations.cpp:140-246 | the copy step fails only with ErrorFolderCopyFailed or ErrorCopyFailed, the move step only with ErrorMoveFailed, the delete step only with ErrorDeleteFailed |
| FileOperations.MoveStepEffect | src/shared/fileoperations.cpp:190-208 | moving a link creates a link to the same target at destination/fileName and then removes the original, and stops after a failed link; anything else is renamed to that name, with no copy fallback |
| FileOperations.ReportRemaining | src/shared/fileoperations.cpp:171-173 | the paths from the iterator's position to the end are appended to the trace, each reported failed, in order |
| FileOperations.CopyFiles | src/shared/fileoperations.cpp:140-176 | the copy loop computes exactly the batch specification with the copy step: refused paths skipped, each success reported, a break at the first failure, and the rest reported failed |
| FileOperations.MoveFiles | src/shared/fileoperations.cpp:178-220 | the move loop computes exactly the batch specification with the move step |
| FileOperations.DeleteFiles | src/shared/fileoperations.cpp:222-246 | the delete loop computes exactly the batch specification with the delete step |
| FileOperations.BatchReports | src/shared/fileoperations.cpp:146-173 | the pathResult trace of a batch is every succeeded path reported true, followed by the path the loop broke at and every later path, each reported false |
| FileOperations.BatchSucceededInOrder | src/shared/fileoperations.cpp:146-168 | the succeeded paths appear in input order among the paths before the breaking index |
| FileOperations.BatchResultCode | src/shared/fileoperations.cpp:140-246 | a batch returns NoError exactly when the loop did not break; otherwise its code is one of the action's failure codes, and it is the code the action returned for the path the loop broke at |
| FileOperations.BatchNoCancelReports | src/shared/fileoperations.cpp:146-173 | without refusals from the continue function, the succeeded paths are exactly the paths before the breaking index, so every path is reported exactly once, in input order |
| FileOperations.BatchAllRefused | src/shared/fileoperations.cpp:146-173 | when the continue function refuses every path, nothing is attempted, nothing is reported, and the result is NoError |
| FileOperations.BatchUnrefusedSucceeds | src/shared/fileoperations.cpp:146-173 | a batch during which the continue function never said "stop" skipped nothing: the succeeded paths are exactly those before the breaking index |
| FileOperations.CreateDirectory | src/shared/fileoperations.cpp:248-263 | one mkdir of the name inside the directory, reported once under that name with its outcome; the result is NoError on success and ErrorFolderCreationFailed otherwise |
| FileOperations.RenameFile | src/shared/fileoperations.cpp:265-280 | one rename, reported once with its outcome; the result is NoError or ErrorRenameFailed |
| FileOperations.ChmodFile | src/shared/fileoperations.cpp:282-297 | one setPermissions with the mask, reported once with its outcome; the result is NoError or ErrorChmodFailed |
| Daemon.ContinueAfterCancel | src/daemon/fileoperationsservice.cpp:57-80 | once a response is cancelled, continueOperation answers "stop", records ErrorOperationCancelled and keeps the paths; before that it answers "go on" and leaves the response as it was |
| Daemon.NotificationsShape | src/daemon/fileoperationsservice.cpp:264-284 | a retired response announces exactly one Finished, last; Succeeded appears exactly when there are succeeded paths and Failed exactly when there are failed paths |
| Daemon.FileOperationsService.constructor | src/daemon/fileoperationsservice.cpp:94-115 | no handle issued, nothing queued, no response, no linger timer running, service not finished |
| Daemon.FileOperationsService.EnqueueRequest | src/daemon/fileoperationsservice.cpp:216-254 | the handle is the counter plus one and is new to the map; it gets a fresh response. A valid request is queued so that it is taken after every earlier one. An invalid request is not queued: its response fails all its paths with ErrorInvalidRequest and its completion is signalled. The timer is always stopped, and the queue invariant is kept |
| Daemon.FileOperationsService.Copy | src/daemon/fileoperationsservice.cpp:117-126 | a copy request for the paths and destination is accepted under a new handle and queued last in take order |
| Daemon.FileOperationsService.Move | src/daemon/fileoperationsservice.cpp:128-137 | a move request is accepted under a new handle and queued last in take order |
| Daemon.FileOperationsService.Delete | src/daemon/fileoperationsservice.cpp:139-147 | a delete request is accepted under a new handle and queued last in take order |
| Daemon.FileOperationsService.Mkdir | src/daemon/fileoperationsservice.cpp:149-158 | a mkdir request for the one path is accepted under a new handle |
| Daemon.FileOperationsService.Rename | src/daemon/fileoperationsservice.cpp:160-169 | a rename request is accepted under a new handle |
| Daemon.FileOperationsService.SetPermissions | src/daemon/fileoperationsservice.cpp:171-180 | a set-permissions request with the mask is accepted under a new handle |
| Daemon.FileOperationsService.FindRequest | src/daemon/fileoperationsservice.cpp:195-197 | the first queue position holding the handle, or -1 exactly when no queued request has it |
| Daemon.FileOperationsService.Cancel | src/daemon/fileoperationsservice.cpp:182-214 | an unknown handle changes nothing. A queued request is taken out of the queue, and no other request is; its response fails all its paths with ErrorOperationCancelled, and its completion is signalled. An in-flight request only has its response flagged as cancelled |
| Daemon.FileOperationsService.RequestFinished | src/daemon/fileoperationsservice.cpp:256-290 | a known response is removed and announced (Succeeded, Failed, then Finished); the linger timer starts once no response remains; the handle joins the retired ones; an unknown id announces nothing and changes nothing |
| Daemon.FileOperationsService.ProcessStep | src/daemon/fileoperationsservice.cpp:292-328 | a finished service makes the worker exit without taking anything; an empty queue makes it wait; otherwise it takes the oldest pending request, which becomes in flight |
| Daemon.FileOperationsService.Complete | src/daemon/fileoperationsservice.cpp:310-323 | the worker's completion of a taken request signals requestCompleted for it and changes nothing else, since processOperation does nothing |
| Daemon.FileOperationsService.TimerEvent | src/daemon/fileoperationsservice.cpp:336-352 | expiry of the running linger timer stops it and finishes the service; without a running timer nothing happens |
| Daemon.FifoScenario | src/daemon/fileoperationsservice.cpp:239-307 | two valid requests enqueued and two worker steps take the first request and then the second, with increasing handles |
| PluginFileWorker.BatchPartition | src/plugin/fileworker.cpp:290-297 | run's pathResult callback collects the batch's succeeded paths in order, and exactly the paths from the breaking index on as failed |
| PluginFileWorker.RunErrorNamesFailingPath | src/plugin/fileworker.cpp:325-338 | a run that closes with an error names the path the batch broke at, which is the first path reported failed, and carries a code of the mode's batch |
| PluginFileWorker.RunDoneMeansAllSucceeded | src/plugin/fileworker.cpp:325-338 | a run that closes with done had every path succeed, in input order, and none fail; a cancel made before the run, or after the engine returned, always closes the run with cancelled |
| PluginFileWorker.FileWorker.constructor | src/plugin/fileworker.cpp:40-52 | idle, no operation, keep-running flag, not running |
| PluginFileWorker.FileWorker.SetMode | src/plugin/fileworker.cpp:69-75 | the mode is set, and modeChanged is emitted only when the value actually changed |
| PluginFileWorker.FileWorker.HandleFinished | src/plugin/fileworker.cpp:58-62 | the operation handle is cleared and the mode becomes Idle |
| PluginFileWorker.FileWorker.ThreadFinished | src/plugin/fileworker.cpp:58-62 | after the thread ends the worker is not running, holds no operation and is idle |
| PluginFileWorker.FileWorker.ValidateFileNames | src/plugin/fileworker.cpp:352-361 | true exactly when no name is empty |
| PluginFileWorker.FileWorker.StartOperation | src/plugin/fileworker.cpp:197-240 | a local operation starts the thread; a remote one sends the request for the worker's mode to the daemon and keeps the handle it replies with, or none when the call failed |
| PluginFileWorker.FileWorker.Start | src/plugin/fileworker.cpp:77-133 | with an operation in progress (thread running or handle set), ErrorOperationInProgress is emitted and nothing else changes; a list with an empty name emits ErrorInvalidRequest and changes nothing else; otherwise the mode, names and destination are set, the flag is reset to keep-running, and the operation starts |
| PluginFileWorker.FileWorker.StartDeleteFiles | src/plugin/fileworker.cpp:77-93 | the start guards of Start, then DeleteMode with the names, a cleared flag and the operation started; the destination is untouched |
| PluginFileWorker.FileWorker.StartCopyFiles | src/plugin/fileworker.cpp:95-113 | the start guards, then CopyMode with the names and the destination, a cleared flag and the operation started |
| PluginFileWorker.FileWorker.StartMoveFiles | src/plugin/fileworker.cpp:115-133 | the start guards, then MoveMode with the names and the destination, a cleared flag and the operation started |
| PluginFileWorker.FileWorker.Cancel | src/plugin/fileworker.cpp:135-142 | with a remote handle the cancel goes to the daemon and the flag is untouched; otherwise the flag is raised exactly when the thread runs |
| PluginFileWorker.FileWorker.FileOperationFailed | src/plugin/fileworker.cpp:242-261 | for another handle nothing happens; for the current one the worker goes idle with no handle and emits cancelled for ErrorOperationCancelled, and otherwise the error with the first path, or "" when there is none |
| PluginFileWorker.FileWorker.FileOperationSucceeded | src/plugin/fileworker.cpp:263-273 | for the current handle in DeleteMode, one fileDeleted per path, in order; otherwise nothing |
| PluginFileWorker.FileWorker.OperationFinished | src/plugin/fileworker.cpp:275-284 | for the current handle the worker goes idle with no handle and emits done; for another handle nothing happens |
| PluginFileWorker.FileWorker.EmitDeleted | src/plugin/fileworker.cpp:319-323 | one fileDeleted per path, in order, and nothing else changes |
| PluginFileWorker.FileWorker.Partition | src/plugin/fileworker.cpp:291-297 | the reports split into the paths reported true and the paths reported false, each in report order |
| PluginFileWorker.FileWorker.Run | src/plugin/fileworker.cpp:286-339 | IdleMode does nothing. Otherwise the mode's engine batch runs with "flag still clear" as its continue function. In DeleteMode the succeeded paths are announced. Exactly one closing signal follows (cancelled, done or the error); a seen cancel resets the flag |
| PluginFileWorker.FileWorker.RunBatch | src/plugin/fileworker.cpp:301-317 | the engine call for the mode is deleteFiles, moveFiles or copyFiles on the worker's names and destination |
| PluginFileWorker.FileWorker.EmitClosing | src/plugin/fileworker.cpp:325-338 | one closing signal: cancelled when a cancel was seen, which also resets the flag; else done for NoError; else the error with the first failed path |
| PluginFileWorker.FileWorker.Mkdir | src/plugin/fileworker.cpp:144-148 | the local mkdir succeeds exactly when the engine's mkdir of the name inside the path does |
| PluginFileWorker.FileWorker.Rename | src/plugin/fileworker.cpp:160-164 | the local rename succeeds exactly when the engine's rename does |
| PluginFileWorker.FileWorker.SetPermissions | src/plugin/fileworker.cpp:176-180 | the local chmod succeeds exactly when setting that mask does |
| LegacyFileWorker.LegacySignals | src/fileworker.cpp:190-271 | a run's signals are one fileDeleted per file handled (only when deleting), in input order, followed by the closing signals |
| LegacyFileWorker.LegacyClosing | src/fileworker.cpp:190-271 | the run closes with exactly one of: done, only when every file was handled; cancelled, when the flag check stopped it; or an error naming the file the loop stopped at, with a code of the action, possibly preceded by the cancelled that the folder copy emitted itself |
| LegacyFileWorker.DeleteNoInnerCancel | src/fileworker.cpp:170-188 | deleting a file makes no cancel check, so it never emits its own cancelled |
| LegacyFileWorker.MoveStepNoInnerCancel | src/fileworker.cpp:234-250 | a move step makes no cancel check, so it never emits its own cancelled |
| LegacyFileWorker.CopyOverwriteNoInnerCancel | src/fileworker.cpp:337-355 | copyOverwrite makes no cancel check, so it never emits its own cancelled |
| LegacyFileWorker.FileWorker.constructor | src/fileworker.cpp:37-43 | idle, keep-running flag, not running |
| LegacyFileWorker.FileWorker.SetMode | src/fileworker.cpp:59-65 | the mode is set, and modeChanged is emitted only on an actual change |
| LegacyFileWorker.FileWorker.ThreadFinished | src/fileworker.cpp:49-52 | after the thread ends the worker is not running and is idle |
| LegacyFileWorker.FileWorker.ValidateFileNames | src/fileworker.cpp:159-168 | true exactly when no name is empty |
| LegacyFileWorker.FileWorker.Start | src/fileworker.cpp:67-117 | while the thread runs, ErrorOperationInProgress is emitted and nothing else changes; a list with an empty name is ignored with no signal and no mode change; otherwise the mode, names and destination are set, the flag is cleared and the thread starts |
| LegacyFileWorker.FileWorker.StartDeleteFiles | src/fileworker.cpp:67-81 | while the thread runs, ErrorOperationInProgress is the only change; a list with an empty name changes nothing and the thread stays stopped; otherwise DeleteMode with the names and the thread started; the destination is untouched |
| LegacyFileWorker.FileWorker.StartCopyFiles | src/fileworker.cpp:83-99 | while the thread runs, ErrorOperationInProgress is the only change; a list with an empty name changes nothing and the thread stays stopped; otherwise CopyMode with the names and destination and the thread started |
| LegacyFileWorker.FileWorker.StartMoveFiles | src/fileworker.cpp:101-117 | while the thread runs, ErrorOperationInProgress is the only change; a list with an empty name changes nothing and the thread stays stopped; otherwise MoveMode with the names and destination and the thread started |
| LegacyFileWorker.FileWorker.Cancel | src/fileworker.cpp:119-122 | the flag is raised whether or not the thread runs, and nothing else changes |
| LegacyFileWorker.FileWorker.CopyDirRecursively | src/fileworker.cpp:273-335 | the same folder copy as the shared engine, with the flag as its continue check, and cancelled is emitted exactly when that check stopped it |
| LegacyFileWorker.FileWorker.DeleteOne | src/fileworker.cpp:170-188 | deleteFile has the branches of the shared engine's deleteFile and emits nothing |
| LegacyFileWorker.FileWorker.DeleteFilesOf | src/fileworker.cpp:190-214 | the deleteFiles loop computes exactly the legacy loop specification with the delete step and fileDeleted announcements |
| LegacyFileWorker.FileWorker.MoveOne | src/fileworker.cpp:234-250 | the MoveMode branch: a link is recreated at the target and removed, anything else renamed, with ErrorMoveFailed on failure |
| LegacyFileWorker.FileWorker.CopyOne | src/fileworker.cpp:252-264 | the CopyMode branch: a folder is copied recursively (ErrorFolderCopyFailed), anything else by copyOverwrite (ErrorCopyFailed); a successful copy emits nothing |
| LegacyFileWorker.FileWorker.CopyOrMoveOne | src/fileworker.cpp:229-265 | one file of copyOrMoveFiles is the move or the copy branch, as the mode says |
| LegacyFileWorker.FileWorker.CopyOrMoveFilesOf | src/fileworker.cpp:216-271 | the copyOrMoveFiles loop computes exactly the legacy loop specification with the copy or move step |
| LegacyFileWorker.FileWorker.Run | src/fileworker.cpp:142-157 | the loop for the worker's mode, reading the flag before each file; IdleMode does nothing |
| PluginFileEngine.WithoutSystemKeeps | src/plugin/fileengine.cpp:87-95 | the kept names are exactly the given names that are not special files, in their original order |
| PluginFileEngine.PasteConflictFirst | src/plugin/fileengine.cpp:120-140 | there is no conflict exactly when every file passes both checks; otherwise the conflict names the first file that fails, with that file's error |
| PluginFileEngine.SiblingWithSharedPrefixRefused | src/plugin/fileengine.cpp:124-128 | the into-itself test is a plain string prefix test: pasting /a/b into /a/bc is refused as a copy into itself |
| PluginFileEngine.PasteDecisionMeaning | src/plugin/fileengine.cpp:105-154 | a paste is launched exactly when the clipboard is non-empty, the destination exists and no file has a conflict; a rejection names a clipboard file with its error, and the error is ErrorCannotCopyIntoItself exactly when the target starts with the source |
| PluginFileEngine.RenameTargetPlacement | src/plugin/fileengine.cpp:183-195 | a plain new name becomes the file name of the target, which lies in the old file's directory |
| PluginFileEngine.FileEngine.constructor | src/plugin/fileengine.cpp:44-49 | empty clipboard, not a copy, no worker yet |
| PluginFileEngine.FileEngine.Mode | src/plugin/fileengine.cpp:60-63 | Idle while there is no worker, otherwise the worker's mode |
| PluginFileEngine.FileEngine.Busy | src/plugin/fileengine.cpp:65-68 | busy exactly when there is a worker and its thread is running |
| PluginFileEngine.FileEngine.EnsureWorker | src/plugin/fileengine.cpp:236-251 | an existing worker is kept; otherwise a fresh idle worker is created; the clipboard is untouched |
| PluginFileEngine.FileEngine.DeleteFiles | src/plugin/fileengine.cpp:70-74 | the worker, created if need be, gets the delete request: while busy its only change is ErrorOperationInProgress, for a list with an empty name its only change is ErrorInvalidRequest (a new worker otherwise keeps its initial state), and otherwise it holds DeleteMode and the names; the clipboard is untouched |
| PluginFileEngine.FileEngine.CutFiles | src/plugin/fileengine.cpp:76-83 | the clipboard holds exactly the names, not as a copy, with the three change signals |
| PluginFileEngine.FileEngine.DropSystemFiles | src/plugin/fileengine.cpp:87-95 | the in-place removal leaves exactly the names that are not special files, in order |
| PluginFileEngine.FileEngine.CopyFiles | src/plugin/fileengine.cpp:85-103 | when something is left after dropping special files, the clipboard becomes it, as a copy; otherwise the clipboard and its flag are untouched and nothing is signalled |
| PluginFileEngine.FileEngine.FindConflict | src/plugin/fileengine.cpp:120-140 | the check loop finds the first clipboard file whose target is itself or under it, or already exists |
| PluginFileEngine.FileEngine.PasteFiles | src/plugin/fileengine.cpp:105-154 | an empty clipboard or a missing destination does nothing; a failed check emits its error and keeps the clipboard and the worker; otherwise the clipboard is cleared and the worker is asked to copy or move the files, as the clipboard's flag says, with the outcomes of LaunchPaste |
| PluginFileEngine.FileEngine.LaunchPaste | src/plugin/fileengine.cpp:142-153 | the clipboard is cleared and the worker created if need be. A busy worker's only change is ErrorOperationInProgress; for a list with an empty name the worker's only change is ErrorInvalidRequest (a new worker otherwise keeps its initial state); otherwise the worker holds the copy or move mode the flag selects, the files and the destination |
| PluginFileEngine.FileEngine.Cancel | src/plugin/fileengine.cpp:156-161 | the cancel is passed to the worker when there is one, with the worker's cancel routing |
| PluginFileEngine.FileEngine.Exists | src/plugin/fileengine.cpp:163-170 | a name exists exactly when it is not empty and QFile::exists holds for it |
| PluginFileEngine.FileEngine.Mkdir | src/plugin/fileengine.cpp:172-181 | true exactly when the mkdir succeeded; a failure emits ErrorFolderCreationFailed under the new folder's name |
| PluginFileEngine.FileEngine.Rename | src/plugin/fileengine.cpp:183-195 | true exactly when the rename into the old file's directory succeeded; a failure emits ErrorRenameFailed under the old file's name |
| PluginFileEngine.FileEngine.Chmod | src/plugin/fileengine.cpp:197-219 | true exactly when setting the mask of exactly the given flags succeeded; a failure emits ErrorChmodFailed under the path |
| LegacyFileEngine.PasteCheckMeaning | src/fileengine.cpp:128-143 | the paste goes ahead exactly when no target starts with its source; a rejection names a file whose target lies strictly under it; an existing target never stops the paste |
| LegacyFileEngine.OwnPathIsSilent | src/fileengine.cpp:132-136 | when the first file would land on its own path, the paste ends with no signal at all |
| LegacyFileEngine.FileEngine.constructor | src/fileengine.cpp:46-62 | empty clipboard, not a copy, and a fresh idle worker |
| LegacyFileEngine.FileEngine.Busy | src/fileengine.cpp:76-79 | busy exactly when the worker's thread runs |
| LegacyFileEngine.FileEngine.DeleteFiles | src/fileengine.cpp:81-84 | the names go straight to the worker's delete start: while it runs, ErrorOperationInProgress is its only change; a list with an empty name changes nothing and leaves it stopped; otherwise DeleteMode with the names and the thread running |
| LegacyFileEngine.FileEngine.CutFiles | src/fileengine.cpp:86-92 | the clipboard holds exactly the names, not as a copy |
| LegacyFileEngine.FileEngine.CopyFiles | src/fileengine.cpp:94-111 | special files are dropped; the clipboard becomes the rest, as a copy, only when something is left |
| LegacyFileEngine.FileEngine.CheckFiles | src/fileengine.cpp:128-143 | the check loop computes the paste verdict: silent stop, rejection or launch |
| LegacyFileEngine.FileEngine.PasteFiles | src/fileengine.cpp:113-154 | an empty clipboard, a missing destination or a file pasted onto itself do nothing; a target under its source emits ErrorCannotCopyIntoItself and keeps the clipboard; otherwise the clipboard is cleared and the worker asked to start: a running worker's only change is ErrorOperationInProgress, a list with an empty name changes nothing, and otherwise the worker runs the copy or move with the files and destination |
| LegacyFileEngine.FileEngine.Cancel | src/fileengine.cpp:156-159 | the worker's flag is raised |
| LegacyFileEngine.FileEngine.Mkdir | src/fileengine.cpp:170-180 | true exactly when the mkdir succeeded; a failure emits ErrorFolderCreationFailed with the name |
| LegacyFileEngine.FileEngine.Rename | src/fileengine.cpp:182-194 | true exactly when the rename succeeded; a failure emits ErrorRenameFailed with the old file's name |
| LegacyFileEngine.FileEngine.Chmod | src/fileengine.cpp:196-217 | true exactly when setting the mask of exactly the given flags succeeded; a failure emits ErrorChmodFailed |
| Common.PermissionMaskExact | src/plugin/fileengine.cpp:204-215 | the mask holds exactly the bits whose flag is set: each of the nine flags reads back unchanged, and no other bit is ever set |
| Common.PermissionMaskInjective | src/fileengine.cpp:203-214 | two different flag sets never give the same mask |
| Common.IndexOf | src/plugin/diskusage_impl.cpp:97-98 | the first position of the character, or -1 exactly when it does not occur |
| Common.FileNameIsLastComponent | src/shared/fileoperations.cpp:151-152 | a file name holds no separator and is what the path ends with |
| Common.JoinFileName | src/shared/fileoperations.cpp:151-152 | a plain name joined under a directory is the file name of the result |
| Common.Split | src/plugin/diskusage_impl.cpp:72 | QString::split keeping empty parts: always at least one piece, and no piece holds the separator |
| Common.SplitJoinRoundTrip | src/plugin/diskusage_impl.cpp:72-73 | joining the split pieces again with the separator gives back the text |
| Common.NonEmpty | src/plugin/diskusage_impl.cpp:93 | SkipEmptyParts keeps only non-empty pieces, all taken from the input |
| Common.ToULongLong | src/plugin/diskusage_impl.cpp:75 | the parse always fits in 64 bits and is 0 for empty or non-numeric text |
| FileModel.SelectedPathsMatchCount | src/filemodel.cpp:372-383 | there is one selected path per selected entry, and each is the path of a selected entry |
| FileModel.SelectedCountFlip | src/filemodel.cpp:317-329 | flipping one entry's flag moves the count by exactly one |
| FileModel.SelectedCountUniform | src/filemodel.cpp:338-370 | entries all deselected count nothing; entries all selected count every entry |
| FileModel.WithSelection | src/filemodel.cpp:338-370 | every entry gets the flag; order, length and paths are kept |
| FileModel.VisibleNamesMeaning | src/filemodel.cpp:66-82 | exactly the names that do not start with "qt_temp." are kept, and there are no more of them than in the listing |
| FileModel.EntriesOf | src/filemodel.cpp:66-82 | one unselected entry per visible name, under the directory, in listing order |
| FileModel.DirectoryFlagsMeaning | src/filemodel.cpp:517-561 | the sort flags are LocaleAware plus exactly the key chosen; Reversed exactly for a descending order; IgnoreCase exactly for case-insensitive sorting; DirsFirst and DirsLast never together; directories are listed exactly when included |
| FileModel.FileModel.constructor | src/filemodel.cpp:86-101 | an empty, inactive, clean model whose count invariant holds |
| FileModel.FileModel.FileNameAt | src/filemodel.cpp:309-315 | the entry's absolute path, or "" for an index outside the list |
| FileModel.FileModel.ToggleSelectedFile | src/filemodel.cpp:317-336 | exactly that entry's flag flips, the count moves by one and keeps matching the list, and every other entry is unchanged |
| FileModel.FileModel.SetAllSelected | src/filemodel.cpp:338-370 | every entry gets the flag, with one dataChanged per row in order |
| FileModel.FileModel.ClearSelectedFiles | src/filemodel.cpp:338-353 | nothing stays selected and the count is 0; the length and order of the list are kept |
| FileModel.FileModel.SelectAllFiles | src/filemodel.cpp:355-370 | everything is selected and the count equals the list length; the length and order are kept |
| FileModel.FileModel.SelectedFiles | src/filemodel.cpp:372-383 | nothing when the count is 0; otherwise the absolute paths of the selected entries in list order |
| FileModel.FileModel.RecountSelectedFiles | src/filemodel.cpp:422-433 | the count invariant is re-established, and a change is signalled only when the count moved |
| FileModel.FileModel.DirectoryEntries | src/filemodel.cpp:66-82 | the listing without qt_temp.* names, as unselected entries, in order |
| FileModel.FileModel.ReadDirectory | src/filemodel.cpp:407-450 | the list is rebuilt from the listing: empty for an empty path, a missing directory or one without read permission (the last also reported); the count invariant is re-established |
| FileModel.FileModel.ClearModel | src/filemodel.cpp:509-515 | the list is emptied with a reset and a count change |
| FileModel.FileModel.RefreshEntries | src/filemodel.cpp:452-485 | an empty path, a missing directory or one without read permission (reported) empties the list; otherwise the list becomes the synchronised one and the count invariant is re-established |
| FileModel.FileModel.Refresh | src/filemodel.cpp:385-394 | while inactive only the dirty flag is set; while active the model is clean and refreshEntries' outcome holds: an empty path, a missing or an unreadable directory empties the list, keeps the selected count and emits the reset and count signals (then the read error for an unreadable one); otherwise the synchronised list, with countChanged and selectedCountChanged only on a change |
| FileModel.FileModel.RefreshFull | src/filemodel.cpp:396-405 | while inactive only the dirty flag is set; while active the directory is reread as readDirectory does, with its list and its signals (the read error first, then the reset, count and, for a non-zero old count, selected-count signals), and the model is clean |
| FileModel.FileModel.SetActive | src/filemodel.cpp:285-297 | a change of value emits activeChanged and rereads the directory, with readDirectory's list and signals, only if a refresh was missed; it always leaves the model clean; the same value changes nothing |
| FileModel.FileModel.InsertRange | src/filemodel.cpp:487-496 | exactly the count entries of the source from sourceIndex go in, in order, at the index; the result is the count |
| FileModel.FileModel.RemoveRange | src/filemodel.cpp:498-507 | exactly count entries from the index are removed and the rest are kept in order; the result is 0 |
| DiskUsage.MeasurePlacement | src/plugin/diskusage.cpp:100-116 | ":rpm:X" is placed at /usr/:rpm:X, ":apkd:runtime" at /opt/appsupport, any other ":apkd:R" at /home/.appsupport/R, a directory at its tilde expansion, whatever the apkd cache holds |
| DiskUsage.Gather | src/plugin/diskusage.cpp:94-124 | the first loop handles the paths from where it stands up to at most the end of the input |
| DiskUsage.GatherLinked | src/plugin/diskusage.cpp:94-124 | the first loop keeps the three maps consistent: each handled path has its expansion recorded, and each expansion maps back to a handled path placed there |
| DiskUsage.GatherMeaning | src/plugin/diskusage.cpp:94-124 | the first loop records exactly the handled prefix of the input, stopping right after the first path during which a quit was seen |
| DiskUsage.Dedup | src/plugin/diskusage.cpp:147 | the distinct processed paths, each once |
| DiskUsage.ExpandAll | src/plugin/diskusage.cpp:148-150 | each key maps to its expansion, or to itself when it has none |
| DiskUsage.InnerKeeps | src/plugin/diskusage.cpp:157-163 | an entry no later enclosing key maps to is left alone by one pass of the inner loop |
| DiskUsage.OuterKeeps | src/plugin/diskusage.cpp:152-165 | an entry no enclosing key maps to is left alone by the whole nested loop |
| DiskUsage.SortedKeysRecorded | src/plugin/diskusage.cpp:147-151 | every sorted key is the expansion of a handled path |
| DiskUsage.ResultKeys | src/plugin/diskusage.cpp:94-168 | calculate returns one entry per distinct handled input path and nothing else, and the loop stops right after the first path during which a quit was seen |
| DiskUsage.LeafKeepsSize | src/plugin/diskusage.cpp:152-165 | a handled path not placed at the root, with no handled path placed strictly under it, keeps its measured size, whether or not originalPaths names it for its expansion |
| DiskUsage.ChainSorted | src/plugin/diskusage.cpp:147-151 | a directory, its parent and the root sort as child, parent, root, whatever the input order |
| DiskUsage.NestedChain | src/plugin/diskusage.cpp:126-165 | for a chain child, parent, root the results are the child's size, the parent minus the child, and the root minus the parent, as calculate's comment derives |
| DiskUsage.DiskUsageWorker.constructor | src/plugin/diskusage.cpp:44-49 | no stop request and an empty apkd cache |
| DiskUsage.DiskUsageWorker.CalculateApkdSize | src/plugin/diskusage_impl.cpp:108-140 | apkd is asked once and its answer kept; the figure for the category comes from the kept answer |
| DiskUsage.DiskUsageWorker.Counting | src/plugin/diskusage.cpp:65-85 | 0 for a path that is not an existing directory; otherwise entries are counted until the stop flag is seen before one, and the flag is cleared |
| DiskUsage.DiskUsageWorker.Calculate | src/plugin/diskusage.cpp:87-168 | the method computes exactly the result specification (measurement, expansion, descending sort and nested subtraction), keeping the apkd cache the first loop leaves |
| DiskUsage.DiskUsageWorker.SubtractEnclosed | src/plugin/diskusage.cpp:152-165 | the nested index loop computes exactly the subtraction specification |
| DiskUsage.DiskUsage.constructor | src/plugin/diskusage.cpp:230-234 | idle, not working, empty result |
| DiskUsage.DiskUsage.SetStatus | src/plugin/diskusage.cpp:324-332 | the status is set, and statusChanged is emitted only on a change |
| DiskUsage.DiskUsage.SetWorking | src/plugin/diskusage.cpp:309-316 | working is set, and workingChanged is emitted only on a change |
| DiskUsage.DiskUsage.Calculate | src/plugin/diskusage.cpp:240-251 | status Calculating and working before the request goes to the worker |
| DiskUsage.DiskUsage.FileCount | src/plugin/diskusage.cpp:253-263 | status Counting; working is not touched |
| DiskUsage.DiskUsage.Finished | src/plugin/diskusage.cpp:265-282 | the result is stored and announced, then the status is Idle and working false |
| DiskUsage.DiskUsage.CountingFinished | src/plugin/diskusage.cpp:284-295 | back to Idle; working and the result are kept |
| DiskUsageSizes.ExpandTilde | src/plugin/diskusage_impl.cpp:48-54 | a leading "~/" becomes the home directory, "/" and the rest; any other path is unchanged |
| DiskUsageSizes.DuSizeMeaning | src/plugin/diskusage_impl.cpp:72-78 | with a tab in the output the size is 1024 times the number before the first tab, modulo 2^64; without one it is 0 |
| DiskUsageSizes.CalculateSize | src/plugin/diskusage_impl.cpp:45-79 | the expanded path is returned; a missing or unreadable directory, or du exiting abnormally, gives 0 |
| DiskUsageSizes.RpmSumNoWrap | src/plugin/diskusage_impl.cpp:93-105 | while the total fits in 64 bits the quint64 sum of the lines is their plain sum |
| DiskUsageSizes.UnparsableLineIgnored | src/plugin/diskusage_impl.cpp:97-100 | a line without '\|' adds nothing: removing it from the output leaves the sum as it was |
| DiskUsageSizes.CalculateRpmSize | src/plugin/diskusage_impl.cpp:81-106 | the loop computes the sum over the non-empty lines of the number after each line's first '\|', skipping lines without one; an abnormal exit gives 0 |
| DiskUsageSizes.ApkdQuery | src/plugin/diskusage_impl.cpp:110-128 | after the query step the cache is marked queried, and a cache already queried is left exactly as it was |
| DiskUsageSizes.ApkdQueriedOnce | src/plugin/diskusage_impl.cpp:110-139 | once queried the cache never changes, whatever apkd would answer; a first valid reply stores app, data plus cache, and the runtime size; an unknown category is 0 |
| StringOrder.LessTotal | src/plugin/diskusage.cpp:149 | QString comparison orders any two different strings one way or the other |
| StringOrder.LessTransitive | src/plugin/diskusage.cpp:149 | QString comparison is transitive |
| StringOrder.ProperPrefixIsLess | src/plugin/diskusage.cpp:149 | a string sorts before every longer string that starts with it |
| StringOrder.SortDescMeaning | src/plugin/diskusage.cpp:149 | the stable sort with qGreater gives the same keys in descending order |
| StringOrder.DescendingUnique | src/plugin/diskusage.cpp:149 | there is only one descending arrangement of a collection of keys |
| StringOrder.ChildBeforeParent | src/plugin/diskusage.cpp:149-165 | in the sorted keys a path lies before every path that is a proper prefix of it, so a child is handled before its parents |
| StringOrder.SortByMeaning | src/plugin/archivemodel.cpp:170 | the sort by compare gives the same entries, with no entry followed by one that compare puts first |
| ArchiveModel.FoldCase | src/plugin/archivemodel.cpp:62 | case folding keeps the length and folds each character |
| ArchiveModel.CompareIsKeyOrder | src/plugin/archivemodel.cpp:53-63 | compare is exactly "kind mark and folded name less than", so it is a strict weak order std::sort may use |
| ArchiveModel.CompareMeaning | src/plugin/archivemodel.cpp:53-63 | a directory comes before a file and never after one; no entry comes before itself or its own case variant; compare is asymmetric |
| ArchiveModel.SortEntriesMeaning | src/plugin/archivemodel.cpp:170 | the sorted list holds the same entries, with no entry followed by one compare puts first |
| ArchiveModel.EntryNames | src/plugin/archivemodel.cpp:162 | one name per entry of the directory, in order |
| ArchiveModel.ListedChildren | src/plugin/archivemodel.cpp:162-169 | when the directory resolves each of its entries' names to that entry, the lookup loop lists exactly its entries and none is missing |
| ArchiveModel.DirectoryListing | src/plugin/archivemodel.cpp:160-176 | the listing holds every entry of the directory once, directories first and names in case-insensitive order |
| ArchiveModel.FilesFrom | src/plugin/archivemodel.cpp:179-192 | the files collected from the tree are all files |
| ArchiveModel.SpaceIsFileSizes | src/plugin/archivemodel.cpp:179-192 | the space requirement of a tree is the total size of all its files, however deep |
| ArchiveModel.TextMarks | src/plugin/archivemodel.cpp:116-136 | each mapped error's text is longer than 16 characters and its first and seventeenth characters are fixed by the state |
| ArchiveModel.ErrorTextMeaning | src/plugin/archivemodel.cpp:107-141 | the five mapped error states each get a non-empty text of their own, different from every other state's whatever the file; NoError clears the text; any other state keeps the previous text |
| ArchiveModel.FindIndex | src/plugin/archivemodel.cpp:321-328 | the first row whose entry has the name, or -1 exactly when no entry has it |
| ArchiveModel.WithSeparator | src/plugin/archivemodel.cpp:305-308 | the path ends with a separator and starts with the original; one is added only when missing |
| ArchiveModel.WithSeparatorIdempotent | src/plugin/archivemodel.cpp:654-657 | adding the separator twice is adding it once |
| ArchiveModel.ArchiveModel.constructor | src/plugin/archivemodel.cpp:87-105 | Null status, no error, root path, nothing open, listed or extracted |
| ArchiveModel.ArchiveModel.SetStatus | src/plugin/archivemodel.cpp:107-141 | the status and the error state are set; the text is cleared for NoError, set for a mapped error and kept otherwise; each change signal is emitted only on an actual change; the listing is untouched |
| ArchiveModel.ArchiveModel.ListEntries | src/plugin/archivemodel.cpp:162-169 | the lookup loop lists the entries in turn until the first name the directory does not resolve, and says whether that happened |
| ArchiveModel.ArchiveModel.UpdateDirectory | src/plugin/archivemodel.cpp:143-177 | with no current directory, Error with ErrorArchiveFileNoSet; with a path that is missing or not a directory, Error with ErrorInvalidArchivePath and the listing untouched; otherwise the directory becomes current, its entries are listed in compare order, and the model ends Ready |
| ArchiveModel.ArchiveModel.ListDirectory | src/plugin/archivemodel.cpp:158-176 | the resolved directory becomes current and its entries are listed in compare order, ending Ready |
| ArchiveModel.ArchiveModel.AddSpaceOf | src/plugin/archivemodel.cpp:179-192 | every file size under the directory is added to the required space, and nothing else changes |
| ArchiveModel.ArchiveModel.CalculateSpaceRequirement | src/plugin/archivemodel.cpp:194-202 | the sizes of all files in the archive are added to the required space without resetting it, and requiredSpaceChanged is signalled exactly when that changed the figure; the listing, job, status and error are untouched |
| ArchiveModel.ArchiveModel.ScheduleExtract | src/plugin/archivemodel.cpp:238-319 | status Extracting with no error, extracting on, and the job records the entry, the target with a trailing separator, and the mode |
| ArchiveModel.ArchiveModel.FinishExtraction | src/plugin/archivemodel.cpp:241-302 | the status follows the error state, extracting ends, and a single file extracted without error is recorded once, if it is still listed, with its row announced |
| ArchiveModel.ArchiveModel.ExtractAllFiles | src/plugin/archivemodel.cpp:682-698 | refused while extracting (Extracting, ErrorExtractingInProgress) and without an archive (Error, ErrorArchiveFileNoSet); otherwise the whole archive is scheduled to the target |
| ArchiveModel.ArchiveModel.ExtractFile | src/plugin/archivemodel.cpp:700-720 | refused while extracting; without a current directory nothing starts, and only a missing archive is reported; otherwise that entry is scheduled |
| ArchiveModel.ArchiveModel.CleanExtractedEntry | src/plugin/archivemodel.cpp:722-740 | refused while extracting (Extracting, ErrorExtractingInProgress); otherwise the record goes exactly when the entry is both recorded and listed, and the call succeeds |
| ArchiveModel.ArchiveModel.SetPath | src/plugin/archivemodel.cpp:518-536 | ignored while extracting or for the same path; a new path is stored and announced last; before the archive is populated nothing else changes; once it is, the directory is relisted as updateDirectory does (ErrorArchiveFileNoSet without a directory, ErrorInvalidArchivePath for a path that is not a directory, else the entries in compare order and Ready) |
| ArchiveModel.ArchiveModel.AppendPath | src/plugin/archivemodel.cpp:645-675 | the path with a trailing separator and the name, when the current directory holds a directory of that name; otherwise "" with ErrorInvalidArchiveEntry for a missing entry, ErrorInvalidArchivePath for a file, or ErrorArchiveFileNoSet without a directory |

## Left out

- Threads, mutexes, wait conditions, atomics and queued signal delivery: the daemon's worker loop is one atomic step (`ProcessStep`), and a cancel arriving while a batch runs is an answer of the continue function in the history.
- Daemon.FileOperationsService.EnqueueRequest: the `unsigned` request counter is unbounded, so the wrap to 0 after 2^32 handles is not modelled.
- The daemon's `OperationResponse` starts with `error` uninitialised in the source; the model starts it as NoError, which the code never reads before it is set.
- D-Bus: the proxy calls are recorded as events, the reply handle is a parameter, and the deferred-reply watcher of startOperation (src/plugin/fileworker.cpp:232-237) is not modelled.
- waitForOperation (src/plugin/fileworker.cpp:341-350) and the nonprivileged branches of the plugin worker's mkdir, rename and setPermissions: a busy wait on D-Bus replies; the static functions model the local branch only.
- processOperation is empty in this daemon, so a request a worker takes is only completed, never run.
- FileOperations.CopyDirRecursively: the recursion depth is bounded by a `fuel` parameter and the copy fails when the fuel runs out; the source has no bound and may recurse without end when the destination lies inside the source.
- A null `pathResult` or `continueOperation`: the continue function's absence is the `hasCont` flag, but the engine always records reports (a missing callback would discard them).
- The real filesystem: byte copy, removeRecursively, QDir's locale-aware listing order and `access()` are answers of the oracle.
- StatFileInfo::isSystem is a parameter.
- Paths are absolute strings; QDir's canonicalisation of `.` and `..` is not modelled.
- FileModel: synchronizeList (not part of this model) is a parameter, `synced`, of RefreshEntries and Refresh.
- FileModel: setPath, appendPath, parentPath, the sort and filter setters, count, rowCount, data and roleNames are property and list-model plumbing and are not modelled; the flag mapping those setters feed is DirectoryFlagsMeaning.
- DiskUsage: the `du`, `rpm` and QStorageInfo queries and the apkd D-Bus call are inputs (their output text or reply); the QJSValue callbacks and the worker thread are left out.
- DiskUsage.Dedup: `usage.uniqueKeys()` returns the keys in QMap order; the model takes the processed paths without repeats in input order, which the sort that follows makes irrelevant.
- DiskUsage: reading `usage[...]` for a missing key inserts it in the source; the model reads 0 without inserting, and OuterKeys shows that only existing keys are written when every key has its original.
- DiskUsage: the `qlonglong` subtraction is on unbounded integers and its wrap-around is not modelled.
- Common.ToULongLong: it accepts only plain decimal digits; Qt's leading and trailing whitespace and a leading '+' are not accepted.
- StringOrder.Less: QString compares UTF-16 code units; the model compares Dafny characters.
- ArchiveModel.FoldCase: folds only ASCII letters, not Unicode case folding.
- ArchiveModel.ArchiveModel.AddSpaceOf: the `entries.sort()` and the re-lookup of each entry by name are not modelled, since a sum does not depend on order, and the `qint64` sum does not wrap.
- ArchiveModel: KArchive opening (open, setArchiveFile and the populatedChanged lambda), the extraction itself (doExtractFile, doExtractAllFiles, the QDirIterator and filesExtracted), QtConcurrent scheduling, QMimeDatabase, data() and roleNames are left out; the directory lookup KArchiveDirectory::entry is a parameter, `entryAt`.
- ArchiveModel.ArchiveModel.UpdateDirectory: as in the source, the model ends Ready with no error even when a lookup failed and the listing stopped early.
- The file watcher (src/plugin/filewatcher.cpp) is not part of this model.
