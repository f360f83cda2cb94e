/**
 * The plugin's FileWorker: a client-side state machine that starts a
 * delete, copy or move either on its own thread (running the shared engine)
 * or through the daemon, matches the daemon's result signals to the
 * operation it started, and turns an engine run into exactly one closing
 * signal (cancelled, done or error).
 *
 * The thread is modelled by the `running` flag and the engine run by the
 * Run method; D-Bus calls to the daemon are recorded as events, and the
 * daemon's reply to a start request is a parameter.
 */
module PluginFileWorker {
  import opened Common
  import opened FileOperations

  /** Signals emitted and daemon calls made, in order. */
  datatype WorkerEvent =
    | ModeChanged
    | ErrorSignal(error: Error, fileName: Path)
    | FileDeleted(path: Path)
    | Done
    | CancelledSignal
    | RemoteDelete(paths: seq<Path>)
    | RemoteMove(paths: seq<Path>, destination: Path)
    | RemoteCopy(paths: seq<Path>, destination: Path)
    | RemoteCancel(id: nat)

  /** One fileDeleted signal per path, in order. */
  function Deleted(paths: seq<Path>): (r: seq<WorkerEvent>)
    ensures |r| == |paths| && forall k :: 0 <= k < |paths| ==> r[k] == FileDeleted(paths[k])
  {
    seq(|paths|, k requires 0 <= k < |paths| => FileDeleted(paths[k]))
  }

  /** The paths reported with the given flag, in report order. */
  function PathsWith(reports: seq<(Path, bool)>, flag: bool): seq<Path> {
    if reports == [] then []
    else
      var last := reports[|reports| - 1];
      PathsWith(reports[..|reports| - 1], flag) + if last.1 == flag then [last.0] else []
  }

  lemma {:induction false} PathsWithAppend(a: seq<(Path, bool)>, b: seq<(Path, bool)>, flag: bool)
    ensures PathsWith(a + b, flag) == PathsWith(a, flag) + PathsWith(b, flag)
    decreases |b|
  {
    if b != [] {
      var b' := b[..|b| - 1];
      assert (a + b)[..|a + b| - 1] == a + b';
      PathsWithAppend(a, b', flag);
    } else {
      assert a + b == a;
    }
  }

  /** Reports that all carry one flag select all of their paths for it and none for the other. */
  lemma {:induction false} PathsWithUniform(ps: seq<Path>)
    ensures PathsWith(SucceedAll(ps), true) == ps && PathsWith(SucceedAll(ps), false) == []
    ensures PathsWith(FailAll(ps), false) == ps && PathsWith(FailAll(ps), true) == []
    decreases |ps|
  {
    if ps != [] {
      var p := ps[..|ps| - 1];
      assert SucceedAll(ps)[..|ps| - 1] == SucceedAll(p);
      assert FailAll(ps)[..|ps| - 1] == FailAll(p);
      PathsWithUniform(p);
      assert ps == p + [ps[|ps| - 1]];
    }
  }

  /** The continue function run() hands to the engine: go on while the cancel flag is clear. */
  function WorkerEnv(env: Env, keepRunning: bool): Env {
    env.(proceed := (g: History) => keepRunning && env.proceed(g))
  }

  /** The engine batch run() calls for a mode other than IdleMode. */
  function ModeAct(env: Env, mode: Mode, dest: Path, fuel: nat): Action
    requires mode != IdleMode
  {
    match mode
    case DeleteMode => DeleteAct(env)
    case MoveMode => MoveAct(env, dest)
    case CopyMode => CopyAct(env, dest, true, fuel)
  }

  /** The error codes each mode's batch can fail with. */
  function ModeCodes(mode: Mode): set<Error> {
    match mode
    case DeleteMode => {ErrorDeleteFailed}
    case MoveMode => {ErrorMoveFailed}
    case CopyMode => {ErrorFolderCopyFailed, ErrorCopyFailed}
    case IdleMode => {}
  }

  /** The one signal that closes a run. */
  function Closing(cancelled: bool, rv: Error, failed: seq<Path>): WorkerEvent {
    if cancelled then CancelledSignal
    else if rv == NoError then Done
    else ErrorSignal(rv, if failed == [] then "" else failed[0])
  }

  /** Whether a cancel was seen by the end of a run that started from history h. */
  function CancelSeen(wasCancelled: bool, lateCancel: bool, h: History, h': History): bool {
    wasCancelled || lateCancel || CountRefused(h') > CountRefused(h)
  }

  /** A batch's reports split into its succeeded paths and the paths from the breaking index on. */
  lemma BatchPartition(env: Env, h: History, paths: seq<Path>, hasCont: bool, act: Action)
    ensures var r := BatchSpec(env, h, paths, 0, hasCont, act);
      var k := BatchStop(env, h, paths, 0, hasCont, act);
      PathsWith(r.reports, true) == BatchSucceeded(env, h, paths, 0, hasCont, act) &&
      PathsWith(r.reports, false) == paths[k..]
  {
    var k := BatchStop(env, h, paths, 0, hasCont, act);
    var s := BatchSucceeded(env, h, paths, 0, hasCont, act);
    BatchReports(env, h, paths, 0, hasCont, act);
    PathsWithAppend(SucceedAll(s), FailAll(paths[k..]), true);
    PathsWithAppend(SucceedAll(s), FailAll(paths[k..]), false);
    PathsWithUniform(s);
    PathsWithUniform(paths[k..]);
  }

  lemma ModeActFacts(env: Env, mode: Mode, dest: Path, fuel: nat)
    requires mode != IdleMode
    ensures NoError !in ModeCodes(mode)
    ensures FailsWithin(ModeAct(env, mode, dest, fuel), ModeCodes(mode))
    ensures Appends(ModeAct(env, mode, dest, fuel))
  {
    ActionCodes(env, dest, true, fuel);
    ActionsAppend(env, dest, true, fuel);
  }

  /**
   * When a run closes with an error, the error names the path the batch
   * broke at (the first path reported failed) and carries a code of the
   * mode's batch.
   */
  lemma RunErrorNamesFailingPath(env: Env, h: History, names: seq<Path>, mode: Mode, dest: Path, fuel: nat,
                                 wasCancelled: bool, lateCancel: bool)
    requires mode != IdleMode
    ensures var wenv := WorkerEnv(env, !wasCancelled);
      var act := ModeAct(wenv, mode, dest, fuel);
      var r := BatchSpec(wenv, h, names, 0, true, act);
      var k := BatchStop(wenv, h, names, 0, true, act);
      var c := Closing(CancelSeen(wasCancelled, lateCancel, h, r.h), r.rv, PathsWith(r.reports, false));
      c.ErrorSignal? ==> k < |names| && c.fileName == names[k] && c.error in ModeCodes(mode)
  {
    var wenv := WorkerEnv(env, !wasCancelled);
    var act := ModeAct(wenv, mode, dest, fuel);
    BatchPartition(wenv, h, names, true, act);
    ModeActFacts(wenv, mode, dest, fuel);
    BatchResultCode(wenv, h, names, 0, true, act, ModeCodes(mode));
  }

  /**
   * When a run closes with `done`, every path succeeded, in input order,
   * and none failed; a cancel made before the run or after the engine
   * returned always closes it with `cancelled`.
   */
  lemma RunDoneMeansAllSucceeded(env: Env, h: History, names: seq<Path>, mode: Mode, dest: Path, fuel: nat,
                                 wasCancelled: bool, lateCancel: bool)
    requires mode != IdleMode
    ensures var wenv := WorkerEnv(env, !wasCancelled);
      var act := ModeAct(wenv, mode, dest, fuel);
      var r := BatchSpec(wenv, h, names, 0, true, act);
      var c := Closing(CancelSeen(wasCancelled, lateCancel, h, r.h), r.rv, PathsWith(r.reports, false));
      (c == Done ==> PathsWith(r.reports, true) == names && PathsWith(r.reports, false) == []) &&
      (wasCancelled || lateCancel ==> c == CancelledSignal)
  {
    var wenv := WorkerEnv(env, !wasCancelled);
    var act := ModeAct(wenv, mode, dest, fuel);
    var r := BatchSpec(wenv, h, names, 0, true, act);
    BatchPartition(wenv, h, names, true, act);
    ModeActFacts(wenv, mode, dest, fuel);
    BatchResultCode(wenv, h, names, 0, true, act, ModeCodes(mode));
    if !CancelSeen(wasCancelled, lateCancel, h, r.h) && r.rv == NoError {
      BatchExtends(wenv, h, names, 0, true, act);
      CountRefusedGrows(h, r.h);
      BatchUnrefusedSucceeds(wenv, h, names, 0, true, act);
    }
  }

  class FileWorker {
    /** The daemon's handle for the operation in progress, or 0. */
    var operation: nat
    var mode: Mode
    var fileNames: seq<Path>
    var destDirectory: Path
    /** m_cancelled == Cancelled */
    var cancelled: bool
    /** QThread::isRunning */
    var running: bool
    var events: seq<WorkerEvent>

    constructor ()
      ensures operation == 0 && mode == IdleMode && !cancelled && !running
      ensures fileNames == [] && destDirectory == "" && events == []
    {
      operation := 0;
      mode := IdleMode;
      fileNames := [];
      destDirectory := "";
      cancelled := false;
      running := false;
      events := [];
    }

    predicate OperationInProgress()
      reads this
    {
      running || operation != 0
    }

    /** The state a new worker starts in, apart from its signals. */
    predicate Initial()
      reads this
    {
      operation == 0 && mode == IdleMode && !cancelled && !running && fileNames == [] && destDirectory == ""
    }

    /** A refused start: the signals are its only effect and every other field is as it was. */
    twostate predicate Refused(signals: seq<WorkerEvent>)
      reads this
    {
      events == old(events) + signals && mode == old(mode) && operation == old(operation) &&
      running == old(running) && fileNames == old(fileNames) && destDirectory == old(destDirectory) &&
      cancelled == old(cancelled)
    }

    /** FileWorker::setMode: modeChanged is emitted only for an actual change. */
    method SetMode(m: Mode)
      modifies this
      ensures mode == m
      ensures events == old(events) + if old(mode) != m then [ModeChanged] else []
      ensures operation == old(operation) && fileNames == old(fileNames) && destDirectory == old(destDirectory)
      ensures cancelled == old(cancelled) && running == old(running)
    {
      if mode != m {
        mode := m;
        events := events + [ModeChanged];
      }
    }

    /** FileWorker::handleFinished: no operation, idle mode. */
    method HandleFinished()
      modifies this
      ensures operation == 0 && mode == IdleMode
      ensures events == old(events) + if old(mode) != IdleMode then [ModeChanged] else []
      ensures fileNames == old(fileNames) && destDirectory == old(destDirectory)
      ensures cancelled == old(cancelled) && running == old(running)
    {
      operation := 0;
      SetMode(IdleMode);
    }

    /** The thread's finished signal: the run is over and handleFinished follows. */
    method ThreadFinished()
      modifies this
      ensures !running && operation == 0 && mode == IdleMode
      ensures events == old(events) + if old(mode) != IdleMode then [ModeChanged] else []
      ensures fileNames == old(fileNames) && destDirectory == old(destDirectory) && cancelled == old(cancelled)
    {
      running := false;
      HandleFinished();
    }

    /** FileWorker::validateFileNames: every name is non-empty. */
    static method ValidateFileNames(names: seq<Path>) returns (ok: bool)
      ensures ok <==> forall k :: 0 <= k < |names| ==> names[k] != []
    {
      var i := 0;
      while i < |names|
        invariant 0 <= i <= |names|
        invariant forall k :: 0 <= k < i ==> names[k] != []
      {
        if names[i] == [] {
          return false;
        }
        i := i + 1;
      }
      return true;
    }

    /**
     * FileWorker::startOperation for the current mode: run on the thread,
     * or call the daemon and keep the handle it replies with (`reply` is
     * None when the call failed, and then no handle is kept).
     */
    method StartOperation(nonprivileged: bool, reply: Option<nat>)
      modifies this
      ensures mode == old(mode) && fileNames == old(fileNames) && destDirectory == old(destDirectory)
      ensures cancelled == old(cancelled)
      ensures !nonprivileged ==> running && operation == old(operation) && events == old(events)
      ensures nonprivileged ==> running == old(running)
      ensures nonprivileged && mode == IdleMode ==> operation == old(operation) && events == old(events)
      ensures nonprivileged && mode != IdleMode ==>
        events == old(events) + [match mode
                                 case DeleteMode => RemoteDelete(fileNames)
                                 case MoveMode => RemoteMove(fileNames, destDirectory)
                                 case _ => RemoteCopy(fileNames, destDirectory)] &&
        operation == if reply.Some? then reply.value else old(operation)
    {
      if !nonprivileged {
        running := true;
        return;
      }
      match mode {
        case DeleteMode => events := events + [RemoteDelete(fileNames)];
        case MoveMode => events := events + [RemoteMove(fileNames, destDirectory)];
        case CopyMode => events := events + [RemoteCopy(fileNames, destDirectory)];
        case IdleMode => return;
      }
      if reply.Some? {
        operation := reply.value;
      }
    }

    /**
     * The common part of startDeleteFiles / startCopyFiles / startMoveFiles:
     * refused with ErrorOperationInProgress while an operation is in
     * progress, and with ErrorInvalidRequest when a name is empty, changing
     * nothing else; otherwise the mode, names and destination are set, the
     * cancel flag is cleared and the operation started.
     */
    method Start(m: Mode, names: seq<Path>, dest: Path, nonprivileged: bool, reply: Option<nat>)
      requires m != IdleMode
      modifies this
      ensures old(OperationInProgress()) ==>
        events == old(events) + [ErrorSignal(ErrorOperationInProgress, "")] &&
        mode == old(mode) && operation == old(operation) && running == old(running) &&
        fileNames == old(fileNames) && destDirectory == old(destDirectory) && cancelled == old(cancelled)
      ensures !old(OperationInProgress()) && (exists k :: 0 <= k < |names| && names[k] == []) ==>
        events == old(events) + [ErrorSignal(ErrorInvalidRequest, "")] &&
        mode == old(mode) && operation == old(operation) && running == old(running) &&
        fileNames == old(fileNames) && destDirectory == old(destDirectory) && cancelled == old(cancelled)
      ensures !old(OperationInProgress()) && (forall k :: 0 <= k < |names| ==> names[k] != []) ==>
        mode == m && fileNames == names && destDirectory == dest && !cancelled &&
        (!nonprivileged ==>
           running && operation == 0 &&
           events == old(events) + if old(mode) != m then [ModeChanged] else []) &&
        (nonprivileged ==>
           !running && operation == (if reply.Some? then reply.value else 0) &&
           events == old(events) + (if old(mode) != m then [ModeChanged] else []) +
                     [match m
                      case DeleteMode => RemoteDelete(names)
                      case MoveMode => RemoteMove(names, dest)
                      case _ => RemoteCopy(names, dest)])
    {
      if OperationInProgress() {
        events := events + [ErrorSignal(ErrorOperationInProgress, "")];
        return;
      }
      var ok := ValidateFileNames(names);
      if !ok {
        events := events + [ErrorSignal(ErrorInvalidRequest, "")];
        return;
      }
      SetMode(m);
      fileNames := names;
      destDirectory := dest;
      cancelled := false;
      StartOperation(nonprivileged, reply);
    }

    /** FileWorker::startDeleteFiles: the destination is left as it was. */
    method StartDeleteFiles(names: seq<Path>, nonprivileged: bool, reply: Option<nat>)
      modifies this
      ensures old(OperationInProgress()) ==>
        events == old(events) + [ErrorSignal(ErrorOperationInProgress, "")] &&
        mode == old(mode) && operation == old(operation) && running == old(running) &&
        fileNames == old(fileNames) && cancelled == old(cancelled)
      ensures !old(OperationInProgress()) && (exists k :: 0 <= k < |names| && names[k] == []) ==>
        events == old(events) + [ErrorSignal(ErrorInvalidRequest, "")] &&
        mode == old(mode) && operation == old(operation) && running == old(running) &&
        fileNames == old(fileNames) && cancelled == old(cancelled)
      ensures !old(OperationInProgress()) && (forall k :: 0 <= k < |names| ==> names[k] != []) ==>
        mode == DeleteMode && fileNames == names && !cancelled &&
        (!nonprivileged ==> running) &&
        (nonprivileged ==>
           operation == (if reply.Some? then reply.value else 0) &&
           |events| > 0 && events[|events| - 1] == RemoteDelete(names))
      ensures destDirectory == old(destDirectory)
    {
      Start(DeleteMode, names, destDirectory, nonprivileged, reply);
    }

    method StartCopyFiles(names: seq<Path>, dest: Path, nonprivileged: bool, reply: Option<nat>)
      modifies this
      ensures old(OperationInProgress()) ==>
        events == old(events) + [ErrorSignal(ErrorOperationInProgress, "")] &&
        mode == old(mode) && operation == old(operation) && running == old(running) &&
        fileNames == old(fileNames) && destDirectory == old(destDirectory) && cancelled == old(cancelled)
      ensures !old(OperationInProgress()) && (exists k :: 0 <= k < |names| && names[k] == []) ==>
        events == old(events) + [ErrorSignal(ErrorInvalidRequest, "")] &&
        mode == old(mode) && operation == old(operation) && running == old(running) &&
        fileNames == old(fileNames) && destDirectory == old(destDirectory) && cancelled == old(cancelled)
      ensures !old(OperationInProgress()) && (forall k :: 0 <= k < |names| ==> names[k] != []) ==>
        mode == CopyMode && fileNames == names && destDirectory == dest && !cancelled &&
        (!nonprivileged ==> running) &&
        (nonprivileged ==>
           operation == (if reply.Some? then reply.value else 0) &&
           |events| > 0 && events[|events| - 1] == RemoteCopy(names, dest))
    {
      Start(CopyMode, names, dest, nonprivileged, reply);
    }

    method StartMoveFiles(names: seq<Path>, dest: Path, nonprivileged: bool, reply: Option<nat>)
      modifies this
      ensures old(OperationInProgress()) ==>
        events == old(events) + [ErrorSignal(ErrorOperationInProgress, "")] &&
        mode == old(mode) && operation == old(operation) && running == old(running) &&
        fileNames == old(fileNames) && destDirectory == old(destDirectory) && cancelled == old(cancelled)
      ensures !old(OperationInProgress()) && (exists k :: 0 <= k < |names| && names[k] == []) ==>
        events == old(events) + [ErrorSignal(ErrorInvalidRequest, "")] &&
        mode == old(mode) && operation == old(operation) && running == old(running) &&
        fileNames == old(fileNames) && destDirectory == old(destDirectory) && cancelled == old(cancelled)
      ensures !old(OperationInProgress()) && (forall k :: 0 <= k < |names| ==> names[k] != []) ==>
        mode == MoveMode && fileNames == names && destDirectory == dest && !cancelled &&
        (!nonprivileged ==> running) &&
        (nonprivileged ==>
           operation == (if reply.Some? then reply.value else 0) &&
           |events| > 0 && events[|events| - 1] == RemoteMove(names, dest))
    {
      Start(MoveMode, names, dest, nonprivileged, reply);
    }

    /** FileWorker::cancel: through the daemon when it holds the operation, else the thread's flag. */
    method Cancel()
      modifies this
      ensures operation != 0 ==> events == old(events) + [RemoteCancel(operation)] && cancelled == old(cancelled)
      ensures operation == 0 ==> events == old(events) && cancelled == (old(cancelled) || running)
      ensures operation == old(operation) && mode == old(mode) && running == old(running)
      ensures fileNames == old(fileNames) && destDirectory == old(destDirectory)
    {
      if operation != 0 {
        events := events + [RemoteCancel(operation)];
      } else if running {
        cancelled := true;
      }
    }

    /** FileWorker::fileOperationDeleted's loop and run()'s: one fileDeleted per path. */
    method EmitDeleted(paths: seq<Path>)
      modifies this
      ensures events == old(events) + Deleted(paths)
      ensures operation == old(operation) && mode == old(mode) && running == old(running)
      ensures fileNames == old(fileNames) && destDirectory == old(destDirectory) && cancelled == old(cancelled)
    {
      var i := 0;
      while i < |paths|
        invariant 0 <= i <= |paths|
        invariant events == old(events) + Deleted(paths[..i])
        invariant operation == old(operation) && mode == old(mode) && running == old(running)
        invariant fileNames == old(fileNames) && destDirectory == old(destDirectory) && cancelled == old(cancelled)
      {
        assert Deleted(paths[..i + 1]) == Deleted(paths[..i]) + [FileDeleted(paths[i])];
        events := events + [FileDeleted(paths[i])];
        i := i + 1;
      }
      assert paths[..i] == paths;
    }

    /**
     * FileWorker::fileOperationFailed: for the current operation, the worker
     * goes idle and reports a cancellation as `cancelled` and anything else
     * as an error naming the first path; another id changes nothing.
     */
    method FileOperationFailed(id: nat, paths: seq<Path>, errorCode: Error)
      modifies this
      ensures id != old(operation) ==> events == old(events) && operation == old(operation) && mode == old(mode)
      ensures id == old(operation) ==>
        operation == 0 && mode == IdleMode &&
        events == old(events) + (if old(mode) != IdleMode then [ModeChanged] else []) +
          [if errorCode == ErrorOperationCancelled then CancelledSignal
           else ErrorSignal(errorCode, if paths == [] then "" else paths[0])]
      ensures running == old(running) && cancelled == old(cancelled)
      ensures fileNames == old(fileNames) && destDirectory == old(destDirectory)
    {
      if id == operation {
        HandleFinished();
        if errorCode == ErrorOperationCancelled {
          events := events + [CancelledSignal];
        } else {
          var fileName := "";
          if paths != [] {
            fileName := paths[0];
          }
          events := events + [ErrorSignal(errorCode, fileName)];
        }
      }
    }

    /** FileWorker::fileOperationSucceeded: deletions of the current operation are announced in order. */
    method FileOperationSucceeded(id: nat, paths: seq<Path>)
      modifies this
      ensures events == old(events) + if id == operation && mode == DeleteMode then Deleted(paths) else []
      ensures operation == old(operation) && mode == old(mode) && running == old(running)
      ensures fileNames == old(fileNames) && destDirectory == old(destDirectory) && cancelled == old(cancelled)
    {
      if id == operation && mode == DeleteMode {
        EmitDeleted(paths);
      }
    }

    /** FileWorker::operationFinished: the current operation ends idle with `done`. */
    method OperationFinished(id: nat)
      modifies this
      ensures id != old(operation) ==> events == old(events) && operation == old(operation) && mode == old(mode)
      ensures id == old(operation) ==>
        operation == 0 && mode == IdleMode &&
        events == old(events) + (if old(mode) != IdleMode then [ModeChanged] else []) + [Done]
      ensures running == old(running) && cancelled == old(cancelled)
      ensures fileNames == old(fileNames) && destDirectory == old(destDirectory)
    {
      if id == operation {
        HandleFinished();
        events := events + [Done];
      }
    }

    /** The pathResult callback of run(): reported paths split by outcome, each in report order. */
    static method Partition(reports: seq<(Path, bool)>) returns (succeeded: seq<Path>, failed: seq<Path>)
      ensures succeeded == PathsWith(reports, true) && failed == PathsWith(reports, false)
    {
      succeeded := [];
      failed := [];
      var i := 0;
      while i < |reports|
        invariant 0 <= i <= |reports|
        invariant succeeded == PathsWith(reports[..i], true) && failed == PathsWith(reports[..i], false)
      {
        assert reports[..i + 1][..i] == reports[..i];
        if reports[i].1 {
          succeeded := succeeded + [reports[i].0];
        } else {
          failed := failed + [reports[i].0];
        }
        i := i + 1;
      }
      assert reports[..i] == reports;
    }

    /**
     * FileWorker::run: the engine batch for the mode, with a continue
     * function that reads the cancel flag (a cancel arriving during the run
     * is the environment's "stop"); in DeleteMode the deleted paths are
     * announced, and then exactly one closing signal follows (RunErrorNamesFailingPath
     * and RunDoneMeansAllSucceeded say what it means). `lateCancel` is a cancel arriving after the
     * engine returned. Returns the engine's history.
     */
    method Run(env: Env, h: History, fuel: nat, lateCancel: bool) returns (h': History)
      modifies this
      ensures mode == old(mode) && operation == old(operation) && running == old(running)
      ensures fileNames == old(fileNames) && destDirectory == old(destDirectory)
      ensures mode == IdleMode ==> h' == h && events == old(events) && cancelled == old(cancelled)
      ensures mode != IdleMode ==>
        var wenv := WorkerEnv(env, !old(cancelled));
        var r := BatchSpec(wenv, h, fileNames, 0, true, ModeAct(wenv, mode, destDirectory, fuel));
        h' == r.h && !cancelled &&
        events == old(events) + (if mode == DeleteMode then Deleted(PathsWith(r.reports, true)) else []) +
          [Closing(CancelSeen(old(cancelled), lateCancel, h, r.h), r.rv, PathsWith(r.reports, false))]
    {
      if mode == IdleMode {
        return h;
      }
      var wenv := WorkerEnv(env, !cancelled);
      var r := RunBatch(wenv, h, mode, fileNames, destDirectory, fuel);
      var succeededPaths, failedPaths := Partition(r.reports);
      if mode == DeleteMode {
        EmitDeleted(succeededPaths);
      }
      EmitClosing(CancelSeen(cancelled, lateCancel, h, r.h), r.rv, failedPaths);
      h' := r.h;
    }

    /** The engine call of run() for the worker's mode. */
    static method RunBatch(wenv: Env, h: History, mode: Mode, names: seq<Path>, dest: Path, fuel: nat) returns (r: BatchResult)
      requires mode != IdleMode
      ensures r == BatchSpec(wenv, h, names, 0, true, ModeAct(wenv, mode, dest, fuel))
    {
      match mode {
        case DeleteMode => r := DeleteFiles(wenv, h, names, true);
        case MoveMode => r := MoveFiles(wenv, h, names, dest, true);
        case CopyMode => r := CopyFiles(wenv, h, names, dest, true, fuel);
      }
    }

    /** The closing signal of run(): cancelled (which resets the flag), done, or the error with the first failed path. */
    method EmitClosing(seen: bool, rv: Error, failedPaths: seq<Path>)
      modifies this
      ensures events == old(events) + [Closing(seen, rv, failedPaths)]
      ensures cancelled == (old(cancelled) && !seen)
      ensures operation == old(operation) && mode == old(mode) && running == old(running)
      ensures fileNames == old(fileNames) && destDirectory == old(destDirectory)
    {
      if seen {
        events := events + [CancelledSignal];
        cancelled := false;
      } else if rv == NoError {
        events := events + [Done];
      } else {
        var fileName := "";
        if failedPaths != [] {
          fileName := failedPaths[0];
        }
        events := events + [ErrorSignal(rv, fileName)];
      }
    }

    /** FileWorker::mkdir run locally: true exactly when the engine's createDirectory succeeded. */
    static function Mkdir(env: Env, h: History, path: Path, name: string): (ok: bool)
      ensures ok <==> env.succeeds(h, FileOperations.Mkdir(path, name))
    {
      CreateDirectory(env, h, name, path).rv == NoError
    }

    /** FileWorker::rename run locally. */
    static function Rename(env: Env, h: History, oldPath: Path, newPath: Path): (ok: bool)
      ensures ok <==> env.succeeds(h, FileOperations.Rename(oldPath, newPath))
    {
      RenameFile(env, h, oldPath, newPath).rv == NoError
    }

    /** FileWorker::setPermissions run locally. */
    static function SetPermissions(env: Env, h: History, path: Path, p: bv16): (ok: bool)
      ensures ok <==> env.succeeds(h, FileOperations.SetPermissions(path, p))
    {
      ChmodFile(env, h, path, p).rv == NoError
    }
  }
}
