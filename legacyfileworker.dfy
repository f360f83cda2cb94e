/**
 * The older in-thread FileWorker: delete, copy and move run on the
 * worker's own thread, checking the cancel flag before each file, emitting
 * fileDeleted as files go, and ending with exactly one of done, cancelled
 * or error (plus a `cancelled` from inside a folder copy that stopped on
 * the flag, before that copy's error).
 *
 * Its deleteFile and copyOverwrite are identical to the shared engine's and
 * are the same functions here (FileOperations.DeleteFile and
 * FileOperations.CopyOverwrite); its move step is the shared MoveStep and
 * its folder copy is the shared copyDirRecursively with the cancel flag as
 * continue function. A cancel arriving while the thread runs is the
 * environment's "stop" answer.
 */
module LegacyFileWorker {
  import opened Common
  import opened FileOperations

  datatype Signal =
    | ModeChanged
    | ErrorSignal(error: Error, fileName: Path)
    | FileDeleted(path: Path)
    | Done
    | CancelledSignal

  /** The result of a run: the history it leaves and the signals it emitted. */
  datatype LegacyRun = LegacyRun(h: History, signals: seq<Signal>)

  /**
   * The `cancelled` copyDirRecursively emits when its own cancel check
   * stopped it: a check answering "stop" ends the copy at once, so it is the
   * last thing the copy recorded.
   */
  function InnerCancel(h: History, h': History): seq<Signal> {
    if |h| < |h'| && h'[|h'| - 1] == Asked(false) then [CancelledSignal] else []
  }

  /**
   * The deleteFiles / copyOrMoveFiles loop from index i: check the flag
   * (cancelled and stop), do the file (an error naming it and stop), else
   * announce a deletion when deleting; after the last file, done.
   */
  function LegacySpec(env: Env, h: History, names: seq<Path>, i: nat, act: Action, deleting: bool): LegacyRun
    requires i <= |names|
    decreases |names| - i
  {
    if i == |names| then LegacyRun(h, [Done])
    else
      var c := Continue(env, h, true);
      if !c.ok then LegacyRun(c.h, [CancelledSignal])
      else
        var s := act(c.h, names[i]);
        if !s.ok then LegacyRun(s.h, InnerCancel(c.h, s.h) + [ErrorSignal(s.err, names[i])])
        else
          var rest := LegacySpec(env, s.h, names, i + 1, act, deleting);
          LegacyRun(rest.h, (if deleting then [FileDeleted(names[i])] else []) + rest.signals)
  }

  /** The index at which the loop stopped (by cancel or failure), or |names|. */
  function LegacyStop(env: Env, h: History, names: seq<Path>, i: nat, act: Action): (k: nat)
    requires i <= |names|
    ensures i <= k <= |names|
    decreases |names| - i
  {
    if i == |names| then i
    else
      var c := Continue(env, h, true);
      if !c.ok then i
      else
        var s := act(c.h, names[i]);
        if !s.ok then i else LegacyStop(env, s.h, names, i + 1, act)
  }

  function DeletedAll(paths: seq<Path>): (r: seq<Signal>)
    ensures |r| == |paths| && forall k :: 0 <= k < |paths| ==> r[k] == FileDeleted(paths[k])
  {
    seq(|paths|, k requires 0 <= k < |paths| => FileDeleted(paths[k]))
  }

  /** The last signals of a run that stopped at index k. */
  predicate ClosingTail(t: seq<Signal>, names: seq<Path>, k: nat, codes: set<Error>) {
    (k == |names| && t == [Done]) ||
    (k < |names| && |t| >= 1 &&
     (t == [CancelledSignal] ||
      (t[|t| - 1].ErrorSignal? && t[|t| - 1].fileName == names[k] && t[|t| - 1].error in codes &&
       (t == [t[|t| - 1]] || t == [CancelledSignal, t[|t| - 1]]))))
  }

  /** The closing signals of the loop from index i: what follows the fileDeleted announcements. */
  function LegacyClose(env: Env, h: History, names: seq<Path>, i: nat, act: Action): seq<Signal>
    requires i <= |names|
    decreases |names| - i
  {
    if i == |names| then [Done]
    else
      var c := Continue(env, h, true);
      if !c.ok then [CancelledSignal]
      else
        var s := act(c.h, names[i]);
        if !s.ok then InnerCancel(c.h, s.h) + [ErrorSignal(s.err, names[i])]
        else LegacyClose(env, s.h, names, i + 1, act)
  }

  /**
   * A run's signals are one fileDeleted per file handled (when deleting;
   * none otherwise), in input order, followed by the closing signals.
   */
  lemma {:induction false} LegacySignals(env: Env, h: History, names: seq<Path>, i: nat, act: Action, deleting: bool)
    requires i <= |names|
    ensures var k := LegacyStop(env, h, names, i, act);
      LegacySpec(env, h, names, i, act, deleting).signals ==
        (if deleting then DeletedAll(names[i..k]) else []) + LegacyClose(env, h, names, i, act)
    decreases |names| - i
  {
    if i < |names| {
      var c := Continue(env, h, true);
      if c.ok {
        var s := act(c.h, names[i]);
        if s.ok {
          LegacySignals(env, s.h, names, i + 1, act, deleting);
          var k := LegacyStop(env, h, names, i, act);
          if deleting {
            assert DeletedAll(names[i..k]) == [FileDeleted(names[i])] + DeletedAll(names[i + 1..k]);
          }
        } else if deleting {
          assert DeletedAll(names[i..i]) == [];
        }
      } else if deleting {
        assert DeletedAll(names[i..i]) == [];
      }
    } else if deleting {
      assert DeletedAll(names[i..i]) == [];
    }
  }

  /**
   * The closing is exactly one of: done, only when every file was handled;
   * cancelled; or an error naming the file the loop stopped at, with a code
   * of the action, possibly preceded by the folder copy's own cancelled.
   */
  lemma {:induction false} LegacyClosing(env: Env, h: History, names: seq<Path>, i: nat, act: Action, codes: set<Error>)
    requires i <= |names| && FailsWithin(act, codes)
    ensures ClosingTail(LegacyClose(env, h, names, i, act), names, LegacyStop(env, h, names, i, act), codes)
    decreases |names| - i
  {
    if i < |names| {
      var c := Continue(env, h, true);
      if c.ok {
        var s := act(c.h, names[i]);
        if s.ok {
          LegacyClosing(env, s.h, names, i + 1, act, codes);
        }
      }
    }
  }

  /** The per-file action of copyOrMoveFiles in MoveMode or in CopyMode. */
  function CopyOrMoveAct(env: Env, dest: Path, moving: bool, fuel: nat): Action {
    if moving then MoveAct(env, dest) else CopyAct(env, dest, true, fuel)
  }

  /** The loop invariant of deleteFiles and copyOrMoveFiles. */
  ghost predicate LegacyProgress(env: Env, h0: History, names: seq<Path>, act: Action, deleting: bool,
                                 i: nat, hc: History, emitted: seq<Signal>)
  {
    i <= |names| &&
    var all := LegacySpec(env, h0, names, 0, act, deleting);
    var rest := LegacySpec(env, hc, names, i, act, deleting);
    rest.h == all.h && emitted + rest.signals == all.signals
  }

  /** A file that passed the check and was done keeps the invariant for the next index. */
  lemma ProgressNext(env: Env, h0: History, names: seq<Path>, act: Action, deleting: bool,
                     i: nat, hc: History, emitted: seq<Signal>, s: Step)
    requires LegacyProgress(env, h0, names, act, deleting, i, hc, emitted) && i < |names|
    requires Continue(env, hc, true).ok && s == act(Continue(env, hc, true).h, names[i]) && s.ok
    ensures LegacyProgress(env, h0, names, act, deleting, i + 1, s.h,
                           emitted + (if deleting then [FileDeleted(names[i])] else []))
  {
    var rest := LegacySpec(env, s.h, names, i + 1, act, deleting);
    var pre := if deleting then [FileDeleted(names[i])] else [];
    assert LegacySpec(env, hc, names, i, act, deleting) == LegacyRun(rest.h, pre + rest.signals);
    assert emitted + (pre + rest.signals) == (emitted + pre) + rest.signals;
  }

  /** Where the loop leaves early or ends, the run so far is the whole run. */
  lemma ProgressExit(env: Env, h0: History, names: seq<Path>, act: Action, deleting: bool,
                     i: nat, hc: History, emitted: seq<Signal>)
    requires LegacyProgress(env, h0, names, act, deleting, i, hc, emitted)
    ensures var all := LegacySpec(env, h0, names, 0, act, deleting);
      var c := Continue(env, hc, true);
      if i == |names| then all == LegacyRun(hc, emitted + [Done])
      else if !c.ok then all == LegacyRun(c.h, emitted + [CancelledSignal])
      else
        var s := act(c.h, names[i]);
        !s.ok ==> all == LegacyRun(s.h, emitted + InnerCancel(c.h, s.h) + [ErrorSignal(s.err, names[i])])
  {
  }

  /** deleteFile makes no continue check, so it never emits an inner `cancelled`. */
  lemma DeleteNoInnerCancel(env: Env, h: History, path: Path)
    ensures InnerCancel(h, DeleteFile(env, h, path).h) == []
  {
    DeleteFileEffect(env, h, path);
  }

  /** Nor does a move step. */
  lemma MoveStepNoInnerCancel(env: Env, h: History, path: Path, dest: Path)
    ensures InnerCancel(h, MoveStep(env, h, path, dest).h) == []
  {
    MoveStepEffect(env, h, path, dest);
    var s := MoveStep(env, h, path, dest);
    if |h| < |s.h| {
      assert s.h[|s.h| - 1] == s.h[|h|..][|s.h| - 1 - |h|];
    }
  }

  class FileWorker {
    var mode: Mode
    var fileNames: seq<Path>
    var destDirectory: Path
    /** m_cancelled == Cancelled */
    var cancelled: bool
    /** QThread::isRunning */
    var running: bool
    var events: seq<Signal>

    constructor ()
      ensures mode == IdleMode && !cancelled && !running
      ensures fileNames == [] && destDirectory == "" && events == []
    {
      mode := IdleMode;
      fileNames := [];
      destDirectory := "";
      cancelled := false;
      running := false;
      events := [];
    }

    /** A refused or ignored start: the signals are its only effect and every other field is as it was. */
    twostate predicate Refused(signals: seq<Signal>)
      reads this
    {
      events == old(events) + signals && mode == old(mode) && running == old(running) &&
      fileNames == old(fileNames) && destDirectory == old(destDirectory) && cancelled == old(cancelled)
    }

    /** FileWorker::setMode: modeChanged is emitted only for an actual change. */
    method SetMode(m: Mode)
      modifies this
      ensures mode == m
      ensures events == old(events) + if old(mode) != m then [ModeChanged] else []
      ensures fileNames == old(fileNames) && destDirectory == old(destDirectory)
      ensures cancelled == old(cancelled) && running == old(running)
    {
      if mode != m {
        mode := m;
        events := events + [ModeChanged];
      }
    }

    /** The thread's finished signal and handleFinished: the worker is idle again. */
    method ThreadFinished()
      modifies this
      ensures !running && mode == IdleMode
      ensures events == old(events) + if old(mode) != IdleMode then [ModeChanged] else []
      ensures fileNames == old(fileNames) && destDirectory == old(destDirectory) && cancelled == old(cancelled)
    {
      running := false;
      SetMode(IdleMode);
    }

    /** FileWorker::validateFileNames: every name is non-empty. */
    static method ValidateFileNames(names: seq<Path>) returns (ok: bool)
      ensures ok <==> forall k :: 0 <= k < |names| ==> names[k] != []
    {
      for i := 0 to |names|
        invariant forall k :: 0 <= k < i ==> names[k] != []
      {
        if names[i] == [] {
          return false;
        }
      }
      return true;
    }

    /**
     * The common part of startDeleteFiles / startCopyFiles / startMoveFiles:
     * refused with ErrorOperationInProgress while the thread runs; a list
     * holding an empty name is ignored without any signal; otherwise the
     * mode, names and destination are set, the flag cleared and the thread
     * started.
     */
    method Start(m: Mode, names: seq<Path>, dest: Path)
      requires m != IdleMode
      modifies this
      ensures old(running) ==>
        events == old(events) + [ErrorSignal(ErrorOperationInProgress, "")] &&
        mode == old(mode) && running && fileNames == old(fileNames) &&
        destDirectory == old(destDirectory) && cancelled == old(cancelled)
      ensures !old(running) && (exists k :: 0 <= k < |names| && names[k] == []) ==>
        events == old(events) && mode == old(mode) && !running && fileNames == old(fileNames) &&
        destDirectory == old(destDirectory) && cancelled == old(cancelled)
      ensures !old(running) && (forall k :: 0 <= k < |names| ==> names[k] != []) ==>
        events == old(events) + (if old(mode) != m then [ModeChanged] else []) &&
        mode == m && running && fileNames == names && destDirectory == dest && !cancelled
    {
      if running {
        events := events + [ErrorSignal(ErrorOperationInProgress, "")];
        return;
      }
      var ok := ValidateFileNames(names);
      if !ok {
        return;
      }
      SetMode(m);
      fileNames := names;
      destDirectory := dest;
      cancelled := false;
      running := true;
    }

    /** FileWorker::startDeleteFiles: as Start, leaving the destination as it was. */
    method StartDeleteFiles(names: seq<Path>)
      modifies this
      ensures old(running) ==> Refused([ErrorSignal(ErrorOperationInProgress, "")])
      ensures !old(running) && (exists k :: 0 <= k < |names| && names[k] == []) ==> Refused([]) && !running
      ensures !old(running) && (forall k :: 0 <= k < |names| ==> names[k] != []) ==>
        mode == DeleteMode && running && fileNames == names && !cancelled
      ensures destDirectory == old(destDirectory)
    {
      Start(DeleteMode, names, destDirectory);
    }

    method StartCopyFiles(names: seq<Path>, dest: Path)
      modifies this
      ensures old(running) ==> Refused([ErrorSignal(ErrorOperationInProgress, "")])
      ensures !old(running) && (exists k :: 0 <= k < |names| && names[k] == []) ==> Refused([]) && !running
      ensures !old(running) && (forall k :: 0 <= k < |names| ==> names[k] != []) ==>
        mode == CopyMode && running && fileNames == names && destDirectory == dest && !cancelled
    {
      Start(CopyMode, names, dest);
    }

    method StartMoveFiles(names: seq<Path>, dest: Path)
      modifies this
      ensures old(running) ==> Refused([ErrorSignal(ErrorOperationInProgress, "")])
      ensures !old(running) && (exists k :: 0 <= k < |names| && names[k] == []) ==> Refused([]) && !running
      ensures !old(running) && (forall k :: 0 <= k < |names| ==> names[k] != []) ==>
        mode == MoveMode && running && fileNames == names && destDirectory == dest && !cancelled
    {
      Start(MoveMode, names, dest);
    }

    /** FileWorker::cancel: the flag is set whether or not the thread runs. */
    method Cancel()
      modifies this
      ensures cancelled && events == old(events) && mode == old(mode) && running == old(running)
      ensures fileNames == old(fileNames) && destDirectory == old(destDirectory)
    {
      cancelled := true;
    }

    /**
     * FileWorker::copyDirRecursively: the shared folder copy with the flag
     * as continue function, emitting `cancelled` when that check stopped it.
     * The signals emitted are returned in `out`.
     */
    static method CopyDirRecursively(env: Env, h: History, src: Path, dst: Path, fuel: nat) returns (r: Outcome, out: seq<Signal>)
      ensures r == CopyDirSpec(env, h, src, dst, true, fuel)
      ensures out == InnerCancel(h, r.h)
    {
      r := FileOperations.CopyDirRecursively(env, h, src, dst, true, fuel);
      out := [];
      if |h| < |r.h| && r.h[|r.h| - 1] == Asked(false) {
        out := out + [CancelledSignal];
      }
    }

    /** The deletion of one file, through deleteFile. */
    static method DeleteOne(env: Env, h: History, fileName: Path) returns (s: Step)
      ensures s == DeleteStep(env, h, fileName)
      ensures InnerCancel(h, s.h) == []
    {
      var d := DeleteFile(env, h, fileName);
      DeleteNoInnerCancel(env, h, fileName);
      return Step(d.ok, d.h, ErrorDeleteFailed);
    }

    /**
     * FileWorker::deleteFiles over the given names, with `env` holding the
     * flag's readings; the signals emitted are returned in `out`.
     */
    static method DeleteFilesOf(env: Env, h: History, names: seq<Path>) returns (h': History, out: seq<Signal>)
      ensures var r := LegacySpec(env, h, names, 0, DeleteAct(env), true);
        h' == r.h && out == r.signals
    {
      ghost var act := DeleteAct(env);
      out := [];
      var hc := h;
      var fileIndex := 0;
      while fileIndex < |names|
        invariant LegacyProgress(env, h, names, act, true, fileIndex, hc, out)
      {
        ProgressExit(env, h, names, act, true, fileIndex, hc, out);
        var fileName := names[fileIndex];
        var c := Continue(env, hc, true);
        if !c.ok {
          out := out + [CancelledSignal];
          return c.h, out;
        }
        var d := DeleteOne(env, c.h, fileName);
        assert d == act(c.h, fileName);
        if !d.ok {
          out := out + [ErrorSignal(ErrorDeleteFailed, fileName)];
          return d.h, out;
        }
        ProgressNext(env, h, names, act, true, fileIndex, hc, out, d);
        out := out + [FileDeleted(fileName)];
        hc := d.h;
        fileIndex := fileIndex + 1;
      }
      ProgressExit(env, h, names, act, true, fileIndex, hc, out);
      out := out + [Done];
      return hc, out;
    }

    /** The MoveMode branch for one file: link and remove for a link, rename for anything else. */
    static method MoveOne(env: Env, h: History, fileName: Path, dest: Path) returns (s: Step)
      ensures s == MoveStep(env, h, fileName, dest)
      ensures InnerCancel(h, s.h) == []
    {
      var fileInfo := env.info(h, fileName);
      var newName := Target(dest, fileName);
      MoveStepNoInnerCancel(env, h, fileName, dest);
      if fileInfo.isSymLink {
        var l := Do(env, h, Link(fileInfo.symLinkTarget, newName));
        if !l.ok {
          return Step(false, l.h, ErrorMoveFailed);
        }
        var rm := Do(env, l.h, Remove(fileName));
        if !rm.ok {
          return Step(false, rm.h, ErrorMoveFailed);
        }
        return Step(true, rm.h, ErrorMoveFailed);
      }
      var o := Do(env, h, Rename(fileName, newName));
      return Step(o.ok, o.h, ErrorMoveFailed);
    }

    /** The CopyMode branch for one file: a folder copied recursively, anything else by copyOverwrite. */
    static method CopyOne(env: Env, h: History, fileName: Path, dest: Path, fuel: nat) returns (s: Step, out: seq<Signal>)
      ensures s == CopyStep(env, h, fileName, dest, true, fuel)
      ensures out == InnerCancel(h, s.h)
      ensures s.ok ==> out == []
    {
      var newName := Target(dest, fileName);
      if env.info(h, fileName).isDir {
        var o;
        o, out := CopyDirRecursively(env, h, fileName, newName, fuel);
        CopyDirTrace(env, h, fileName, newName, true, fuel);
        if o.ok && |h| < |o.h| {
          assert Good(o.h[|o.h| - 1]);
        }
        return Step(o.ok, o.h, ErrorFolderCopyFailed), out;
      }
      var o := CopyOverwrite(env, h, fileName, newName);
      CopyOverwriteNoInnerCancel(env, h, fileName, newName);
      return Step(o.ok, o.h, ErrorCopyFailed), [];
    }

    /** One file of copyOrMoveFiles: the MoveMode or the CopyMode branch. */
    static method CopyOrMoveOne(env: Env, h: History, fileName: Path, dest: Path, moving: bool, fuel: nat)
      returns (s: Step, out: seq<Signal>)
      ensures s == CopyOrMoveAct(env, dest, moving, fuel)(h, fileName)
      ensures out == InnerCancel(h, s.h)
      ensures s.ok ==> out == []
    {
      if moving {
        s := MoveOne(env, h, fileName, dest);
        out := [];
      } else {
        s, out := CopyOne(env, h, fileName, dest, fuel);
      }
    }

    /**
     * FileWorker::copyOrMoveFiles over the given names: in MoveMode a link
     * is recreated at the target and removed, anything else renamed; in
     * CopyMode a folder is copied recursively and anything else by
     * copyOverwrite. The signals emitted are returned in `out`.
     */
    static method CopyOrMoveFilesOf(env: Env, h: History, names: seq<Path>, dest: Path, moving: bool, fuel: nat)
      returns (h': History, out: seq<Signal>)
      ensures var r := LegacySpec(env, h, names, 0, CopyOrMoveAct(env, dest, moving, fuel), false);
        h' == r.h && out == r.signals
    {
      ghost var act := CopyOrMoveAct(env, dest, moving, fuel);
      out := [];
      var hc := h;
      var fileIndex := 0;
      while fileIndex < |names|
        invariant LegacyProgress(env, h, names, act, false, fileIndex, hc, out)
      {
        ProgressExit(env, h, names, act, false, fileIndex, hc, out);
        var fileName := names[fileIndex];
        var c := Continue(env, hc, true);
        if !c.ok {
          out := out + [CancelledSignal];
          return c.h, out;
        }
        var step, inner := CopyOrMoveOne(env, c.h, fileName, dest, moving, fuel);
        if !step.ok {
          out := out + inner + [ErrorSignal(step.err, fileName)];
          return step.h, out;
        }
        ProgressNext(env, h, names, act, false, fileIndex, hc, out, step);
        hc := step.h;
        fileIndex := fileIndex + 1;
      }
      ProgressExit(env, h, names, act, false, fileIndex, hc, out);
      out := out + [Done];
      return hc, out;
    }

    /** FileWorker::run: the loop for the mode; nothing for IdleMode. */
    method Run(env: Env, h: History, fuel: nat) returns (h': History)
      modifies this
      ensures mode == old(mode) && running == old(running) && cancelled == old(cancelled)
      ensures fileNames == old(fileNames) && destDirectory == old(destDirectory)
      ensures var wenv := env.(proceed := (g: History) => !old(cancelled) && env.proceed(g));
        match mode
        case IdleMode => h' == h && events == old(events)
        case DeleteMode =>
          var r := LegacySpec(wenv, h, fileNames, 0, DeleteAct(wenv), true);
          h' == r.h && events == old(events) + r.signals
        case MoveMode =>
          var r := LegacySpec(wenv, h, fileNames, 0, MoveAct(wenv, destDirectory), false);
          h' == r.h && events == old(events) + r.signals
        case CopyMode =>
          var r := LegacySpec(wenv, h, fileNames, 0, CopyAct(wenv, destDirectory, true, fuel), false);
          h' == r.h && events == old(events) + r.signals
    {
      var keepRunning := !cancelled;
      var wenv := env.(proceed := (g: History) => keepRunning && env.proceed(g));
      var out: seq<Signal> := [];
      match mode {
        case DeleteMode => h', out := DeleteFilesOf(wenv, h, fileNames);
        case MoveMode => h', out := CopyOrMoveFilesOf(wenv, h, fileNames, destDirectory, true, fuel);
        case CopyMode => h', out := CopyOrMoveFilesOf(wenv, h, fileNames, destDirectory, false, fuel);
        case IdleMode => h' := h;
      }
      events := events + out;
    }
  }

  /** copyOverwrite makes no continue check either. */
  lemma CopyOverwriteNoInnerCancel(env: Env, h: History, src: Path, dst: Path)
    ensures InnerCancel(h, CopyOverwrite(env, h, src, dst).h) == []
  {
    var r := CopyOverwrite(env, h, src, dst);
    CopyOverwriteEffect(env, h, src, dst);
    assert r.h[|r.h| - 1] == r.h[|h|..][|r.h| - 1 - |h|];
  }
}
