/**
 * The shared file-operation engine: single-path delete and copy-overwrite,
 * recursive directory copy, the batch copy/move/delete loops and the three
 * single-shot operations (mkdir, rename, chmod).
 *
 * The filesystem is an environment of oracles over the history of what the
 * engine has done so far: what QFileInfo reports for a path, what a directory
 * listing returns, whether a primitive (remove, link, copy, rename, mkdir,
 * setPermissions) succeeds, and what the caller's continue function answers.
 * Because every answer may depend on the history, later queries see the
 * effect of earlier primitives. Every primitive attempted and every continue
 * check made is appended to the history; the pathResult callback's calls are
 * returned as the list `reports`.
 */
module FileOperations {
  import opened Common

  /** What QFileInfo / QDir report about a path. */
  datatype Info = Info(present: bool, isSymLink: bool, isDir: bool, symLinkTarget: Path)

  /** The two QDir::entryList filters the engine uses. */
  datatype Filter =
    | FilesOnly   // QDir::Files
    | DirsOnly    // QDir::NoDotAndDotDot | QDir::AllDirs

  /** Filesystem primitives the engine issues. */
  datatype Prim =
    | Remove(path: Path)                    // QFile::remove
    | RemoveRecursively(path: Path)         // QDir::removeRecursively
    | Link(target: Path, linkPath: Path)    // QFile(target).link(linkPath)
    | Copy(src: Path, dst: Path)             // QFile::copy
    | Rename(src: Path, dst: Path)           // QFile::rename
    | Mkdir(dir: Path, name: string)        // QDir(dir).mkdir(name)
    | SetPermissions(path: Path, perm: bv16) // QFile::setPermissions

  datatype Event =
    | Did(op: Prim, ok: bool)   // a primitive was attempted, with its outcome
    | Asked(go: bool)           // the continue function was called, with its answer

  type History = seq<Event>

  datatype Env = Env(
    info: (History, Path) -> Info,
    list: (History, Path, Filter) -> seq<string>,
    succeeds: (History, Prim) -> bool,
    proceed: History -> bool)

  /** A boolean engine result together with the history it leaves. */
  datatype Outcome = Outcome(ok: bool, h: History)

  /** A batch or single-shot result: the error code, the history, and the pathResult calls. */
  datatype BatchResult = BatchResult(rv: Error, h: History, reports: seq<(Path, bool)>)

  // ---------------------------------------------------------------------
  // Traces

  predicate Extends(h: History, h': History) {
    |h| <= |h'| && h'[..|h|] == h
  }

  /** An event that does not make the engine stop: a success or a "go on". */
  predicate Good(e: Event) {
    match e
    case Did(_, ok) => ok
    case Asked(go) => go
  }

  /** Every event appended after h is good. */
  predicate AllGood(h: History, h': History) {
    Extends(h, h') && forall k :: |h| <= k < |h'| ==> Good(h'[k])
  }

  /** Every event appended after h, except possibly the last, is good. */
  predicate StopsAtFailure(h: History, h': History) {
    Extends(h, h') && forall k :: |h| <= k < |h'| - 1 ==> Good(h'[k])
  }

  lemma ChainGood(h0: History, h1: History, h2: History)
    requires AllGood(h0, h1) && StopsAtFailure(h1, h2)
    ensures StopsAtFailure(h0, h2)
    ensures AllGood(h1, h2) ==> AllGood(h0, h2)
  {
    assert h2[..|h0|] == h2[..|h1|][..|h0|];
    forall k | |h0| <= k < |h1| ensures h2[k] == h1[k] {
      assert h2[k] == h2[..|h1|][k];
    }
  }

  function CountAsked(h: History): nat {
    if h == [] then 0 else CountAsked(h[..|h| - 1]) + (if h[|h| - 1].Asked? then 1 else 0)
  }

  // ---------------------------------------------------------------------
  // Primitives and checks

  function Do(env: Env, h: History, op: Prim): Outcome {
    var ok := env.succeeds(h, op);
    Outcome(ok, h + [Did(op, ok)])
  }

  /**
   * The `!continueOperation || continueOperation()` test: with no continue
   * function the answer is "go on" and nothing is recorded.
   */
  function Continue(env: Env, h: History, hasCont: bool): Outcome {
    if !hasCont then Outcome(true, h)
    else
      var go := env.proceed(h);
      Outcome(go, h + [Asked(go)])
  }

  /** QDir(path).exists(): an existing directory (following links). */
  predicate DirExists(i: Info) {
    i.present && i.isDir
  }

  // ---------------------------------------------------------------------
  // deleteFile and copyOverwrite

  /**
   * FileOperations::deleteFile: a missing path that is not even a dangling
   * link fails with nothing done; a link to a directory loses only the link,
   * a real directory is removed recursively, anything else is removed as a
   * file. The result is the outcome of the one primitive issued.
   */
  function DeleteFile(env: Env, h: History, path: Path): Outcome {
    var i := env.info(h, path);
    if !i.present && !i.isSymLink then Outcome(false, h)
    else if i.isDir && i.isSymLink then Do(env, h, Remove(path))
    else if i.isDir then Do(env, h, RemoveRecursively(path))
    else Do(env, h, Remove(path))
  }

  /**
   * deleteFile issues at most one primitive and returns its outcome; it
   * issues none, and fails, exactly when the path neither exists nor is a
   * link; a directory is removed recursively only when it is not a link.
   */
  lemma DeleteFileEffect(env: Env, h: History, path: Path)
    ensures var r := DeleteFile(env, h, path); var i := env.info(h, path);
      Extends(h, r.h) && |r.h| <= |h| + 1 &&
      (r.h == h <==> !i.present && !i.isSymLink) &&
      (r.h == h ==> !r.ok) &&
      (r.h != h ==> r.h[|h|] == Did(if i.isDir && !i.isSymLink then RemoveRecursively(path) else Remove(path), r.ok))
  {
  }

  /** What copyOverwrite does once the destination is out of the way. */
  function CopyOp(si: Info, src: Path, dst: Path): Prim {
    if si.isSymLink then Link(si.symLinkTarget, dst) else Copy(src, dst)
  }

  /**
   * FileOperations::copyOverwrite: an existing destination is removed first,
   * and a failed removal ends it with nothing copied; then a link source
   * becomes a new link to the same target and any other source is copied by
   * content, and the result is the outcome of that last primitive.
   */
  function CopyOverwrite(env: Env, h: History, src: Path, dst: Path): Outcome
  {
    var d := env.info(h, dst);
    var rm := if d.present then Do(env, h, Remove(dst)) else Outcome(true, h);
    if !rm.ok then rm
    else
      var si := env.info(rm.h, src);
      if si.isSymLink then Do(env, rm.h, Link(si.symLinkTarget, dst))
      else Do(env, rm.h, Copy(src, dst))
  }

  /**
   * copyOverwrite's trace: an existing destination is removed first and a
   * failed removal ends it with nothing copied; otherwise exactly one link
   * (to the source link's target) or content copy follows, and its outcome
   * is the result.
   */
  lemma CopyOverwriteEffect(env: Env, h: History, src: Path, dst: Path)
    ensures var r := CopyOverwrite(env, h, src, dst); var rm := Remove(dst);
      Extends(h, r.h) && |h| < |r.h| &&
      if env.info(h, dst).present then
        r.h[|h|] == Did(rm, env.succeeds(h, rm)) &&
        if !env.succeeds(h, rm) then r == Outcome(false, h + [Did(rm, false)])
        else r.h == h + [Did(rm, true), Did(CopyOp(env.info(h + [Did(rm, true)], src), src, dst), r.ok)]
      else r.h == h + [Did(CopyOp(env.info(h, src), src, dst), r.ok)]
  {
  }

  /** copyOverwrite succeeds exactly when every primitive it issued did, and stops at the first failure. */
  lemma CopyOverwriteTrace(env: Env, h: History, src: Path, dst: Path)
    ensures var r := CopyOverwrite(env, h, src, dst);
      StopsAtFailure(h, r.h) && (r.ok <==> AllGood(h, r.h)) && CountAsked(r.h) == CountAsked(h)
  {
    var r := CopyOverwrite(env, h, src, dst);
    CopyOverwriteEffect(env, h, src, dst);
    var t := r.h[|h|..];
    assert r.h == h + t;
    if |t| == 2 {
      assert r.h[..|r.h| - 1] == h + [t[0]];
      assert (h + [t[0]])[..|h|] == h;
      assert r.h[|h|] == t[0] && r.h[|h| + 1] == t[1];
      assert t[0].Did? && t[1].Did? && Good(t[0]);
      assert StopsAtFailure(h, r.h);
      assert r.ok <==> AllGood(h, r.h);
    } else {
      assert |t| == 1;
      assert r.h[..|h|] == h;
      assert r.h[|h|] == t[0];
      assert t[0].Did? && t[0].ok == r.ok;
    }
  }

  // ---------------------------------------------------------------------
  // copyDirRecursively

  /**
   * The specification of copyDirRecursively. A link source is first
   * recreated as a link at the destination, and the copy then goes on as
   * for a directory (it does not stop there). `fuel` bounds the directory
   * depth that is followed; at zero the copy fails.
   */
  function CopyDirSpec(env: Env, h: History, src: Path, dst: Path, hasCont: bool, fuel: nat): Outcome
    decreases fuel, 3, 0
  {
    if fuel == 0 then Outcome(false, h)
    else
      var l := LinkIfSymLink(env, h, src, dst);
      if !l.ok then l
      else if !DirExists(env.info(l.h, src)) then Outcome(false, l.h)
      else
        var m := EnsureDir(env, l.h, dst);
        if !m.ok then m
        else CopyContents(env, m.h, src, dst, hasCont, fuel)
  }

  function LinkIfSymLink(env: Env, h: History, src: Path, dst: Path): Outcome {
    var si := env.info(h, src);
    if si.isSymLink then Do(env, h, Link(si.symLinkTarget, dst)) else Outcome(true, h)
  }

  /** A missing destination is created by name inside its parent (cdUp, then mkdir(dirName)). */
  function EnsureDir(env: Env, h: History, dst: Path): Outcome {
    if DirExists(env.info(h, dst)) then Outcome(true, h)
    else Do(env, h, Mkdir(DirOf(dst), FileName(dst)))
  }

  /** All plain files first, then all subdirectories. */
  function CopyContents(env: Env, h: History, src: Path, dst: Path, hasCont: bool, fuel: nat): Outcome
    requires fuel >= 1
    decreases fuel, 2, 0
  {
    var f := FilesLoop(env, h, src, dst, env.list(h, src, FilesOnly), 0, hasCont);
    if !f.ok then f
    else DirsLoop(env, f.h, src, dst, env.list(f.h, src, DirsOnly), 0, hasCont, fuel)
  }

  /** The loop over plain files, from index i on. */
  function FilesLoop(env: Env, h: History, src: Path, dst: Path, names: seq<string>, i: nat, hasCont: bool): Outcome
    requires i <= |names|
    decreases |names| - i
  {
    if i == |names| then Outcome(true, h)
    else
      var c := Continue(env, h, hasCont);
      if !c.ok then c
      else
        var o := CopyOverwrite(env, c.h, Join(src, names[i]), Join(dst, names[i]));
        if !o.ok then o
        else FilesLoop(env, o.h, src, dst, names, i + 1, hasCont)
  }

  /** The loop over subdirectories, from index i on. */
  function DirsLoop(env: Env, h: History, src: Path, dst: Path, names: seq<string>, i: nat, hasCont: bool, fuel: nat): Outcome
    requires i <= |names| && fuel >= 1
    decreases fuel, 1, |names| - i
  {
    if i == |names| then Outcome(true, h)
    else
      var c := Continue(env, h, hasCont);
      if !c.ok then c
      else
        var o := CopyDirSpec(env, c.h, Join(src, names[i]), Join(dst, names[i]), hasCont, fuel - 1);
        if !o.ok then o
        else DirsLoop(env, o.h, src, dst, names, i + 1, hasCont, fuel)
  }

  /**
   * FileOperations::copyDirRecursively. The two index loops of the source
   * are the methods CopyDirFiles and CopyDirSubdirs below.
   */
  method CopyDirRecursively(env: Env, h: History, src: Path, dst: Path, hasCont: bool, fuel: nat) returns (r: Outcome)
    ensures r == CopyDirSpec(env, h, src, dst, hasCont, fuel)
    decreases fuel, 1
  {
    if fuel == 0 {
      return Outcome(false, h);
    }
    var hc := h;
    var srcInfo := env.info(hc, src);
    if srcInfo.isSymLink {
      var l := Do(env, hc, Link(srcInfo.symLinkTarget, dst));
      if !l.ok {
        return l;
      }
      hc := l.h;
    }
    if !DirExists(env.info(hc, src)) {
      return Outcome(false, hc);
    }
    if !DirExists(env.info(hc, dst)) {
      var m := Do(env, hc, Mkdir(DirOf(dst), FileName(dst)));
      if !m.ok {
        return m;
      }
      hc := m.h;
    }
    var f := CopyDirFiles(env, hc, src, dst, hasCont);
    if !f.ok {
      return f;
    }
    r := CopyDirSubdirs(env, f.h, src, dst, hasCont, fuel);
  }

  /** The "copy files" loop of copyDirRecursively. */
  method CopyDirFiles(env: Env, h: History, src: Path, dst: Path, hasCont: bool) returns (r: Outcome)
    ensures r == FilesLoop(env, h, src, dst, env.list(h, src, FilesOnly), 0, hasCont)
  {
    var names := env.list(h, src, FilesOnly);
    var hc := h;
    var i := 0;
    while i < |names|
      invariant 0 <= i <= |names|
      invariant FilesLoop(env, hc, src, dst, names, i, hasCont) == FilesLoop(env, h, src, dst, names, 0, hasCont)
    {
      var c := Continue(env, hc, hasCont);
      if !c.ok {
        return c;
      }
      var o := CopyOverwrite(env, c.h, Join(src, names[i]), Join(dst, names[i]));
      if !o.ok {
        return o;
      }
      hc := o.h;
      i := i + 1;
    }
    return Outcome(true, hc);
  }

  /** The "copy dirs" loop of copyDirRecursively, recursing into each subdirectory. */
  method CopyDirSubdirs(env: Env, h: History, src: Path, dst: Path, hasCont: bool, fuel: nat) returns (r: Outcome)
    requires fuel >= 1
    ensures r == DirsLoop(env, h, src, dst, env.list(h, src, DirsOnly), 0, hasCont, fuel)
    decreases fuel, 0
  {
    var names := env.list(h, src, DirsOnly);
    var hc := h;
    var i := 0;
    while i < |names|
      invariant 0 <= i <= |names|
      invariant DirsLoop(env, hc, src, dst, names, i, hasCont, fuel) == DirsLoop(env, h, src, dst, names, 0, hasCont, fuel)
    {
      var c := Continue(env, hc, hasCont);
      if !c.ok {
        return c;
      }
      var o := CopyDirRecursively(env, c.h, Join(src, names[i]), Join(dst, names[i]), hasCont, fuel - 1);
      if !o.ok {
        return o;
      }
      hc := o.h;
      i := i + 1;
    }
    return Outcome(true, hc);
  }

  // ---------------------------------------------------------------------
  // Properties of copyDirRecursively

  /** Nothing is attempted after the first failure or "stop", and success means no failure at all. */
  lemma {:induction false} CopyDirTrace(env: Env, h: History, src: Path, dst: Path, hasCont: bool, fuel: nat)
    ensures var r := CopyDirSpec(env, h, src, dst, hasCont, fuel);
      StopsAtFailure(h, r.h) && (r.ok ==> AllGood(h, r.h))
    decreases fuel, 3, 0
  {
    if fuel > 0 {
      var l := LinkIfSymLink(env, h, src, dst);
      if l.ok && DirExists(env.info(l.h, src)) {
        assert AllGood(h, l.h);
        var m := EnsureDir(env, l.h, dst);
        assert StopsAtFailure(l.h, m.h) && (m.ok ==> AllGood(l.h, m.h));
        ChainGood(h, l.h, m.h);
        if m.ok {
          CopyContentsTrace(env, m.h, src, dst, hasCont, fuel);
          ChainGood(h, m.h, CopyContents(env, m.h, src, dst, hasCont, fuel).h);
        }
      }
    }
  }

  lemma {:induction false} CopyContentsTrace(env: Env, h: History, src: Path, dst: Path, hasCont: bool, fuel: nat)
    requires fuel >= 1
    ensures var r := CopyContents(env, h, src, dst, hasCont, fuel);
      StopsAtFailure(h, r.h) && (r.ok ==> AllGood(h, r.h))
    decreases fuel, 2, 0
  {
    var names := env.list(h, src, FilesOnly);
    var f := FilesLoop(env, h, src, dst, names, 0, hasCont);
    FilesLoopTrace(env, h, src, dst, names, 0, hasCont);
    if f.ok {
      var dirs := env.list(f.h, src, DirsOnly);
      DirsLoopTrace(env, f.h, src, dst, dirs, 0, hasCont, fuel);
      ChainGood(h, f.h, DirsLoop(env, f.h, src, dst, dirs, 0, hasCont, fuel).h);
    }
  }

  lemma {:induction false} FilesLoopTrace(env: Env, h: History, src: Path, dst: Path, names: seq<string>, i: nat, hasCont: bool)
    requires i <= |names|
    ensures var r := FilesLoop(env, h, src, dst, names, i, hasCont);
      StopsAtFailure(h, r.h) && (r.ok ==> AllGood(h, r.h))
    decreases |names| - i
  {
    if i < |names| {
      var c := Continue(env, h, hasCont);
      if c.ok {
        assert AllGood(h, c.h);
        var o := CopyOverwrite(env, c.h, Join(src, names[i]), Join(dst, names[i]));
        CopyOverwriteTrace(env, c.h, Join(src, names[i]), Join(dst, names[i]));
        ChainGood(h, c.h, o.h);
        if o.ok {
          FilesLoopTrace(env, o.h, src, dst, names, i + 1, hasCont);
          ChainGood(h, o.h, FilesLoop(env, o.h, src, dst, names, i + 1, hasCont).h);
        }
      }
    }
  }

  lemma {:induction false} DirsLoopTrace(env: Env, h: History, src: Path, dst: Path, names: seq<string>, i: nat, hasCont: bool, fuel: nat)
    requires i <= |names| && fuel >= 1
    ensures var r := DirsLoop(env, h, src, dst, names, i, hasCont, fuel);
      StopsAtFailure(h, r.h) && (r.ok ==> AllGood(h, r.h))
    decreases fuel, 1, |names| - i
  {
    if i < |names| {
      var c := Continue(env, h, hasCont);
      if c.ok {
        assert AllGood(h, c.h);
        var o := CopyDirSpec(env, c.h, Join(src, names[i]), Join(dst, names[i]), hasCont, fuel - 1);
        CopyDirTrace(env, c.h, Join(src, names[i]), Join(dst, names[i]), hasCont, fuel - 1);
        ChainGood(h, c.h, o.h);
        if o.ok {
          DirsLoopTrace(env, o.h, src, dst, names, i + 1, hasCont, fuel);
          ChainGood(h, o.h, DirsLoop(env, o.h, src, dst, names, i + 1, hasCont, fuel).h);
        }
      }
    }
  }

  /**
   * The files phase consults the continue function exactly once per file
   * when it completes (and never without a continue function).
   */
  lemma {:induction false} FilesLoopChecksEachFile(env: Env, h: History, src: Path, dst: Path, names: seq<string>, i: nat, hasCont: bool)
    requires i <= |names|
    ensures var r := FilesLoop(env, h, src, dst, names, i, hasCont);
      r.ok ==> CountAsked(r.h) == CountAsked(h) + if hasCont then |names| - i else 0
    decreases |names| - i
  {
    if i < |names| {
      var c := Continue(env, h, hasCont);
      if c.ok {
        var o := CopyOverwrite(env, c.h, Join(src, names[i]), Join(dst, names[i]));
        CopyOverwriteTrace(env, c.h, Join(src, names[i]), Join(dst, names[i]));
        if o.ok {
          FilesLoopChecksEachFile(env, o.h, src, dst, names, i + 1, hasCont);
          if hasCont {
            assert c.h[..|c.h| - 1] == h;
          }
        }
      }
    }
  }

  /** A source that is neither a link nor an existing directory fails with nothing done. */
  lemma CopyDirMissingSource(env: Env, h: History, src: Path, dst: Path, hasCont: bool, fuel: nat)
    requires !env.info(h, src).isSymLink && !DirExists(env.info(h, src))
    ensures CopyDirSpec(env, h, src, dst, hasCont, fuel) == Outcome(false, h)
  {
  }

  /**
   * With an existing source directory (not a link) and a missing destination,
   * the first thing done is to create the destination by name inside its
   * parent, and a failed mkdir ends the copy.
   */
  lemma CopyDirCreatesDestination(env: Env, h: History, src: Path, dst: Path, hasCont: bool, fuel: nat)
    requires fuel > 0
    requires !env.info(h, src).isSymLink && DirExists(env.info(h, src)) && !DirExists(env.info(h, dst))
    ensures var r := CopyDirSpec(env, h, src, dst, hasCont, fuel);
      var mk := Mkdir(DirOf(dst), FileName(dst));
      |r.h| > |h| && r.h[|h|] == Did(mk, env.succeeds(h, mk)) &&
      (!env.succeeds(h, mk) ==> r == Outcome(false, h + [Did(mk, false)]))
  {
    var r := CopyDirSpec(env, h, src, dst, hasCont, fuel);
    var m := EnsureDir(env, h, dst);
    if m.ok {
      CopyContentsTrace(env, m.h, src, dst, hasCont, fuel);
      assert r.h[|h|] == r.h[..|m.h|][|h|];
    }
  }

  // ---------------------------------------------------------------------
  // The batch operations

  /** The outcome of processing one path of a batch, with the error code a failure sets. */
  datatype Step = Step(ok: bool, h: History, err: Error)

  /** destDir.absoluteFilePath(fileInfo.fileName()) */
  function Target(dest: Path, path: Path): Path {
    Join(dest, FileName(path))
  }

  /** The body of the copyFiles loop for one path. */
  function CopyStep(env: Env, h: History, path: Path, dest: Path, hasCont: bool, fuel: nat): Step {
    if env.info(h, path).isDir then
      var o := CopyDirSpec(env, h, path, Target(dest, path), hasCont, fuel);
      Step(o.ok, o.h, ErrorFolderCopyFailed)
    else
      var o := CopyOverwrite(env, h, path, Target(dest, path));
      Step(o.ok, o.h, ErrorCopyFailed)
  }

  /** The body of the moveFiles loop for one path. */
  function MoveStep(env: Env, h: History, path: Path, dest: Path): Step {
    var i := env.info(h, path);
    var t := Target(dest, path);
    if i.isSymLink then
      var l := Do(env, h, Link(i.symLinkTarget, t));
      if !l.ok then Step(false, l.h, ErrorMoveFailed)
      else
        var d := Do(env, l.h, Remove(path));
        Step(d.ok, d.h, ErrorMoveFailed)
    else
      var o := Do(env, h, Rename(path, t));
      Step(o.ok, o.h, ErrorMoveFailed)
  }

  /** The body of the deleteFiles loop for one path. */
  function DeleteStep(env: Env, h: History, path: Path): Step {
    var o := DeleteFile(env, h, path);
    Step(o.ok, o.h, ErrorDeleteFailed)
  }

  /** What a batch does to one path it is allowed to process. */
  type Action = (History, Path) -> Step

  function CopyAct(env: Env, dest: Path, hasCont: bool, fuel: nat): Action {
    (g: History, p: Path) => CopyStep(env, g, p, dest, hasCont, fuel)
  }

  function MoveAct(env: Env, dest: Path): Action {
    (g: History, p: Path) => MoveStep(env, g, p, dest)
  }

  function DeleteAct(env: Env): Action {
    (g: History, p: Path) => DeleteStep(env, g, p)
  }

  /** Every failure of the action carries one of the given codes. */
  ghost predicate FailsWithin(act: Action, codes: set<Error>) {
    forall g, p :: !act(g, p).ok ==> act(g, p).err in codes
  }

  /** A directory copy failure is ErrorFolderCopyFailed, a file copy failure ErrorCopyFailed. */
  lemma CopyStepCode(env: Env, h: History, path: Path, dest: Path, hasCont: bool, fuel: nat)
    ensures var s := CopyAct(env, dest, hasCont, fuel)(h, path);
      !s.ok ==> s.err == if env.info(h, path).isDir then ErrorFolderCopyFailed else ErrorCopyFailed
  {
  }

  lemma ActionCodes(env: Env, dest: Path, hasCont: bool, fuel: nat)
    ensures FailsWithin(CopyAct(env, dest, hasCont, fuel), {ErrorFolderCopyFailed, ErrorCopyFailed})
    ensures FailsWithin(MoveAct(env, dest), {ErrorMoveFailed})
    ensures FailsWithin(DeleteAct(env), {ErrorDeleteFailed})
  {
  }

  /**
   * Moving one path: a link is recreated at the target (same link target)
   * and then removed; anything else is renamed, with no copy fallback.
   */
  lemma MoveStepEffect(env: Env, h: History, path: Path, dest: Path)
    ensures var s := MoveAct(env, dest)(h, path); var i := env.info(h, path); var t := Target(dest, path);
      Extends(h, s.h) &&
      if i.isSymLink then
        s.h[|h|..] == [Did(Link(i.symLinkTarget, t), true), Did(Remove(path), s.ok)] ||
        (s.h[|h|..] == [Did(Link(i.symLinkTarget, t), false)] && !s.ok)
      else s.h[|h|..] == [Did(Rename(path, t), s.ok)]
  {
  }

  /** (p, false) for every p, in order. */
  function FailAll(ps: seq<Path>): (r: seq<(Path, bool)>)
    ensures |r| == |ps| && forall k :: 0 <= k < |ps| ==> r[k] == (ps[k], false)
  {
    seq(|ps|, k requires 0 <= k < |ps| => (ps[k], false))
  }

  /** (p, true) for every p, in order. */
  function SucceedAll(ps: seq<Path>): (r: seq<(Path, bool)>)
    ensures |r| == |ps| && forall k :: 0 <= k < |ps| ==> r[k] == (ps[k], true)
  {
    seq(|ps|, k requires 0 <= k < |ps| => (ps[k], true))
  }

  /**
   * The batch loop over paths[i..]: a path the continue function refuses is
   * skipped and the loop goes on; a failing path ends the loop and it and
   * every later path are reported failed.
   */
  function BatchSpec(env: Env, h: History, paths: seq<Path>, i: nat, hasCont: bool, act: Action): BatchResult
    requires i <= |paths|
    decreases |paths| - i
  {
    if i == |paths| then BatchResult(NoError, h, [])
    else
      var c := Continue(env, h, hasCont);
      if !c.ok then BatchSpec(env, c.h, paths, i + 1, hasCont, act)
      else
        var s := act(c.h, paths[i]);
        if !s.ok then BatchResult(s.err, s.h, FailAll(paths[i..]))
        else
          var rest := BatchSpec(env, s.h, paths, i + 1, hasCont, act);
          BatchResult(rest.rv, rest.h, [(paths[i], true)] + rest.reports)
  }

  /** The index at which the batch loop broke, or |paths| when it did not. */
  function BatchStop(env: Env, h: History, paths: seq<Path>, i: nat, hasCont: bool, act: Action): (k: nat)
    requires i <= |paths|
    ensures i <= k <= |paths|
    decreases |paths| - i
  {
    if i == |paths| then i
    else
      var c := Continue(env, h, hasCont);
      if !c.ok then BatchStop(env, c.h, paths, i + 1, hasCont, act)
      else
        var s := act(c.h, paths[i]);
        if !s.ok then i
        else BatchStop(env, s.h, paths, i + 1, hasCont, act)
  }

  /** The loop invariant shared by the three batch methods. */
  ghost predicate BatchProgress(env: Env, h0: History, paths: seq<Path>, hasCont: bool, act: Action,
                                i: nat, hc: History, reports: seq<(Path, bool)>)
  {
    i <= |paths| &&
    var all := BatchSpec(env, h0, paths, 0, hasCont, act);
    var rest := BatchSpec(env, hc, paths, i, hasCont, act);
    rest.rv == all.rv && rest.h == all.h && reports + rest.reports == all.reports
  }

  /** A path the continue function refuses is skipped. */
  lemma BatchSkip(env: Env, h0: History, paths: seq<Path>, hasCont: bool, act: Action,
                  i: nat, hc: History, reports: seq<(Path, bool)>)
    requires BatchProgress(env, h0, paths, hasCont, act, i, hc, reports) && i < |paths|
    requires !Continue(env, hc, hasCont).ok
    ensures BatchProgress(env, h0, paths, hasCont, act, i + 1, Continue(env, hc, hasCont).h, reports)
  {
  }

  /** A path whose action succeeds is reported succeeded and the loop goes on. */
  lemma BatchAdvance(env: Env, h0: History, paths: seq<Path>, hasCont: bool, act: Action,
                     i: nat, hc: History, reports: seq<(Path, bool)>)
    requires BatchProgress(env, h0, paths, hasCont, act, i, hc, reports) && i < |paths|
    requires Continue(env, hc, hasCont).ok && act(Continue(env, hc, hasCont).h, paths[i]).ok
    ensures BatchProgress(env, h0, paths, hasCont, act, i + 1,
      act(Continue(env, hc, hasCont).h, paths[i]).h, reports + [(paths[i], true)])
  {
  }

  /** A path whose action fails ends the batch with the action's code. */
  lemma BatchBreak(env: Env, h0: History, paths: seq<Path>, hasCont: bool, act: Action,
                   i: nat, hc: History, reports: seq<(Path, bool)>)
    requires BatchProgress(env, h0, paths, hasCont, act, i, hc, reports) && i < |paths|
    requires Continue(env, hc, hasCont).ok && !act(Continue(env, hc, hasCont).h, paths[i]).ok
    ensures var s := act(Continue(env, hc, hasCont).h, paths[i]);
      BatchSpec(env, h0, paths, 0, hasCont, act) == BatchResult(s.err, s.h, reports + FailAll(paths[i..]))
  {
  }

  /** Without a break the loop ends with every report made and NoError. */
  lemma BatchEnd(env: Env, h0: History, paths: seq<Path>, hasCont: bool, act: Action,
                 hc: History, reports: seq<(Path, bool)>)
    requires BatchProgress(env, h0, paths, hasCont, act, |paths|, hc, reports)
    ensures BatchSpec(env, h0, paths, 0, hasCont, act) == BatchResult(NoError, hc, reports + FailAll(paths[|paths|..]))
  {
    assert FailAll(paths[|paths|..]) == [];
  }

  /** Reports every path from i on as failed, as the std::for_each after the loop does. */
  method ReportRemaining(paths: seq<Path>, i: nat, reports: seq<(Path, bool)>) returns (out: seq<(Path, bool)>)
    requires i <= |paths|
    ensures out == reports + FailAll(paths[i..])
  {
    out := reports;
    var j := i;
    while j < |paths|
      invariant i <= j <= |paths|
      invariant out == reports + FailAll(paths[i..j])
    {
      assert FailAll(paths[i..j + 1]) == FailAll(paths[i..j]) + [(paths[j], false)];
      out := out + [(paths[j], false)];
      j := j + 1;
    }
    assert paths[i..j] == paths[i..];
  }

  /** FileOperations::copyFiles */
  method CopyFiles(env: Env, h: History, paths: seq<Path>, dest: Path, hasCont: bool, fuel: nat) returns (r: BatchResult)
    ensures r == BatchSpec(env, h, paths, 0, hasCont, CopyAct(env, dest, hasCont, fuel))
  {
    ghost var act := CopyAct(env, dest, hasCont, fuel);
    var rv := NoError;
    var hc := h;
    var reports: seq<(Path, bool)> := [];
    var it := 0;
    while it < |paths|
      invariant rv == NoError && BatchProgress(env, h, paths, hasCont, act, it, hc, reports)
    {
      ghost var h1, r1 := hc, reports;
      var c := Continue(env, hc, hasCont);
      hc := c.h;
      if !c.ok {
        BatchSkip(env, h, paths, hasCont, act, it, h1, r1);
      } else {
        var path := paths[it];
        var newName := Target(dest, path);
        ghost var step := act(hc, path);
        var ok, code;
        if env.info(hc, path).isDir {
          var o := CopyDirRecursively(env, hc, path, newName, hasCont, fuel);
          hc, ok, code := o.h, o.ok, ErrorFolderCopyFailed;
        } else {
          var o := CopyOverwrite(env, hc, path, newName);
          hc, ok, code := o.h, o.ok, ErrorCopyFailed;
        }
        assert step == Step(ok, hc, code);
        if !ok {
          rv := code;
          BatchBreak(env, h, paths, hasCont, act, it, h1, r1);
          break;
        }
        BatchAdvance(env, h, paths, hasCont, act, it, h1, r1);
        reports := reports + [(path, true)];
      }
      it := it + 1;
    }
    if rv == NoError {
      BatchEnd(env, h, paths, hasCont, act, hc, reports);
    }
    reports := ReportRemaining(paths, it, reports);
    r := BatchResult(rv, hc, reports);
  }

  /** FileOperations::moveFiles */
  method MoveFiles(env: Env, h: History, paths: seq<Path>, dest: Path, hasCont: bool) returns (r: BatchResult)
    ensures r == BatchSpec(env, h, paths, 0, hasCont, MoveAct(env, dest))
  {
    ghost var act := MoveAct(env, dest);
    var rv := NoError;
    var hc := h;
    var reports: seq<(Path, bool)> := [];
    var it := 0;
    while it < |paths|
      invariant rv == NoError && BatchProgress(env, h, paths, hasCont, act, it, hc, reports)
    {
      ghost var h1, r1 := hc, reports;
      var c := Continue(env, hc, hasCont);
      hc := c.h;
      if !c.ok {
        BatchSkip(env, h, paths, hasCont, act, it, h1, r1);
      } else {
        var path := paths[it];
        var newName := Target(dest, path);
        var info := env.info(hc, path);
        ghost var step := act(hc, path);
        var ok;
        if info.isSymLink {
          var l := Do(env, hc, Link(info.symLinkTarget, newName));
          hc, ok := l.h, l.ok;
          if ok {
            var d := Do(env, hc, Remove(path));
            hc, ok := d.h, d.ok;
          }
        } else {
          var o := Do(env, hc, Rename(path, newName));
          hc, ok := o.h, o.ok;
        }
        assert step == Step(ok, hc, ErrorMoveFailed);
        if !ok {
          rv := ErrorMoveFailed;
          BatchBreak(env, h, paths, hasCont, act, it, h1, r1);
          break;
        }
        BatchAdvance(env, h, paths, hasCont, act, it, h1, r1);
        reports := reports + [(path, true)];
      }
      it := it + 1;
    }
    if rv == NoError {
      BatchEnd(env, h, paths, hasCont, act, hc, reports);
    }
    reports := ReportRemaining(paths, it, reports);
    r := BatchResult(rv, hc, reports);
  }

  /** FileOperations::deleteFiles */
  method DeleteFiles(env: Env, h: History, paths: seq<Path>, hasCont: bool) returns (r: BatchResult)
    ensures r == BatchSpec(env, h, paths, 0, hasCont, DeleteAct(env))
  {
    ghost var act := DeleteAct(env);
    var rv := NoError;
    var hc := h;
    var reports: seq<(Path, bool)> := [];
    var it := 0;
    while it < |paths|
      invariant rv == NoError && BatchProgress(env, h, paths, hasCont, act, it, hc, reports)
    {
      ghost var h1, r1 := hc, reports;
      var c := Continue(env, hc, hasCont);
      hc := c.h;
      if !c.ok {
        BatchSkip(env, h, paths, hasCont, act, it, h1, r1);
      } else {
        var path := paths[it];
        ghost var step := act(hc, path);
        var o := DeleteFile(env, hc, path);
        hc := o.h;
        assert step == Step(o.ok, hc, ErrorDeleteFailed);
        if !o.ok {
          rv := ErrorDeleteFailed;
          BatchBreak(env, h, paths, hasCont, act, it, h1, r1);
          break;
        }
        BatchAdvance(env, h, paths, hasCont, act, it, h1, r1);
        reports := reports + [(path, true)];
      }
      it := it + 1;
    }
    if rv == NoError {
      BatchEnd(env, h, paths, hasCont, act, hc, reports);
    }
    reports := ReportRemaining(paths, it, reports);
    r := BatchResult(rv, hc, reports);
  }

  // ---------------------------------------------------------------------
  // Properties of the batch loop

  predicate IsSubseq<T(==)>(a: seq<T>, b: seq<T>)
    decreases |b|
  {
    if a == [] then true
    else if b == [] then false
    else (a[0] == b[0] && IsSubseq(a[1..], b[1..])) || IsSubseq(a, b[1..])
  }

  lemma SubseqSkip<T>(a: seq<T>, b: seq<T>)
    requires |b| > 0 && IsSubseq(a, b[1..])
    ensures IsSubseq(a, b)
  {
  }

  /** The paths a batch reports succeeded, in the order it reports them. */
  function BatchSucceeded(env: Env, h: History, paths: seq<Path>, i: nat, hasCont: bool, act: Action): seq<Path>
    requires i <= |paths|
    decreases |paths| - i
  {
    if i == |paths| then []
    else
      var c := Continue(env, h, hasCont);
      if !c.ok then BatchSucceeded(env, c.h, paths, i + 1, hasCont, act)
      else
        var s := act(c.h, paths[i]);
        if !s.ok then []
        else [paths[i]] + BatchSucceeded(env, s.h, paths, i + 1, hasCont, act)
  }

  /**
   * The pathResult trace of a batch: first the successes, then exactly the
   * paths from the breaking index k on, each reported failed.
   */
  lemma {:induction false} BatchReports(env: Env, h: History, paths: seq<Path>, i: nat, hasCont: bool, act: Action)
    requires i <= |paths|
    ensures BatchSpec(env, h, paths, i, hasCont, act).reports ==
      SucceedAll(BatchSucceeded(env, h, paths, i, hasCont, act)) + FailAll(paths[BatchStop(env, h, paths, i, hasCont, act)..])
    decreases |paths| - i
  {
    if i < |paths| {
      var c := Continue(env, h, hasCont);
      if !c.ok {
        BatchReports(env, c.h, paths, i + 1, hasCont, act);
      } else {
        var s := act(c.h, paths[i]);
        if !s.ok {
          assert SucceedAll([]) == [];
        } else {
          BatchReports(env, s.h, paths, i + 1, hasCont, act);
          var rest := BatchSucceeded(env, s.h, paths, i + 1, hasCont, act);
          assert SucceedAll([paths[i]] + rest) == [(paths[i], true)] + SucceedAll(rest);
        }
      }
    } else {
      assert SucceedAll([]) == [] && FailAll(paths[i..]) == [];
    }
  }

  /** The succeeded paths appear, in input order, among the paths before the breaking index. */
  lemma {:induction false} BatchSucceededInOrder(env: Env, h: History, paths: seq<Path>, i: nat, hasCont: bool, act: Action)
    requires i <= |paths|
    ensures IsSubseq(BatchSucceeded(env, h, paths, i, hasCont, act), paths[i..BatchStop(env, h, paths, i, hasCont, act)])
    decreases |paths| - i
  {
    var k := BatchStop(env, h, paths, i, hasCont, act);
    if i < |paths| {
      var c := Continue(env, h, hasCont);
      if !c.ok {
        BatchSucceededInOrder(env, c.h, paths, i + 1, hasCont, act);
        assert paths[i..k][1..] == paths[i + 1..k];
        SubseqSkip(BatchSucceeded(env, h, paths, i, hasCont, act), paths[i..k]);
      } else {
        var s := act(c.h, paths[i]);
        if s.ok {
          BatchSucceededInOrder(env, s.h, paths, i + 1, hasCont, act);
          assert paths[i..k][1..] == paths[i + 1..k];
          assert paths[i..k][0] == paths[i];
        }
      }
    }
  }

  /**
   * The result code of a batch: NoError exactly when the loop did not
   * break, and otherwise one of the action's failure codes, namely the one
   * the action returned for the path it broke at.
   */
  lemma {:induction false} BatchResultCode(env: Env, h: History, paths: seq<Path>, i: nat, hasCont: bool, act: Action, codes: set<Error>)
    requires i <= |paths|
    requires NoError !in codes && FailsWithin(act, codes)
    ensures var r := BatchSpec(env, h, paths, i, hasCont, act);
      var k := BatchStop(env, h, paths, i, hasCont, act);
      (r.rv == NoError <==> k == |paths|) && (r.rv != NoError ==> r.rv in codes) &&
      (k < |paths| ==> exists g :: !act(g, paths[k]).ok && r.rv == act(g, paths[k]).err)
    decreases |paths| - i
  {
    if i < |paths| {
      var c := Continue(env, h, hasCont);
      if !c.ok {
        BatchResultCode(env, c.h, paths, i + 1, hasCont, act, codes);
      } else if act(c.h, paths[i]).ok {
        BatchResultCode(env, act(c.h, paths[i]).h, paths, i + 1, hasCont, act, codes);
      } else {
        assert !act(c.h, paths[i]).ok && BatchSpec(env, h, paths, i, hasCont, act).rv == act(c.h, paths[i]).err;
      }
    }
  }

  /**
   * When the continue function never refuses (or there is none), the
   * succeeded paths are exactly the paths before the breaking index, so,
   * with BatchReports, every path is reported exactly once, in input order.
   */
  lemma {:induction false} BatchNoCancelReports(env: Env, h: History, paths: seq<Path>, i: nat, hasCont: bool, act: Action)
    requires i <= |paths|
    requires hasCont ==> forall g :: env.proceed(g)
    ensures BatchSucceeded(env, h, paths, i, hasCont, act) == paths[i..BatchStop(env, h, paths, i, hasCont, act)]
    decreases |paths| - i
  {
    var k := BatchStop(env, h, paths, i, hasCont, act);
    if i < |paths| {
      var c := Continue(env, h, hasCont);
      assert c.ok;
      var s := act(c.h, paths[i]);
      if s.ok {
        BatchNoCancelReports(env, s.h, paths, i + 1, hasCont, act);
        assert paths[i..k] == [paths[i]] + paths[i + 1..k];
      }
    }
  }

  /**
   * When the continue function refuses every time, every path is skipped:
   * nothing is attempted, nothing is reported and the result stays NoError.
   */
  lemma {:induction false} BatchAllRefused(env: Env, h: History, paths: seq<Path>, i: nat, act: Action)
    requires i <= |paths|
    requires forall g :: !env.proceed(g)
    ensures var r := BatchSpec(env, h, paths, i, true, act);
      r.rv == NoError && r.reports == [] &&
      r.h == h + seq(|paths| - i, _ => Asked(false))
    decreases |paths| - i
  {
    if i < |paths| {
      BatchAllRefused(env, h + [Asked(false)], paths, i + 1, act);
      assert [Asked(false)] + seq(|paths| - (i + 1), _ => Asked(false)) == seq(|paths| - i, _ => Asked(false));
    }
  }

  /** How many times the continue function has answered "stop". */
  function CountRefused(h: History): nat {
    if h == [] then 0 else CountRefused(h[..|h| - 1]) + (if h[|h| - 1] == Asked(false) then 1 else 0)
  }

  lemma ExtendsTrans(h0: History, h1: History, h2: History)
    requires Extends(h0, h1) && Extends(h1, h2)
    ensures Extends(h0, h2)
  {
    assert h2[..|h0|] == h2[..|h1|][..|h0|];
  }

  /** A history only grows, and so does its count of refusals. */
  lemma {:induction false} CountRefusedGrows(h: History, h': History)
    requires Extends(h, h')
    ensures CountRefused(h) <= CountRefused(h')
    decreases |h'|
  {
    if |h'| > |h| {
      var p := h'[..|h'| - 1];
      assert p[..|h|] == h'[..|h|];
      CountRefusedGrows(h, p);
    } else {
      assert h' == h;
    }
  }

  /** Appending events none of which is a "stop" answer leaves the count of refusals as it was. */
  lemma {:induction false} NoRefusalAfter(h: History, h': History)
    requires Extends(h, h') && forall k :: |h| <= k < |h'| ==> h'[k] != Asked(false)
    ensures CountRefused(h') == CountRefused(h)
    decreases |h'|
  {
    if |h'| > |h| {
      var p := h'[..|h'| - 1];
      assert p[..|h|] == h'[..|h|];
      NoRefusalAfter(h, p);
    } else {
      assert h' == h;
    }
  }

  /** The action only appends to the history. */
  ghost predicate Appends(act: Action) {
    forall g, p :: Extends(g, act(g, p).h)
  }

  lemma ActionsAppend(env: Env, dest: Path, hasCont: bool, fuel: nat)
    ensures Appends(CopyAct(env, dest, hasCont, fuel))
    ensures Appends(MoveAct(env, dest))
    ensures Appends(DeleteAct(env))
  {
    forall g, p ensures Extends(g, CopyAct(env, dest, hasCont, fuel)(g, p).h) {
      if env.info(g, p).isDir {
        CopyDirTrace(env, g, p, Target(dest, p), hasCont, fuel);
      } else {
        CopyOverwriteTrace(env, g, p, Target(dest, p));
      }
    }
    forall g, p ensures Extends(g, MoveAct(env, dest)(g, p).h) {
      MoveStepEffect(env, g, p, dest);
    }
    forall g, p ensures Extends(g, DeleteAct(env)(g, p).h) {
      DeleteFileEffect(env, g, p);
    }
  }

  lemma {:induction false} BatchExtends(env: Env, h: History, paths: seq<Path>, i: nat, hasCont: bool, act: Action)
    requires i <= |paths| && Appends(act)
    ensures Extends(h, BatchSpec(env, h, paths, i, hasCont, act).h)
    decreases |paths| - i
  {
    if i < |paths| {
      var c := Continue(env, h, hasCont);
      assert Extends(h, c.h);
      if !c.ok {
        BatchExtends(env, c.h, paths, i + 1, hasCont, act);
        ExtendsTrans(h, c.h, BatchSpec(env, h, paths, i, hasCont, act).h);
      } else {
        var s := act(c.h, paths[i]);
        ExtendsTrans(h, c.h, s.h);
        if s.ok {
          BatchExtends(env, s.h, paths, i + 1, hasCont, act);
          ExtendsTrans(h, s.h, BatchSpec(env, h, paths, i, hasCont, act).h);
        }
      }
    }
  }

  /**
   * A batch during which the continue function never said "stop" skipped
   * nothing: the succeeded paths are exactly those before the breaking index.
   */
  lemma {:induction false} BatchUnrefusedSucceeds(env: Env, h: History, paths: seq<Path>, i: nat, hasCont: bool, act: Action)
    requires i <= |paths| && Appends(act)
    requires CountRefused(BatchSpec(env, h, paths, i, hasCont, act).h) == CountRefused(h)
    ensures BatchSucceeded(env, h, paths, i, hasCont, act) == paths[i..BatchStop(env, h, paths, i, hasCont, act)]
    decreases |paths| - i
  {
    var k := BatchStop(env, h, paths, i, hasCont, act);
    var r := BatchSpec(env, h, paths, i, hasCont, act);
    if i < |paths| {
      var c := Continue(env, h, hasCont);
      if !c.ok {
        assert c.h[..|c.h| - 1] == h;
        BatchExtends(env, c.h, paths, i + 1, hasCont, act);
        CountRefusedGrows(c.h, r.h);
        assert false;
      }
      var s := act(c.h, paths[i]);
      if s.ok {
        assert CountRefused(h) <= CountRefused(c.h) by {
          if hasCont { assert c.h[..|c.h| - 1] == h; }
        }
        assert Extends(c.h, s.h);
        CountRefusedGrows(c.h, s.h);
        BatchExtends(env, s.h, paths, i + 1, hasCont, act);
        CountRefusedGrows(s.h, r.h);
        BatchUnrefusedSucceeds(env, s.h, paths, i + 1, hasCont, act);
        assert paths[i..k] == [paths[i]] + paths[i + 1..k];
      }
    }
  }

  // ---------------------------------------------------------------------
  // Single-shot operations

  /** FileOperations::createDirectory: mkdir(path) inside directory, reported once. */
  function CreateDirectory(env: Env, h: History, path: string, directory: Path): (r: BatchResult)
    ensures var ok := env.succeeds(h, Mkdir(directory, path));
      r.h == h + [Did(Mkdir(directory, path), ok)] &&
      r.reports == [(path, ok)] &&
      r.rv == if ok then NoError else ErrorFolderCreationFailed
  {
    var o := Do(env, h, Mkdir(directory, path));
    BatchResult(if o.ok then NoError else ErrorFolderCreationFailed, o.h, [(path, o.ok)])
  }

  /** FileOperations::renameFile */
  function RenameFile(env: Env, h: History, path: Path, newPath: Path): (r: BatchResult)
    ensures var ok := env.succeeds(h, Rename(path, newPath));
      r.h == h + [Did(Rename(path, newPath), ok)] &&
      r.reports == [(path, ok)] &&
      r.rv == if ok then NoError else ErrorRenameFailed
  {
    var o := Do(env, h, Rename(path, newPath));
    BatchResult(if o.ok then NoError else ErrorRenameFailed, o.h, [(path, o.ok)])
  }

  /** FileOperations::chmodFile */
  function ChmodFile(env: Env, h: History, path: Path, perm: bv16): (r: BatchResult)
    ensures var ok := env.succeeds(h, SetPermissions(path, perm));
      r.h == h + [Did(SetPermissions(path, perm), ok)] &&
      r.reports == [(path, ok)] &&
      r.rv == if ok then NoError else ErrorChmodFailed
  {
    var o := Do(env, h, SetPermissions(path, perm));
    BatchResult(if o.ok then NoError else ErrorChmodFailed, o.h, [(path, o.ok)])
  }
}
