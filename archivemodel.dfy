/**
 * ArchiveModel: the listing of one directory of an archive, its status and
 * error text, the space an extraction needs, the record of extracted entries
 * and the guards that refuse work while an extraction runs. The archive is a
 * tree of entries; KArchiveDirectory::entry, which resolves a name or path
 * inside a directory, is a parameter (`entryAt`).
 */
module ArchiveModel {
  import opened Common
  import opened StringOrder

  /** A KArchiveEntry: a directory (with its entries) or a file (with its size). */
  datatype ArchiveEntry = ArchiveEntry(name: string, isDir: bool, size: nat, children: seq<ArchiveEntry>)

  /** ArchiveModel::Status */
  datatype Status = Null | Loading | Ready | Extracting | Error

  /** ArchiveModel::ErrorState */
  datatype ErrorState =
    | NoError
    | ErrorArchiveFileNoSet
    | ErrorArchiveNotFound
    | ErrorArchiveOpenFailed
    | ErrorArchiveExtractFailed
    | ErrorInvalidArchivePath
    | ErrorInvalidArchiveEntry
    | ErrorExtractingInProgress
    | ErrorUnsupportedArchiveFormat

  /** ExtractionMode */
  datatype ExtractionMode = SingleFile | WholeArchive

  /** What is kept for an extracted entry: its name and where it went. */
  datatype ExtractionInfo = ExtractionInfo(entry: string, absolutePath: Path)

  /** An extraction handed to the background job: the entry (empty for the whole archive), the target with its trailing '/', the mode. */
  datatype Job = Job(entryName: string, targetPath: Path, mode: ExtractionMode)

  datatype ArchiveEvent =
    | ErrorStateChanged
    | StatusChanged
    | ExtractingChanged
    | RequiredSpaceChanged
    | DataChanged(row: nat)
    | PathChanged

  /** Qt::CaseInsensitive folding, for the ASCII letters. */
  function FoldChar(c: char): char {
    if 'A' <= c <= 'Z' then (c as int + 32) as char else c
  }

  function FoldCase(s: string): (r: string)
    ensures |r| == |s| && forall k :: 0 <= k < |s| ==> r[k] == FoldChar(s[k])
  {
    if s == [] then [] else [FoldChar(s[0])] + FoldCase(s[1..])
  }

  /** compare: directories before files, otherwise case-insensitive name order. */
  predicate Compare(i: ArchiveEntry, j: ArchiveEntry) {
    if i.isDir && !j.isDir then true
    else if !i.isDir && j.isDir then false
    else Less(FoldCase(i.name), FoldCase(j.name))
  }

  /** The sort key compare orders by: a kind mark ("0" for a directory, "1" for a file) and the folded name. */
  function EntryKey(e: ArchiveEntry): string {
    (if e.isDir then "0" else "1") + FoldCase(e.name)
  }

  /** compare is exactly "key less than", which makes it a strict weak order that std::sort may use. */
  lemma CompareIsKeyOrder(i: ArchiveEntry, j: ArchiveEntry)
    ensures Compare(i, j) == Less(EntryKey(i), EntryKey(j))
  {
    var a := EntryKey(i);
    var b := EntryKey(j);
    assert a[0] == (if i.isDir then '0' else '1') && a[1..] == FoldCase(i.name);
    assert b[0] == (if j.isDir then '0' else '1') && b[1..] == FoldCase(j.name);
  }

  /** A directory comes before a file and never after one; no entry comes before itself or before its own case variant. */
  lemma CompareMeaning(i: ArchiveEntry, j: ArchiveEntry)
    ensures i.isDir && !j.isDir ==> Compare(i, j) && !Compare(j, i)
    ensures !Compare(i, i)
    ensures i.isDir == j.isDir && FoldCase(i.name) == FoldCase(j.name) ==> !Compare(i, j)
    ensures Compare(i, j) ==> !Compare(j, i)
  {
    LessIrreflexive(FoldCase(i.name));
    CompareIsKeyOrder(i, j);
    CompareIsKeyOrder(j, i);
    if Compare(i, j) {
      LessAsymmetric(EntryKey(i), EntryKey(j));
    }
  }

  /**
   * std::sort(entryList.begin(), entryList.end(), compare). The insertion
   * sort here fixes an order for entries compare treats as equal (case
   * variants of one name); std::sort leaves that order open, so only the
   * multiset and the compare order are promised (SortEntriesMeaning).
   */
  function SortEntries(list: seq<ArchiveEntry>): seq<ArchiveEntry> {
    SortBy(list, EntryKey)
  }

  /** The sorted list is the same entries, and no entry is followed by one compare puts first. */
  lemma SortEntriesMeaning(list: seq<ArchiveEntry>)
    ensures multiset(SortEntries(list)) == multiset(list)
    ensures var s := SortEntries(list);
      forall a, b :: 0 <= a < b < |s| ==> !Compare(s[b], s[a])
  {
    SortByMeaning(list, EntryKey);
    var s := SortEntries(list);
    forall a, b | 0 <= a < b < |s|
      ensures !Compare(s[b], s[a])
    {
      CompareIsKeyOrder(s[b], s[a]);
    }
  }

  /** KArchiveDirectory::entries(): the names of a directory's entries. */
  function EntryNames(d: ArchiveEntry): (r: seq<string>)
    ensures |r| == |d.children| && forall k :: 0 <= k < |r| ==> r[k] == d.children[k].name
  {
    seq(|d.children|, k requires 0 <= k < |d.children| => d.children[k].name)
  }

  /** updateDirectory's loop: each name looked up in turn, stopping at the first one the directory does not resolve. */
  function Listed(dir: ArchiveEntry, names: seq<string>, entryAt: (ArchiveEntry, string) -> Option<ArchiveEntry>): seq<ArchiveEntry> {
    if names == [] then []
    else match entryAt(dir, names[0])
      case None => []
      case Some(e) => [e] + Listed(dir, names[1..], entryAt)
  }

  predicate AllFound(dir: ArchiveEntry, names: seq<string>, entryAt: (ArchiveEntry, string) -> Option<ArchiveEntry>) {
    forall k :: 0 <= k < |names| ==> entryAt(dir, names[k]).Some?
  }

  /** When the directory resolves each of its own entries to itself, the listing is exactly its entries. */
  lemma {:induction false} ListedChildren(dir: ArchiveEntry, from: nat, entryAt: (ArchiveEntry, string) -> Option<ArchiveEntry>)
    requires from <= |dir.children|
    requires forall c :: c in dir.children ==> entryAt(dir, c.name) == Some(c)
    ensures Listed(dir, EntryNames(dir)[from..], entryAt) == dir.children[from..]
    ensures AllFound(dir, EntryNames(dir)[from..], entryAt)
    decreases |dir.children| - from
  {
    if from < |dir.children| {
      ListedChildren(dir, from + 1, entryAt);
      assert EntryNames(dir)[from..][1..] == EntryNames(dir)[from + 1..];
      assert dir.children[from..] == [dir.children[from]] + dir.children[from + 1..];
    }
  }

  /**
   * In the usual case, where a directory resolves each of its entries'
   * names to that entry, updateDirectory lists every entry of the
   * directory once, directories first and names in case-insensitive order.
   */
  lemma DirectoryListing(dir: ArchiveEntry, entryAt: (ArchiveEntry, string) -> Option<ArchiveEntry>)
    requires forall c :: c in dir.children ==> entryAt(dir, c.name) == Some(c)
    ensures AllFound(dir, EntryNames(dir), entryAt)
    ensures multiset(SortEntries(Listed(dir, EntryNames(dir), entryAt))) == multiset(dir.children)
    ensures var s := SortEntries(Listed(dir, EntryNames(dir), entryAt));
      forall a, b :: 0 <= a < b < |s| ==> !Compare(s[b], s[a])
  {
    ListedChildren(dir, 0, entryAt);
    assert EntryNames(dir)[0..] == EntryNames(dir) && dir.children[0..] == dir.children;
    SortEntriesMeaning(Listed(dir, EntryNames(dir), entryAt));
  }

  /**
   * The space the files under position i of a directory need: each file's
   * size, and the same sum for each subdirectory.
   */
  function SpaceFrom(dir: ArchiveEntry, i: nat): nat
    decreases dir, |dir.children| - i
  {
    if i >= |dir.children| then 0
    else
      var e := dir.children[i];
      (if !e.isDir then e.size else SpaceFrom(e, 0)) + SpaceFrom(dir, i + 1)
  }

  /** All the files of a tree, depth first. */
  function FilesFrom(dir: ArchiveEntry, i: nat): (r: seq<ArchiveEntry>)
    ensures forall f :: f in r ==> !f.isDir
    decreases dir, |dir.children| - i
  {
    if i >= |dir.children| then []
    else
      var e := dir.children[i];
      (if !e.isDir then [e] else FilesFrom(e, 0)) + FilesFrom(dir, i + 1)
  }

  function SizeSum(files: seq<ArchiveEntry>): nat {
    if files == [] then 0 else files[0].size + SizeSum(files[1..])
  }

  lemma {:induction false} SizeSumAppend(a: seq<ArchiveEntry>, b: seq<ArchiveEntry>)
    ensures SizeSum(a + b) == SizeSum(a) + SizeSum(b)
  {
    if a == [] {
      assert a + b == b;
    } else {
      assert (a + b)[1..] == a[1..] + b;
      SizeSumAppend(a[1..], b);
    }
  }

  /** The space requirement is the total size of every file in the tree, however deep. */
  lemma {:induction false} SpaceIsFileSizes(dir: ArchiveEntry, i: nat)
    ensures SpaceFrom(dir, i) == SizeSum(FilesFrom(dir, i))
    decreases dir, |dir.children| - i
  {
    if i < |dir.children| {
      var e := dir.children[i];
      SpaceIsFileSizes(dir, i + 1);
      if e.isDir {
        SpaceIsFileSizes(e, 0);
        SizeSumAppend(FilesFrom(e, 0), FilesFrom(dir, i + 1));
      } else {
        SizeSumAppend([e], FilesFrom(dir, i + 1));
      }
    }
  }

  /** The errorString setStatus leaves for an error state, given the archive's file path and the previous text. */
  function ErrorText(e: ErrorState, file: Path, previous: string): string {
    match e
    case NoError => ""
    case ErrorArchiveNotFound => "Archive not found: " + file
    case ErrorArchiveOpenFailed => "Failed to open archive: " + file + ". Check read permissions."
    case ErrorInvalidArchivePath => "Invalid archive path. Is archive broken?"
    case ErrorInvalidArchiveEntry => "Invalid archive entry. Is archive broken?"
    case ErrorUnsupportedArchiveFormat => "Unsupported archive " + FileName(file)
    case _ => previous
  }

  predicate HasMessage(e: ErrorState) {
    e.ErrorArchiveNotFound? || e.ErrorArchiveOpenFailed? || e.ErrorInvalidArchivePath? ||
    e.ErrorInvalidArchiveEntry? || e.ErrorUnsupportedArchiveFormat?
  }

  /** Two letters of a mapped state's text that tell it apart: the first, and the seventeenth. */
  function Marks(e: ErrorState): (char, char) {
    match e
    case ErrorArchiveNotFound => ('A', 'd')
    case ErrorArchiveOpenFailed => ('F', 'r')
    case ErrorInvalidArchivePath => ('I', 'p')
    case ErrorInvalidArchiveEntry => ('I', 'e')
    case _ => ('U', 'i')
  }

  lemma TextMarks(e: ErrorState, file: Path, previous: string)
    requires HasMessage(e)
    ensures var t := ErrorText(e, file, previous);
      |t| > 16 && t[0] == Marks(e).0 && t[16] == Marks(e).1
  {
  }

  /**
   * The five mapped error states each get their own text, which tells the
   * state apart from every other whatever the file; NoError clears the text,
   * every other state leaves it as it was.
   */
  lemma ErrorTextMeaning(e1: ErrorState, e2: ErrorState, f1: Path, f2: Path, p1: string, p2: string)
    ensures !HasMessage(e1) && !e1.NoError? ==> ErrorText(e1, f1, p1) == p1
    ensures HasMessage(e1) ==> ErrorText(e1, f1, p1) != ""
    ensures HasMessage(e1) && HasMessage(e2) && e1 != e2 ==> ErrorText(e1, f1, p1) != ErrorText(e2, f2, p2)
  {
    if HasMessage(e1) {
      TextMarks(e1, f1, p1);
      if HasMessage(e2) {
        TextMarks(e2, f2, p2);
      }
    }
  }

  /** The signals of one setStatus: errorStateChanged, then statusChanged, each only on a change. */
  function StatusEvents(s0: Status, e0: ErrorState, s: Status, e: ErrorState): seq<ArchiveEvent> {
    (if e0 != e then [ErrorStateChanged] else []) + (if s0 != s then [StatusChanged] else [])
  }

  /** findIndex: the first row whose entry has the name, or -1. */
  function FindIndex(list: seq<ArchiveEntry>, name: string): (r: int)
    ensures -1 <= r < |list|
    ensures r == -1 <==> forall k :: 0 <= k < |list| ==> list[k].name != name
    ensures r >= 0 ==> list[r].name == name && forall k :: 0 <= k < r ==> list[k].name != name
  {
    if list == [] then -1
    else if list[0].name == name then 0
    else
      var r := FindIndex(list[1..], name);
      assert forall k :: 1 <= k < |list| ==> list[k] == list[1..][k - 1];
      if r == -1 then -1 else r + 1
  }

  /** The target path with a trailing separator, as appendPath and scheduleExtract make it. */
  function WithSeparator(p: Path): (r: Path)
    ensures EndsWith(r, "/") && StartsWith(r, p)
    ensures EndsWith(p, "/") ==> r == p
    ensures !EndsWith(p, "/") ==> r == p + "/"
  {
    if EndsWith(p, "/") then p else p + "/"
  }

  /** Adding the separator twice adds it once. */
  lemma WithSeparatorIdempotent(p: Path)
    ensures WithSeparator(WithSeparator(p)) == WithSeparator(p)
  {
  }

  class ArchiveModel {
    var status: Status
    var errorState: ErrorState
    var errorString: string
    /** required space, in bytes, accumulated over the trees measured */
    var requiredSpace: nat
    var path: Path
    var populated: bool
    var extracting: bool
    /** archiveInfo.file() */
    var archiveFile: Path
    /** The opened archive's root directory; None while no archive is set. */
    var archive: Option<ArchiveEntry>
    var currentDirectory: Option<ArchiveEntry>
    var entryList: seq<ArchiveEntry>
    var extractedEntries: map<string, ExtractionInfo>
    /** The extraction handed to the background job, if any. */
    var job: Option<Job>
    var events: seq<ArchiveEvent>

    /** ArchiveModelPrivate's initial state. */
    constructor ()
      ensures status == Null && errorState == ErrorState.NoError && errorString == "" && requiredSpace == 0
      ensures path == "/" && !populated && !extracting && archiveFile == ""
      ensures archive == None && currentDirectory == None && entryList == [] && extractedEntries == map[]
      ensures job == None && events == []
    {
      status := Null;
      errorState := ErrorState.NoError;
      errorString := "";
      requiredSpace := 0;
      path := "/";
      populated := false;
      extracting := false;
      archiveFile := "";
      archive := None;
      currentDirectory := None;
      entryList := [];
      extractedEntries := map[];
      job := None;
      events := [];
    }

    /** Everything but status, errorState, errorString and the events is as it was. */
    twostate predicate ListingKept()
      reads this
    {
      requiredSpace == old(requiredSpace) && path == old(path) && populated == old(populated) &&
      extracting == old(extracting) && archiveFile == old(archiveFile) && archive == old(archive) &&
      currentDirectory == old(currentDirectory) && entryList == old(entryList) &&
      extractedEntries == old(extractedEntries) && job == old(job)
    }

    /** ArchiveModelPrivate::setStatus */
    method SetStatus(s: Status, e: ErrorState)
      modifies this
      ensures status == s && errorState == e && errorString == ErrorText(e, archiveFile, old(errorString))
      ensures events == old(events) + StatusEvents(old(status), old(errorState), s, e)
      ensures ListingKept()
    {
      // a message for the mapped states, cleared for NoError, kept otherwise
      var changed := StatusEvents(status, errorState, s, e);
      errorString, events, errorState, status := ErrorText(e, archiveFile, errorString), events + changed, e, s;
    }

    /** The lookup loop of updateDirectory. */
    static method ListEntries(dir: ArchiveEntry, names: seq<string>, entryAt: (ArchiveEntry, string) -> Option<ArchiveEntry>)
      returns (list: seq<ArchiveEntry>, broken: bool)
      ensures list == Listed(dir, names, entryAt)
      ensures broken <==> !AllFound(dir, names, entryAt)
    {
      list := [];
      var i := 0;
      while i < |names|
        invariant i <= |names|
        invariant list + Listed(dir, names[i..], entryAt) == Listed(dir, names, entryAt)
        invariant AllFound(dir, names[..i], entryAt)
      {
        assert names[i..][1..] == names[i + 1..];
        match entryAt(dir, names[i]) {
          case None =>
            assert !AllFound(dir, names, entryAt) by {
              assert entryAt(dir, names[i]).None?;
            }
            return list, true;
          case Some(e) =>
            list := list + [e];
            assert names[..i + 1] == names[..i] + [names[i]];
        }
        i := i + 1;
      }
      assert names[..i] == names;
      broken := false;
    }

    /**
     * ArchiveModelPrivate::updateDirectory: with no current directory, or a
     * path that does not resolve to a directory, the listing is kept and the
     * model is in error; otherwise the resolved directory becomes current
     * and its entries, looked up one by one, are listed in compare order, and
     * the model ends Ready whether or not a lookup failed on the way.
     */
    method UpdateDirectory(entryAt: (ArchiveEntry, string) -> Option<ArchiveEntry>)
      modifies this
      ensures requiredSpace == old(requiredSpace) && path == old(path) && populated == old(populated)
      ensures extracting == old(extracting) && archiveFile == old(archiveFile) && archive == old(archive)
      ensures extractedEntries == old(extractedEntries) && job == old(job)
      ensures old(currentDirectory).None? ==>
        status == Error && errorState == ErrorArchiveFileNoSet && errorString == old(errorString) &&
        currentDirectory == old(currentDirectory) && entryList == old(entryList) &&
        events == old(events) + StatusEvents(old(status), old(errorState), Error, ErrorArchiveFileNoSet)
      ensures old(currentDirectory).Some? ==>
        var found := entryAt(old(currentDirectory).value, old(path));
        if found.None? || !found.value.isDir then
          status == Error && errorState == ErrorInvalidArchivePath &&
          errorString == ErrorText(ErrorInvalidArchivePath, archiveFile, old(errorString)) &&
          currentDirectory == old(currentDirectory) && entryList == old(entryList) &&
          events == old(events) + StatusEvents(old(status), old(errorState), Error, ErrorInvalidArchivePath)
        else
          ListedIn(old(events), old(status), old(errorState), found.value, entryAt)
    {
      if currentDirectory.None? {
        SetStatus(Error, ErrorArchiveFileNoSet);
        return;
      }
      var entry := entryAt(currentDirectory.value, path);
      if entry.None? || !entry.value.isDir {
        SetStatus(Error, ErrorInvalidArchivePath);
        return;
      }
      ListDirectory(entry.value, entryAt);
    }

    /** The state updateDirectory leaves after listing directory d. */
    ghost predicate ListedIn(ev0: seq<ArchiveEvent>, s0: Status, e0: ErrorState, d: ArchiveEntry,
                             entryAt: (ArchiveEntry, string) -> Option<ArchiveEntry>)
      reads this
    {
      var broken := !AllFound(d, EntryNames(d), entryAt);
      currentDirectory == Some(d) && entryList == SortEntries(Listed(d, EntryNames(d), entryAt)) &&
      status == Ready && errorState == ErrorState.NoError && errorString == "" &&
      events == ev0 + StatusEvents(s0, e0, Loading, ErrorState.NoError) +
        (if broken then StatusEvents(Loading, ErrorState.NoError, Error, ErrorInvalidArchiveEntry) else []) +
        StatusEvents(if broken then Error else Loading, if broken then ErrorInvalidArchiveEntry else ErrorState.NoError,
                     Ready, ErrorState.NoError)
    }

    /** The second half of updateDirectory: the resolved directory becomes current and is listed. */
    method ListDirectory(d: ArchiveEntry, entryAt: (ArchiveEntry, string) -> Option<ArchiveEntry>)
      modifies this
      ensures requiredSpace == old(requiredSpace) && path == old(path) && populated == old(populated)
      ensures extracting == old(extracting) && archiveFile == old(archiveFile) && archive == old(archive)
      ensures extractedEntries == old(extractedEntries) && job == old(job)
      ensures ListedIn(old(events), old(status), old(errorState), d, entryAt)
    {
      SetStatus(Loading, ErrorState.NoError);
      ghost var loaded := events;
      currentDirectory := Some(d);
      entryList := [];
      var list, broken := ListEntries(d, EntryNames(d), entryAt);
      if broken {
        SetStatus(Error, ErrorInvalidArchiveEntry);
      }
      assert events == loaded + if broken then StatusEvents(Loading, ErrorState.NoError, Error, ErrorInvalidArchiveEntry) else [];
      entryList := SortEntries(list);
      SetStatus(Ready, ErrorState.NoError);
    }

    /** calculateSpaceRequirement(dir, path): every file's size under dir is added to requiredSpace. */
    method AddSpaceOf(dir: ArchiveEntry)
      modifies this
      ensures requiredSpace == old(requiredSpace) + SpaceFrom(dir, 0)
      ensures status == old(status) && errorState == old(errorState) && errorString == old(errorString)
      ensures events == old(events) && entryList == old(entryList) && extractedEntries == old(extractedEntries)
      ensures path == old(path) && populated == old(populated) && extracting == old(extracting)
      ensures archiveFile == old(archiveFile) && archive == old(archive) && currentDirectory == old(currentDirectory)
      ensures job == old(job)
      decreases dir
    {
      var i := 0;
      while i < |dir.children|
        invariant i <= |dir.children|
        invariant requiredSpace + SpaceFrom(dir, i) == old(requiredSpace) + SpaceFrom(dir, 0)
        invariant status == old(status) && errorState == old(errorState) && errorString == old(errorString)
        invariant events == old(events) && entryList == old(entryList) && extractedEntries == old(extractedEntries)
        invariant path == old(path) && populated == old(populated) && extracting == old(extracting)
        invariant archiveFile == old(archiveFile) && archive == old(archive) && currentDirectory == old(currentDirectory)
        invariant job == old(job)
      {
        var entry := dir.children[i];
        if !entry.isDir {
          requiredSpace := requiredSpace + entry.size;
        } else {
          AddSpaceOf(entry);
        }
        i := i + 1;
      }
    }

    /**
     * ArchiveModelPrivate::calculateSpaceRequirement: the whole archive's
     * file sizes are added to what was there (it is not reset first), and
     * requiredSpaceChanged is signalled when that changed the figure.
     */
    method CalculateSpaceRequirement()
      requires archive.Some?
      modifies this
      ensures requiredSpace == old(requiredSpace) + SizeSum(FilesFrom(old(archive).value, 0))
      ensures events == old(events) + if requiredSpace != old(requiredSpace) then [RequiredSpaceChanged] else []
      ensures status == old(status) && errorState == old(errorState) && errorString == old(errorString)
      ensures job == old(job) && populated == old(populated) && archiveFile == old(archiveFile)
      ensures entryList == old(entryList) && extractedEntries == old(extractedEntries) && archive == old(archive)
      ensures currentDirectory == old(currentDirectory) && extracting == old(extracting) && path == old(path)
    {
      var reqSpace := requiredSpace;
      SpaceIsFileSizes(archive.value, 0);
      AddSpaceOf(archive.value);
      if reqSpace != requiredSpace {
        events := events + [RequiredSpaceChanged];
      }
    }

    /** ArchiveModelPrivate::scheduleExtract, up to handing the job to the background. */
    method ScheduleExtract(entryName: string, targetPath: Path, mode: ExtractionMode)
      modifies this
      ensures job == Some(Job(entryName, WithSeparator(targetPath), mode)) && extracting
      ensures status == Extracting && errorState == ErrorState.NoError && errorString == ""
      ensures events == old(events) + StatusEvents(old(status), old(errorState), Extracting, ErrorState.NoError) + [ExtractingChanged]
      ensures entryList == old(entryList) && extractedEntries == old(extractedEntries) && archive == old(archive)
      ensures currentDirectory == old(currentDirectory) && path == old(path) && requiredSpace == old(requiredSpace)
    {
      var target := WithSeparator(targetPath);
      SetStatus(Extracting, ErrorState.NoError);
      extracting := true;
      events := events + [ExtractingChanged];
      job := Some(Job(entryName, target, mode));
    }

    /**
     * The bookkeeping when the background extraction reports back: the
     * status follows its error state, extracting ends, and a single file
     * extracted without error is recorded once, if it is still listed.
     * doExtractFile reports a successful extraction under the job's entry.
     */
    method FinishExtraction(state: ErrorState, info: ExtractionInfo)
      requires job.Some?
      requires job.value.mode == SingleFile && state == ErrorState.NoError ==> info.entry == job.value.entryName
      modifies this
      ensures status == (if state == ErrorState.NoError then Ready else Error) && errorState == state && !extracting && job == None
      ensures var recorded := state == ErrorState.NoError && old(job).value.mode == SingleFile &&
                              FindIndex(entryList, info.entry) >= 0 && info.entry !in old(extractedEntries);
        extractedEntries == (if recorded then old(extractedEntries)[info.entry := info] else old(extractedEntries)) &&
        events == old(events) + StatusEvents(old(status), old(errorState), status, state) + [ExtractingChanged] +
          (if recorded then [DataChanged(FindIndex(entryList, info.entry))] else [])
      ensures entryList == old(entryList) && archive == old(archive) && currentDirectory == old(currentDirectory)
      ensures path == old(path) && requiredSpace == old(requiredSpace)
    {
      var mode := job.value.mode;
      if state == ErrorState.NoError {
        SetStatus(Ready, state);
      } else {
        SetStatus(Error, state);
      }
      extracting := false;
      events := events + [ExtractingChanged];
      if state == ErrorState.NoError && mode == SingleFile {
        var i := FindIndex(entryList, info.entry);
        if i >= 0 && info.entry !in extractedEntries {
          extractedEntries := extractedEntries[info.entry := info];
          events := events + [DataChanged(i)];
        }
      }
      job := None;
    }

    /** ArchiveModel::extractAllFiles */
    method ExtractAllFiles(targetPath: Path) returns (ok: bool)
      modifies this
      ensures ok <==> !old(extracting) && old(archive).Some?
      ensures old(extracting) ==>
        status == Extracting && errorState == ErrorExtractingInProgress && job == old(job) && extracting
      ensures !old(extracting) && old(archive).None? ==>
        status == Error && errorState == ErrorArchiveFileNoSet && job == old(job) && !extracting
      ensures ok ==> job == Some(Job("", WithSeparator(targetPath), WholeArchive)) && extracting && status == Extracting
      ensures entryList == old(entryList) && extractedEntries == old(extractedEntries) && archive == old(archive)
      ensures currentDirectory == old(currentDirectory) && path == old(path)
    {
      if extracting {
        SetStatus(Extracting, ErrorExtractingInProgress);
        return false;
      }
      if archive.None? {
        SetStatus(Error, ErrorArchiveFileNoSet);
        return false;
      }
      ScheduleExtract("", targetPath, WholeArchive);
      return true;
    }

    /** ArchiveModel::extractFile: without a current directory nothing starts; only a missing archive is reported. */
    method ExtractFile(entryName: string, targetPath: Path) returns (ok: bool)
      modifies this
      ensures ok <==> !old(extracting) && old(currentDirectory).Some?
      ensures old(extracting) ==>
        status == Extracting && errorState == ErrorExtractingInProgress && job == old(job) && extracting
      ensures !old(extracting) && old(currentDirectory).None? && old(archive).Some? ==>
        status == old(status) && errorState == old(errorState) && events == old(events) && job == old(job)
      ensures !old(extracting) && old(currentDirectory).None? && old(archive).None? ==>
        status == Error && errorState == ErrorArchiveFileNoSet && job == old(job)
      ensures ok ==> job == Some(Job(entryName, WithSeparator(targetPath), SingleFile)) && extracting && status == Extracting
      ensures entryList == old(entryList) && extractedEntries == old(extractedEntries) && archive == old(archive)
      ensures currentDirectory == old(currentDirectory) && path == old(path)
    {
      if extracting {
        SetStatus(Extracting, ErrorExtractingInProgress);
        return false;
      }
      if currentDirectory.None? {
        if archive.None? {
          SetStatus(Error, ErrorArchiveFileNoSet);
        }
        return false;
      }
      ScheduleExtract(entryName, targetPath, SingleFile);
      return true;
    }

    /**
     * ArchiveModel::cleanExtractedEntry: refused while extracting; otherwise
     * the record goes if the entry is both recorded and listed, and the call
     * succeeds either way.
     */
    method CleanExtractedEntry(entry: string) returns (ok: bool)
      modifies this
      ensures ok <==> !old(extracting)
      ensures old(extracting) ==>
        status == Extracting && errorState == ErrorExtractingInProgress && extractedEntries == old(extractedEntries) &&
        events == old(events) + StatusEvents(old(status), old(errorState), Extracting, ErrorExtractingInProgress)
      ensures !old(extracting) ==>
        var i := FindIndex(entryList, entry);
        var removed := entry in old(extractedEntries) && i >= 0;
        status == old(status) && errorState == old(errorState) &&
        extractedEntries == (if removed then old(extractedEntries) - {entry} else old(extractedEntries)) &&
        events == old(events) + if removed then [DataChanged(i)] else []
      ensures entryList == old(entryList) && extracting == old(extracting) && job == old(job)
      ensures path == old(path) && currentDirectory == old(currentDirectory)
    {
      if extracting {
        SetStatus(Extracting, ErrorExtractingInProgress);
        return false;
      }
      var entryIndex := FindIndex(entryList, entry);
      if entry in extractedEntries && entryIndex >= 0 {
        extractedEntries := extractedEntries - {entry};
        events := events + [DataChanged(entryIndex)];
      }
      return true;
    }

    /** ArchiveModel::setPath: ignored while extracting; a new path re-lists the directory once an archive is populated. */
    method SetPath(p: Path, entryAt: (ArchiveEntry, string) -> Option<ArchiveEntry>)
      modifies this
      ensures old(extracting) || old(path) == p ==>
        path == old(path) && events == old(events) && entryList == old(entryList) && status == old(status)
      ensures !old(extracting) && old(path) != p ==>
        path == p && |events| > |old(events)| && events[|events| - 1] == PathChanged
      ensures !old(extracting) && old(path) != p && !old(populated) ==>
        events == old(events) + [PathChanged] && entryList == old(entryList) && status == old(status)
      ensures !old(extracting) && old(path) != p && old(populated) && old(currentDirectory).None? ==>
        status == Error && errorState == ErrorArchiveFileNoSet && entryList == old(entryList)
      ensures !old(extracting) && old(path) != p && old(populated) && old(currentDirectory).Some? ==>
        var found := entryAt(old(currentDirectory).value, p);
        if found.None? || !found.value.isDir then
          status == Error && errorState == ErrorInvalidArchivePath && entryList == old(entryList) &&
          currentDirectory == old(currentDirectory)
        else
          currentDirectory == found && status == Ready && errorState == ErrorState.NoError &&
          entryList == SortEntries(Listed(found.value, EntryNames(found.value), entryAt))
      ensures extracting == old(extracting) && extractedEntries == old(extractedEntries) && job == old(job)
    {
      if extracting {
        return;
      }
      if path != p {
        path := p;
        if populated {
          UpdateDirectory(entryAt);
        }
        events := events + [PathChanged];
      }
    }

    /**
     * ArchiveModel::appendPath: the path with a trailing separator and the
     * name, when the current directory holds a directory of that name;
     * otherwise "" and an error status.
     */
    method AppendPath(pathName: string, entryAt: (ArchiveEntry, string) -> Option<ArchiveEntry>) returns (target: Path)
      modifies this
      ensures old(currentDirectory).None? ==> target == "" && status == Error && errorState == ErrorArchiveFileNoSet
      ensures old(currentDirectory).Some? ==>
        var e := entryAt(old(currentDirectory).value, pathName);
        (e.None? ==> target == "" && status == Error && errorState == ErrorInvalidArchiveEntry) &&
        (e.Some? && !e.value.isDir ==> target == "" && status == Error && errorState == ErrorInvalidArchivePath) &&
        (e.Some? && e.value.isDir ==>
          target == WithSeparator(path) + pathName && status == old(status) && errorState == old(errorState) &&
          events == old(events))
      ensures ListingKept()
    {
      if currentDirectory.None? {
        SetStatus(Error, ErrorArchiveFileNoSet);
        return "";
      }
      var targetPath := path;
      if !EndsWith(targetPath, "/") {
        targetPath := targetPath + "/";
      }
      targetPath := targetPath + pathName;
      var entry := entryAt(currentDirectory.value, pathName);
      if entry.None? {
        SetStatus(Error, ErrorInvalidArchiveEntry);
        return "";
      } else if !entry.value.isDir {
        SetStatus(Error, ErrorInvalidArchivePath);
        return "";
      }
      return targetPath;
    }
  }
}
