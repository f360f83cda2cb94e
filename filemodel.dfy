/**
 * FileModel: the list of a directory's entries shown to QML, each with a
 * selected flag, together with the cached number of selected entries, the
 * active/dirty refresh state, and the QDir filter and sort flags the model
 * asks for.
 */
module FileModel {
  import opened Common

  /** A StatFileInfo as the model uses it: its absolute path and whether it is selected. */
  datatype Entry = Entry(absolutePath: Path, selected: bool)

  /** What the directory read finds: QDir::exists, access(R_OK), and QDir::entryList in its sort order. */
  datatype Listing = Listing(present: bool, readable: bool, names: seq<string>)

  datatype ModelEvent =
    | DataChanged(row: nat)
    | SelectedCountChanged
    | CountChanged
    | ActiveChanged
    | ModelReset
    | ErrorReadNoPermissions(path: Path)

  /** The number of selected entries. */
  function SelectedCount(files: seq<Entry>): nat {
    if files == [] then 0
    else SelectedCount(files[..|files| - 1]) + if files[|files| - 1].selected then 1 else 0
  }

  /** The absolute paths of the selected entries, in list order. */
  function SelectedPaths(files: seq<Entry>): seq<Path> {
    if files == [] then []
    else SelectedPaths(files[..|files| - 1]) + if files[|files| - 1].selected then [files[|files| - 1].absolutePath] else []
  }

  /** There is one selected path per selected entry, and each is the path of a selected entry. */
  lemma {:induction false} SelectedPathsMatchCount(files: seq<Entry>)
    ensures |SelectedPaths(files)| == SelectedCount(files) <= |files|
    ensures forall p :: p in SelectedPaths(files) <==>
      exists k :: 0 <= k < |files| && files[k].selected && files[k].absolutePath == p
  {
    if files != [] {
      var init := files[..|files| - 1];
      SelectedPathsMatchCount(init);
      assert forall k :: 0 <= k < |init| ==> init[k] == files[k];
    }
  }

  /** Flipping one entry's flag moves the count by exactly one. */
  lemma {:induction false} SelectedCountFlip(files: seq<Entry>, i: nat)
    requires i < |files|
    ensures var flipped := files[i := files[i].(selected := !files[i].selected)];
      SelectedCount(flipped) == if files[i].selected then SelectedCount(files) - 1 else SelectedCount(files) + 1
  {
    var flipped := files[i := files[i].(selected := !files[i].selected)];
    var n := |files|;
    if i == n - 1 {
      assert flipped[..n - 1] == files[..n - 1];
    } else {
      assert flipped[..n - 1] == files[..n - 1][i := files[i].(selected := !files[i].selected)];
      SelectedCountFlip(files[..n - 1], i);
    }
  }

  /** Entries all deselected count nothing; all selected count every entry. */
  lemma {:induction false} SelectedCountUniform(files: seq<Entry>, flag: bool)
    requires forall k :: 0 <= k < |files| ==> files[k].selected == flag
    ensures SelectedCount(files) == if flag then |files| else 0
  {
    if files != [] {
      SelectedCountUniform(files[..|files| - 1], flag);
    }
  }

  /** One DataChanged per row, for rows 0 .. n-1. */
  function RowsChanged(n: nat): (r: seq<ModelEvent>)
    ensures |r| == n && forall k :: 0 <= k < n ==> r[k] == DataChanged(k)
  {
    seq(n, k requires 0 <= k < n => DataChanged(k))
  }

  /** The entries with every flag set to the given value, in the same order. */
  function WithSelection(files: seq<Entry>, flag: bool): (r: seq<Entry>)
    ensures |r| == |files|
    ensures forall k :: 0 <= k < |files| ==> r[k] == files[k].(selected := flag)
  {
    seq(|files|, k requires 0 <= k < |files| => files[k].(selected := flag))
  }

  /** The directoryEntries filter: the names QFile::copy's qt_temp.* leftovers are not among, in order. */
  function VisibleNames(names: seq<string>): seq<string> {
    if names == [] then []
    else
      var rest := VisibleNames(names[..|names| - 1]);
      var last := names[|names| - 1];
      if StartsWith(last, "qt_temp.") then rest else rest + [last]
  }

  /** Exactly the names that do not start with "qt_temp." are kept, none more than the input has. */
  lemma {:induction false} VisibleNamesMeaning(names: seq<string>)
    ensures forall n :: n in VisibleNames(names) <==> n in names && !StartsWith(n, "qt_temp.")
    ensures |VisibleNames(names)| <= |names|
  {
    if names != [] {
      var init := names[..|names| - 1];
      VisibleNamesMeaning(init);
      assert names == init + [names[|names| - 1]];
    }
  }

  /** The entries directoryEntries builds: one unselected entry per visible name, under the directory. */
  function EntriesOf(dir: Path, names: seq<string>): (r: seq<Entry>)
    ensures |r| == |VisibleNames(names)|
    ensures forall k :: 0 <= k < |r| ==> r[k] == Entry(Join(dir, VisibleNames(names)[k]), false)
  {
    var visible := VisibleNames(names);
    seq(|visible|, k requires 0 <= k < |visible| => Entry(Join(dir, visible[k]), false))
  }

  /** FileModel::Sort, Qt::SortOrder, Qt::CaseSensitivity, FileModel::DirectorySort. */
  datatype Sort = SortByName | SortByModified | SortBySize | SortByExtension
  datatype SortOrder = AscendingOrder | DescendingOrder
  datatype CaseSensitivity = CaseInsensitive | CaseSensitive
  datatype DirectorySort = SortDirectoriesWithFiles | SortDirectoriesBeforeFiles | SortDirectoriesAfterFiles

  /** The QDir::Filter and QDir::SortFlag values directory() combines. */
  datatype DirFilter = Files | NoDotAndDotDot | System | AllDirs
  datatype SortFlag = LocaleAware | Name | Time | Size | Type | Reversed | IgnoreCase | DirsFirst | DirsLast

  function FilterFlags(includeDirectories: bool): set<DirFilter> {
    {Files, NoDotAndDotDot, System} + if includeDirectories then {AllDirs} else {}
  }

  function SortFlags(sortBy: Sort, order: SortOrder, sensitivity: CaseSensitivity, dirSort: DirectorySort): set<SortFlag> {
    {LocaleAware} +
    (match sortBy
     case SortByName => {Name}
     case SortByModified => {Time}
     case SortBySize => {Size}
     case SortByExtension => {Type}) +
    (if order == DescendingOrder then {Reversed} else {}) +
    (if sensitivity == CaseInsensitive then {IgnoreCase} else {}) +
    (match dirSort
     case SortDirectoriesBeforeFiles => {DirsFirst}
     case SortDirectoriesAfterFiles => {DirsLast}
     case SortDirectoriesWithFiles => {})
  }

  /**
   * Exactly the selected sort key is asked for, and no other; Reversed
   * exactly for a descending order, IgnoreCase exactly for case-insensitive
   * sorting, never both DirsFirst and DirsLast, and directories are listed
   * exactly when they are included.
   */
  lemma DirectoryFlagsMeaning(sortBy: Sort, order: SortOrder, sensitivity: CaseSensitivity, dirSort: DirectorySort,
                              includeDirectories: bool)
    ensures var f := SortFlags(sortBy, order, sensitivity, dirSort);
      LocaleAware in f &&
      (Name in f <==> sortBy == SortByName) && (Time in f <==> sortBy == SortByModified) &&
      (Size in f <==> sortBy == SortBySize) && (Type in f <==> sortBy == SortByExtension) &&
      (Reversed in f <==> order == DescendingOrder) &&
      (IgnoreCase in f <==> sensitivity == CaseInsensitive) &&
      (DirsFirst in f <==> dirSort == SortDirectoriesBeforeFiles) &&
      (DirsLast in f <==> dirSort == SortDirectoriesAfterFiles) &&
      !(DirsFirst in f && DirsLast in f)
    ensures AllDirs in FilterFlags(includeDirectories) <==> includeDirectories
    ensures {Files, NoDotAndDotDot, System} <= FilterFlags(includeDirectories)
  {
  }

  class FileModel {
    var path: Path
    var files: seq<Entry>
    var selectedCount: int
    var active: bool
    var dirty: bool
    var events: seq<ModelEvent>

    /** The cached count is the number of selected entries. */
    ghost predicate Valid()
      reads this
    {
      selectedCount == SelectedCount(files)
    }

    constructor ()
      ensures Valid() && files == [] && path == "" && !active && !dirty && events == []
    {
      path := "";
      files := [];
      selectedCount := 0;
      active := false;
      dirty := false;
      events := [];
    }

    /** FileModel::fileNameAt: the entry's absolute path, or "" for an index outside the list. */
    function FileNameAt(fileIndex: int): (r: Path)
      reads this
      ensures 0 <= fileIndex < |files| ==> r == files[fileIndex].absolutePath
      ensures (fileIndex < 0 || fileIndex >= |files|) ==> r == ""
    {
      if fileIndex < 0 || fileIndex >= |files| then "" else files[fileIndex].absolutePath
    }

    /** FileModel::toggleSelectedFile: one entry's flag flips and the count follows it. */
    method ToggleSelectedFile(fileIndex: nat)
      requires fileIndex < |files|
      requires Valid()
      modifies this
      ensures Valid()
      ensures files == old(files)[fileIndex := old(files)[fileIndex].(selected := !old(files)[fileIndex].selected)]
      ensures selectedCount == old(selectedCount) + if old(files)[fileIndex].selected then -1 else 1
      ensures events == old(events) + [DataChanged(fileIndex), SelectedCountChanged]
      ensures path == old(path) && active == old(active) && dirty == old(dirty)
    {
      SelectedCountFlip(files, fileIndex);
      if !files[fileIndex].selected {
        var info := files[fileIndex];
        info := info.(selected := true);
        files := files[fileIndex := info];
        selectedCount := selectedCount + 1;
      } else {
        var info := files[fileIndex];
        info := info.(selected := false);
        files := files[fileIndex := info];
        selectedCount := selectedCount - 1;
      }
      events := events + [DataChanged(fileIndex), SelectedCountChanged];
    }

    /** The loop of clearSelectedFiles and selectAllFiles: every entry gets the flag, row by row. */
    method SetAllSelected(flag: bool)
      modifies this
      ensures files == WithSelection(old(files), flag)
      ensures events == old(events) + RowsChanged(|files|)
      ensures selectedCount == old(selectedCount) && path == old(path) && active == old(active) && dirty == old(dirty)
    {
      var row := 0;
      ghost var before := files;
      ghost var emitted := events;
      while row < |files|
        invariant |files| == |before| && row <= |files|
        invariant forall k :: 0 <= k < row ==> files[k] == before[k].(selected := flag)
        invariant forall k :: row <= k < |files| ==> files[k] == before[k]
        invariant events == emitted + RowsChanged(row)
        invariant selectedCount == old(selectedCount) && path == old(path) && active == old(active) && dirty == old(dirty)
      {
        var info := files[row];
        files := files[row := info.(selected := flag)];
        assert RowsChanged(row + 1) == RowsChanged(row) + [DataChanged(row)];
        events := events + [DataChanged(row)];
        row := row + 1;
      }
    }

    /** FileModel::clearSelectedFiles: nothing stays selected; order and length are kept. */
    method ClearSelectedFiles()
      modifies this
      ensures Valid() && selectedCount == 0
      ensures files == WithSelection(old(files), false)
      ensures events == old(events) + RowsChanged(|files|) + [SelectedCountChanged]
      ensures path == old(path) && active == old(active) && dirty == old(dirty)
    {
      SetAllSelected(false);
      SelectedCountUniform(files, false);
      selectedCount := 0;
      events := events + [SelectedCountChanged];
    }

    /** FileModel::selectAllFiles: everything is selected and the count is the list length. */
    method SelectAllFiles()
      modifies this
      ensures Valid() && selectedCount == |files|
      ensures files == WithSelection(old(files), true)
      ensures events == old(events) + RowsChanged(|files|) + [SelectedCountChanged]
      ensures path == old(path) && active == old(active) && dirty == old(dirty)
    {
      SetAllSelected(true);
      SelectedCountUniform(files, true);
      selectedCount := |files|;
      events := events + [SelectedCountChanged];
    }

    /**
     * FileModel::selectedFiles: nothing when the cached count is 0, otherwise
     * the paths of the selected entries in list order.
     */
    method SelectedFiles() returns (fileNames: seq<Path>)
      ensures selectedCount == 0 ==> fileNames == []
      ensures selectedCount != 0 ==> fileNames == SelectedPaths(files)
    {
      if selectedCount == 0 {
        return [];
      }
      fileNames := [];
      var i := 0;
      while i < |files|
        invariant i <= |files|
        invariant fileNames == SelectedPaths(files[..i])
      {
        assert files[..i + 1][..i] == files[..i];
        if files[i].selected {
          fileNames := fileNames + [files[i].absolutePath];
        }
        i := i + 1;
      }
      assert files[..i] == files;
    }

    /** FileModel::recountSelectedFiles: the count is recomputed, signalled only when it moved. */
    method RecountSelectedFiles()
      modifies this
      ensures Valid() && files == old(files)
      ensures events == old(events) + if old(selectedCount) != SelectedCount(files) then [SelectedCountChanged] else []
      ensures path == old(path) && active == old(active) && dirty == old(dirty)
    {
      var count := 0;
      var i := 0;
      while i < |files|
        invariant i <= |files| && count == SelectedCount(files[..i])
      {
        assert files[..i + 1][..i] == files[..i];
        if files[i].selected {
          count := count + 1;
        }
        i := i + 1;
      }
      assert files[..i] == files;
      if selectedCount != count {
        selectedCount := count;
        events := events + [SelectedCountChanged];
      }
    }

    /** directoryEntries: the listing's names without qt_temp.* files, as unselected entries. */
    static method DirectoryEntries(dir: Path, fileList: seq<string>) returns (rv: seq<Entry>)
      ensures rv == EntriesOf(dir, fileList)
    {
      rv := [];
      var i := 0;
      while i < |fileList|
        invariant i <= |fileList|
        invariant rv == EntriesOf(dir, fileList[..i])
      {
        var fileName := fileList[i];
        assert fileList[..i + 1][..i] == fileList[..i];
        assert VisibleNames(fileList[..i + 1]) ==
          VisibleNames(fileList[..i]) + if StartsWith(fileName, "qt_temp.") then [] else [fileName];
        if !StartsWith(fileName, "qt_temp.") {
          rv := rv + [Entry(Join(dir, fileName), false)];
        }
        i := i + 1;
      }
      assert fileList[..i] == fileList;
    }

    /**
     * FileModel::readDirectory with readAllEntries: the list is rebuilt from
     * the listing (empty for an empty path, a missing directory or one
     * without read permission, the last also reported) and the count redone.
     */
    method ReadDirectory(listing: Listing)
      modifies this
      ensures Valid()
      ensures files == if path == "" || !listing.present || !listing.readable then [] else EntriesOf(path, listing.names)
      ensures var failed := if path != "" && listing.present && !listing.readable then [ErrorReadNoPermissions(path)] else [];
        events == old(events) + failed + [ModelReset, CountChanged] +
          if old(selectedCount) != 0 then [SelectedCountChanged] else []
      ensures path == old(path) && active == old(active) && dirty == old(dirty)
    {
      files := [];
      if path != "" {
        if !listing.present {
        } else if !listing.readable {
          events := events + [ErrorReadNoPermissions(path)];
        } else {
          files := DirectoryEntries(path, listing.names);
        }
      }
      events := events + [ModelReset, CountChanged];
      RecountSelectedFiles();
      SelectedCountUniform(files, false);
    }

    /** FileModel::clearModel */
    method ClearModel()
      modifies this
      ensures files == [] && events == old(events) + [ModelReset, CountChanged]
      ensures selectedCount == old(selectedCount) && path == old(path) && active == old(active) && dirty == old(dirty)
    {
      files := [];
      events := events + [ModelReset, CountChanged];
    }

    /**
     * FileModel::refreshEntries: an empty path, a missing directory or one
     * without read permission empty the list (the last also reported);
     * otherwise the list becomes the one synchronizeList produces from the
     * fresh entries, given here as `synced`, and the count is redone.
     */
    method RefreshEntries(listing: Listing, synced: seq<Entry>)
      modifies this
      ensures path == "" || !listing.present || !listing.readable ==>
        files == [] && selectedCount == old(selectedCount) &&
        events == old(events) + [ModelReset, CountChanged] +
                  (if path != "" && listing.present then [ErrorReadNoPermissions(path)] else [])
      ensures path != "" && listing.present && listing.readable ==>
        Valid() && files == synced &&
        events == old(events) + (if |synced| != |old(files)| then [CountChanged] else []) +
                  (if old(selectedCount) != SelectedCount(synced) then [SelectedCountChanged] else [])
      ensures path == old(path) && active == old(active) && dirty == old(dirty)
    {
      if path == "" {
        ClearModel();
        return;
      }
      if !listing.present {
        ClearModel();
        return;
      }
      if !listing.readable {
        ClearModel();
        events := events + [ErrorReadNoPermissions(path)];
        return;
      }
      var oldCount := |files|;
      files := synced;
      if |files| != oldCount {
        events := events + [CountChanged];
      }
      RecountSelectedFiles();
    }

    /** FileModel::refresh: while inactive only marks the model dirty. */
    method Refresh(listing: Listing, synced: seq<Entry>)
      modifies this
      ensures !old(active) ==> dirty && files == old(files) && selectedCount == old(selectedCount) && events == old(events)
      ensures old(active) ==> !dirty
      ensures old(active) && (path == "" || !listing.present || !listing.readable) ==>
        files == [] && selectedCount == old(selectedCount) &&
        events == old(events) + [ModelReset, CountChanged] +
                  (if path != "" && listing.present then [ErrorReadNoPermissions(path)] else [])
      ensures old(active) && path != "" && listing.present && listing.readable ==>
        Valid() && files == synced &&
        events == old(events) + (if |synced| != |old(files)| then [CountChanged] else []) +
                  (if old(selectedCount) != SelectedCount(synced) then [SelectedCountChanged] else [])
      ensures path == old(path) && active == old(active)
    {
      if !active {
        dirty := true;
        return;
      }
      RefreshEntries(listing, synced);
      dirty := false;
    }

    /** FileModel::refreshFull: while inactive only marks the model dirty, else rereads the directory. */
    method RefreshFull(listing: Listing)
      modifies this
      ensures !old(active) ==> dirty && files == old(files) && selectedCount == old(selectedCount) && events == old(events)
      ensures old(active) ==>
        !dirty && Valid() &&
        files == if path == "" || !listing.present || !listing.readable then [] else EntriesOf(path, listing.names)
      ensures var failed := if path != "" && listing.present && !listing.readable then [ErrorReadNoPermissions(path)] else [];
        old(active) ==>
          events == old(events) + failed + [ModelReset, CountChanged] +
                    if old(selectedCount) != 0 then [SelectedCountChanged] else []
      ensures path == old(path) && active == old(active)
    {
      if !active {
        dirty := true;
        return;
      }
      ReadDirectory(listing);
      dirty := false;
    }

    /**
     * FileModel::setActive: a change of value rereads the directory only if a
     * refresh was missed while inactive, and always leaves the model clean.
     */
    method SetActive(a: bool, listing: Listing)
      modifies this
      ensures a == old(active) ==> files == old(files) && dirty == old(dirty) && events == old(events)
      ensures a != old(active) ==>
        active == a && !dirty &&
        (old(dirty) ==>
           Valid() && files == if path == "" || !listing.present || !listing.readable then [] else EntriesOf(path, listing.names)) &&
        (old(dirty) ==>
           var failed := if path != "" && listing.present && !listing.readable then [ErrorReadNoPermissions(path)] else [];
           events == old(events) + [ActiveChanged] + failed + [ModelReset, CountChanged] +
                     if old(selectedCount) != 0 then [SelectedCountChanged] else []) &&
        (!old(dirty) ==> files == old(files) && events == old(events) + [ActiveChanged])
      ensures active == a && path == old(path)
    {
      if active == a {
        return;
      }
      active := a;
      events := events + [ActiveChanged];
      if dirty {
        ReadDirectory(listing);
      }
      dirty := false;
    }

    /** FileModel::insertRange: count entries of source from sourceIndex go in, in order, at index. */
    method InsertRange(index: nat, count: nat, source: seq<Entry>, sourceIndex: nat) returns (r: nat)
      requires index <= |files| && sourceIndex + count <= |source|
      modifies this
      ensures r == count
      ensures files == old(files)[..index] + source[sourceIndex..sourceIndex + count] + old(files)[index..]
      ensures selectedCount == old(selectedCount) && events == old(events) && path == old(path)
      ensures active == old(active) && dirty == old(dirty)
    {
      ghost var before := files;
      for i := 0 to count
        invariant files == before[..index] + source[sourceIndex..sourceIndex + i] + before[index..]
        invariant selectedCount == old(selectedCount) && events == old(events) && path == old(path)
        invariant active == old(active) && dirty == old(dirty)
      {
        var at := index + i;
        assert |files| == |before| + i;
        assert files[..at] == before[..index] + source[sourceIndex..sourceIndex + i];
        assert files[at..] == before[index..];
        assert source[sourceIndex..sourceIndex + i + 1] == source[sourceIndex..sourceIndex + i] + [source[sourceIndex + i]];
        files := files[..at] + [source[sourceIndex + i]] + files[at..];
      }
      return count;
    }

    /** FileModel::removeRange: exactly count entries from index are gone; the result is always 0. */
    method RemoveRange(index: nat, count: nat) returns (r: nat)
      requires index + count <= |files|
      modifies this
      ensures r == 0
      ensures files == old(files)[..index] + old(files)[index + count..]
      ensures selectedCount == old(selectedCount) && events == old(events) && path == old(path)
      ensures active == old(active) && dirty == old(dirty)
    {
      files := files[..index] + files[index + count..];
      return 0;
    }
  }
}
