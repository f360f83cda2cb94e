/**
 * DiskUsageWorker::calculate, counting and calculateApkdSize, and the
 * DiskUsage front object's status and working flags.
 *
 * calculate measures each requested path (a directory, an ":rpm:" glob or
 * an ":apkd:" category), places it in the directory tree by its expanded
 * path, sorts the expanded paths in descending order and subtracts every
 * key's size from each later key that encloses it, so that a parent reports
 * only what its measured children do not already account for.
 */
module DiskUsage {
  import opened Common
  import opened DiskUsageSizes
  import opened StringOrder

  /** The usage map: an input path to its (signed, after subtraction) size. */
  type Usage = map<string, int>

  /** What one path of the input contributes: its size, its place in the tree, and the apkd cache after it. */
  datatype Measured = Measured(size: nat, expanded: Path, cache: ApkdCache)

  /** The body of calculate's first loop for one path. */
  function Measure(sys: System, cache: ApkdCache, path: string): Measured {
    if StartsWith(path, ":rpm:") then
      Measured(RpmSize(sys, path[5..]), "/usr/" + path, cache)
    else if StartsWith(path, ":apkd:") then
      var rest := path[6..];
      var c := ApkdQuery(sys, cache);
      Measured(ApkdCategory(c, rest), if rest == "runtime" then "/opt/appsupport" else "/home/.appsupport/" + rest, c)
    else
      var r := CalculateSize(sys, path);
      Measured(r.0, r.1, cache)
  }

  /**
   * Where a path is placed does not depend on the apkd cache: an rpm glob
   * under /usr/, the apkd runtime at /opt/appsupport, another apkd category
   * under /home/.appsupport/, a directory at its tilde expansion.
   */
  lemma MeasurePlacement(sys: System, c1: ApkdCache, c2: ApkdCache, path: string)
    ensures Measure(sys, c1, path).expanded == Measure(sys, c2, path).expanded
    ensures StartsWith(path, ":rpm:") ==> Measure(sys, c1, path).expanded == "/usr/" + path
    ensures StartsWith(path, ":apkd:") ==>
      Measure(sys, c1, path).expanded ==
        if path[6..] == "runtime" then "/opt/appsupport" else "/home/.appsupport/" + path[6..]
    ensures !StartsWith(path, ":rpm:") && !StartsWith(path, ":apkd:") ==>
      Measure(sys, c1, path).expanded == ExpandTilde(sys.home, path)
    ensures !StartsWith(path, ":apkd:") ==> Measure(sys, c1, path).cache == c1
  {
    if StartsWith(path, ":apkd:") {
      assert path[1] == 'a';
    }
  }

  /** The state of calculate's first loop: usage, expandedPaths, originalPaths, the apkd cache, and how many paths were handled. */
  datatype Gathered = Gathered(
    usage: Usage,
    expanded: map<string, Path>,
    original: map<Path, string>,
    cache: ApkdCache,
    count: nat)

  function Start(cache: ApkdCache): Gathered {
    Gathered(map[], map[], map[], cache, 0)
  }

  /**
   * calculate's first loop from path g.count on: each path is measured and
   * recorded; the loop stops after the path during which a quit was seen
   * (quitSeen(i) is m_quit as read after path i).
   */
  function Gather(sys: System, paths: seq<string>, quitSeen: nat -> bool, g: Gathered): (r: Gathered)
    requires g.count <= |paths|
    ensures g.count <= r.count <= |paths|
    decreases |paths| - g.count
  {
    if g.count == |paths| then g
    else
      var g' := Record(sys, g, paths[g.count]);
      if quitSeen(g.count) then g' else Gather(sys, paths, quitSeen, g')
  }

  /**
   * How the three maps hang together: every recorded path has its expansion
   * recorded, every expansion maps back to a recorded path whose expansion
   * it is.
   */
  ghost predicate Linked(sys: System, g: Gathered) {
    g.usage.Keys == g.expanded.Keys &&
    (forall p :: p in g.expanded ==> g.expanded[p] in g.original) &&
    (forall p :: p in g.expanded ==> g.expanded[p] == Measure(sys, NoApkdCache, p).expanded) &&
    (forall x :: x in g.original ==> g.original[x] in g.expanded && g.expanded[g.original[x]] == x)
  }

  /** The paths handled: the prefix of the input up to and including the first one after which a quit was seen. */
  ghost predicate HandledPrefix(paths: seq<string>, quitSeen: nat -> bool, n: nat) {
    n <= |paths| &&
    (forall i :: 0 <= i < n - 1 ==> !quitSeen(i)) &&
    (n < |paths| ==> n > 0 && quitSeen(n - 1))
  }

  /** The record step of the first loop. */
  function Record(sys: System, g: Gathered, path: string): Gathered {
    var m := Measure(sys, g.cache, path);
    Gathered(g.usage[path := m.size], g.expanded[path := m.expanded],
             g.original[m.expanded := path], m.cache, g.count + 1)
  }

  lemma RecordLinked(sys: System, g: Gathered, path: string)
    requires Linked(sys, g)
    ensures Linked(sys, Record(sys, g, path))
  {
    MeasurePlacement(sys, g.cache, NoApkdCache, path);
  }

  lemma RecordHandled(paths: seq<string>, keys: set<string>, n: nat)
    requires n < |paths| && keys == set k | 0 <= k < n :: paths[k]
    ensures keys + {paths[n]} == set k | 0 <= k < n + 1 :: paths[k]
  {
    forall x | x in keys + {paths[n]}
      ensures exists k :: 0 <= k < n + 1 && paths[k] == x
    {
      if x != paths[n] {
        var k :| 0 <= k < n && paths[k] == x;
      }
    }
  }

  /** The first loop keeps the maps linked. */
  lemma {:induction false} GatherLinked(sys: System, paths: seq<string>, quitSeen: nat -> bool, g: Gathered)
    requires g.count <= |paths| && Linked(sys, g)
    ensures Linked(sys, Gather(sys, paths, quitSeen, g))
    decreases |paths| - g.count
  {
    if g.count < |paths| {
      RecordLinked(sys, g, paths[g.count]);
      if !quitSeen(g.count) {
        GatherLinked(sys, paths, quitSeen, Record(sys, g, paths[g.count]));
      }
    }
  }

  /**
   * The first loop records exactly the handled prefix of the input, stopping
   * after the first path a quit was seen at.
   */
  lemma {:induction false} GatherMeaning(sys: System, paths: seq<string>, quitSeen: nat -> bool, g: Gathered)
    requires g.count <= |paths|
    requires g.usage.Keys == set k | 0 <= k < g.count :: paths[k]
    requires forall i :: 0 <= i < g.count ==> !quitSeen(i)
    ensures var r := Gather(sys, paths, quitSeen, g);
      r.usage.Keys == (set k | 0 <= k < r.count :: paths[k]) &&
      HandledPrefix(paths, quitSeen, r.count)
    decreases |paths| - g.count
  {
    if g.count < |paths| {
      var g' := Record(sys, g, paths[g.count]);
      assert g'.usage.Keys == g.usage.Keys + {paths[g.count]};
      RecordHandled(paths, g.usage.Keys, g.count);
      if !quitSeen(g.count) {
        GatherMeaning(sys, paths, quitSeen, g');
      }
    }
  }

  /** The processed input paths whose usage entries calculate returns: the handled paths without repeats, in input order. */
  function Dedup(s: seq<string>): (d: seq<string>)
    ensures forall x :: x in d <==> x in s
    ensures forall i, j :: 0 <= i < j < |d| ==> d[i] != d[j]
  {
    if s == [] then []
    else
      var d := Dedup(s[..|s| - 1]);
      assert forall x :: x in s <==> x in s[..|s| - 1] || x == s[|s| - 1];
      if s[|s| - 1] in d then d else d + [s[|s| - 1]]
  }

  /** expandedPaths.value(key, key) for each key. */
  function ExpandAll(ks: seq<string>, expanded: map<string, Path>): (r: seq<Path>)
    ensures |r| == |ks|
    ensures forall k :: 0 <= k < |ks| ==> r[k] == Lookup(expanded, ks[k])
  {
    if ks == [] then [] else ExpandAll(ks[..|ks| - 1], expanded) + [Lookup(expanded, ks[|ks| - 1])]
  }

  function Lookup(m: map<string, string>, k: string): string {
    if k in m then m[k] else k
  }

  /** The value read for a key; operator[] on a missing key reads an invalid QVariant, 0. */
  function Value(u: Usage, k: string): int {
    if k in u then u[k] else 0
  }

  /** The test of the nested loop: path encloses subpath (QString::indexOf(path) == 0 is StartsWith), or path is the root. */
  predicate Encloses(path: Path, subpath: Path) {
    (|subpath| > |path| && StartsWith(subpath, path)) || path == "/"
  }

  /** One pass of the subtraction for a fixed key keys[i] and j on: each later key enclosing it loses its size. */
  function Inner(keys: seq<Path>, u: Usage, orig: map<Path, string>, i: nat, j: nat): Usage
    requires i < |keys| && j <= |keys|
    decreases |keys| - j
  {
    if j == |keys| then u
    else
      var subpath := keys[i];
      var path := keys[j];
      var u' := if Encloses(path, subpath) then
                  u[Lookup(orig, path) := Value(u, Lookup(orig, path)) - Value(u, Lookup(orig, subpath))]
                else u;
      Inner(keys, u', orig, i, j + 1)
  }

  /** The nested loop from outer index i on. */
  function Outer(keys: seq<Path>, u: Usage, orig: map<Path, string>, i: nat): Usage
    requires i <= |keys|
    decreases |keys| - i
  {
    if i == |keys| then u else Outer(keys, Inner(keys, u, orig, i, i + 1), orig, i + 1)
  }

  /** The sorted expanded keys of a finished first loop. */
  function SortedKeys(paths: seq<string>, g: Gathered): seq<Path>
    requires g.count <= |paths|
  {
    SortDesc(ExpandAll(Dedup(paths[..g.count]), g.expanded))
  }

  /** What calculate returns. */
  function Result(sys: System, paths: seq<string>, quitSeen: nat -> bool, cache: ApkdCache): Usage {
    var g := Gather(sys, paths, quitSeen, Start(cache));
    Outer(SortedKeys(paths, g), g.usage, g.original, 0)
  }

  /** The subtraction writes only to keys that are already there when every key's original is present. */
  lemma {:induction false} InnerKeys(keys: seq<Path>, u: Usage, orig: map<Path, string>, i: nat, j: nat)
    requires i < |keys| && j <= |keys|
    requires forall k :: 0 <= k < |keys| ==> Lookup(orig, keys[k]) in u
    ensures Inner(keys, u, orig, i, j).Keys == u.Keys
    decreases |keys| - j
  {
    if j < |keys| {
      var path := keys[j];
      var u' := if Encloses(path, keys[i]) then
                  u[Lookup(orig, path) := Value(u, Lookup(orig, path)) - Value(u, Lookup(orig, keys[i]))]
                else u;
      assert u'.Keys == u.Keys;
      InnerKeys(keys, u', orig, i, j + 1);
    }
  }

  lemma {:induction false} OuterKeys(keys: seq<Path>, u: Usage, orig: map<Path, string>, i: nat)
    requires i <= |keys|
    requires forall k :: 0 <= k < |keys| ==> Lookup(orig, keys[k]) in u
    ensures Outer(keys, u, orig, i).Keys == u.Keys
    decreases |keys| - i
  {
    if i < |keys| {
      InnerKeys(keys, u, orig, i, i + 1);
      OuterKeys(keys, Inner(keys, u, orig, i, i + 1), orig, i + 1);
    }
  }

  /** An entry no later enclosing key maps to is left alone by one pass. */
  lemma {:induction false} InnerKeeps(keys: seq<Path>, u: Usage, orig: map<Path, string>, i: nat, j: nat, x: string)
    requires i < |keys| && j <= |keys|
    requires forall b :: j <= b < |keys| && Lookup(orig, keys[b]) == x ==> !Encloses(keys[b], keys[i])
    ensures Value(Inner(keys, u, orig, i, j), x) == Value(u, x)
    decreases |keys| - j
  {
    if j < |keys| {
      var path := keys[j];
      var u' := if Encloses(path, keys[i]) then
                  u[Lookup(orig, path) := Value(u, Lookup(orig, path)) - Value(u, Lookup(orig, keys[i]))]
                else u;
      assert Value(u', x) == Value(u, x);
      InnerKeeps(keys, u', orig, i, j + 1, x);
    }
  }

  lemma {:induction false} OuterKeeps(keys: seq<Path>, u: Usage, orig: map<Path, string>, i: nat, x: string)
    requires i <= |keys|
    requires forall a, b :: i <= a < b < |keys| && Lookup(orig, keys[b]) == x ==> !Encloses(keys[b], keys[a])
    ensures Value(Outer(keys, u, orig, i), x) == Value(u, x)
    decreases |keys| - i
  {
    if i < |keys| {
      InnerKeeps(keys, u, orig, i, i + 1, x);
      OuterKeeps(keys, Inner(keys, u, orig, i, i + 1), orig, i + 1, x);
    }
  }

  /** Every sorted key is the expansion of a handled path. */
  lemma SortedKeysRecorded(sys: System, paths: seq<string>, g: Gathered)
    requires g.count <= |paths| && Linked(sys, g)
    requires g.usage.Keys == set k | 0 <= k < g.count :: paths[k]
    ensures forall k :: 0 <= k < |SortedKeys(paths, g)| ==> SortedKeys(paths, g)[k] in g.original
  {
    forall k | 0 <= k < g.count
      ensures paths[k] in g.expanded
    {
      assert paths[k] in g.usage.Keys;
    }
    SortedKeysExpanded(paths, g);
  }

  lemma SortedKeysExpanded(paths: seq<string>, g: Gathered)
    requires g.count <= |paths|
    requires forall p :: p in g.expanded ==> g.expanded[p] in g.original
    requires forall k :: 0 <= k < g.count ==> paths[k] in g.expanded
    ensures forall k :: 0 <= k < |SortedKeys(paths, g)| ==> SortedKeys(paths, g)[k] in g.original
  {
    var d := Dedup(paths[..g.count]);
    var e := ExpandAll(d, g.expanded);
    var keys := SortDesc(e);
    SortDescMeaning(e);
    forall k | 0 <= k < |keys|
      ensures keys[k] in g.original
    {
      assert keys[k] in multiset(e);
      var m :| 0 <= m < |e| && e[m] == keys[k];
      assert d[m] in paths[..g.count];
      var n :| 0 <= n < g.count && paths[..g.count][n] == d[m];
      assert d[m] == paths[n] && e[m] == g.expanded[d[m]];
    }
  }

  /**
   * calculate returns one entry per handled input path and nothing else,
   * and the loop stops right after the first path a quit was seen at.
   */
  lemma ResultKeys(sys: System, paths: seq<string>, quitSeen: nat -> bool, cache: ApkdCache)
    ensures var g := Gather(sys, paths, quitSeen, Start(cache));
      Result(sys, paths, quitSeen, cache).Keys == (set k | 0 <= k < g.count :: paths[k]) &&
      HandledPrefix(paths, quitSeen, g.count)
  {
    var g := Gather(sys, paths, quitSeen, Start(cache));
    GatherMeaning(sys, paths, quitSeen, Start(cache));
    GatherLinked(sys, paths, quitSeen, Start(cache));
    SortedKeysRecorded(sys, paths, g);
    OuterKeys(SortedKeys(paths, g), g.usage, g.original, 0);
  }

  /**
   * A handled path keeps its measured size when it is not placed at the
   * root and no handled path is placed strictly under it. When another
   * input shares its expansion and originalPaths names that one, the nested
   * loop never writes this path's entry at all.
   */
  lemma LeafKeepsSize(sys: System, paths: seq<string>, quitSeen: nat -> bool, cache: ApkdCache, p: string)
    requires var g := Gather(sys, paths, quitSeen, Start(cache));
      p in g.usage && p in g.expanded && g.expanded[p] in g.original &&
      var x := g.expanded[p];
      x != "/" &&
      forall q :: q in g.expanded ==> !(|g.expanded[q]| > |x| && StartsWith(g.expanded[q], x))
    ensures Value(Result(sys, paths, quitSeen, cache), p) ==
      Gather(sys, paths, quitSeen, Start(cache)).usage[p]
  {
    var g := Gather(sys, paths, quitSeen, Start(cache));
    GatherMeaning(sys, paths, quitSeen, Start(cache));
    GatherLinked(sys, paths, quitSeen, Start(cache));
    SortedKeysRecorded(sys, paths, g);
    var keys := SortedKeys(paths, g);
    var x := g.expanded[p];
    forall a, b | 0 <= a < b < |keys| && Lookup(g.original, keys[b]) == p
      ensures !Encloses(keys[b], keys[a])
    {
      assert keys[b] == x;
      assert keys[a] == g.expanded[g.original[keys[a]]];
    }
    OuterKeeps(keys, g.usage, g.original, 0, p);
  }

  /** A directory, its parent and the root sort as child, parent, root, whatever the input order. */
  lemma ChainSorted(keys: seq<Path>, child: Path, parent: Path)
    requires multiset(keys) == multiset{child, parent, "/"}
    requires |parent| > 1 && StartsWith(parent, "/")
    requires |child| > |parent| && StartsWith(child, parent)
    ensures SortDesc(keys) == [child, parent, "/"]
  {
    ProperPrefixIsLess(parent, child);
    ProperPrefixIsLess("/", parent);
    LessTransitive("/", parent, child);
    LessAsymmetric(parent, child);
    LessAsymmetric("/", parent);
    LessAsymmetric("/", child);
    assert Descending([child, parent, "/"]);
    SortDescMeaning(keys);
    DescendingUnique(SortDesc(keys), [child, parent, "/"]);
  }

  /**
   * The worked example of calculate's comment: a directory, its parent and
   * the root, in any input order, come out as the child's size, the parent
   * minus the child, and the root minus the parent.
   */
  lemma NestedChain(keys: seq<Path>, child: Path, parent: Path, u: Usage)
    requires multiset(keys) == multiset{child, parent, "/"}
    requires |parent| > 1 && StartsWith(parent, "/")
    requires |child| > |parent| && StartsWith(child, parent)
    ensures var r := Outer(SortDesc(keys), u, map[], 0);
      Value(r, child) == Value(u, child) &&
      Value(r, parent) == Value(u, parent) - Value(u, child) &&
      Value(r, "/") == Value(u, "/") - Value(u, parent)
  {
    ChainSorted(keys, child, parent);
    var sorted := [child, parent, "/"];
    assert child[..|parent|] == parent;
    assert !StartsWith("/", child) && !StartsWith("/", parent);
    var ua := u[parent := Value(u, parent) - Value(u, child)];
    var u1 := ua["/" := Value(ua, "/") - Value(ua, child)];
    assert Inner(sorted, u, map[], 0, 1) == Inner(sorted, ua, map[], 0, 2);
    assert Inner(sorted, ua, map[], 0, 2) == Inner(sorted, u1, map[], 0, 3);
    var u2 := u1["/" := Value(u1, "/") - Value(u1, parent)];
    assert Inner(sorted, u1, map[], 1, 2) == Inner(sorted, u2, map[], 1, 3);
    assert Outer(sorted, u, map[], 0) == Outer(sorted, u1, map[], 1);
    assert Outer(sorted, u1, map[], 1) == Outer(sorted, u2, map[], 2);
    assert Outer(sorted, u2, map[], 2) == u2;
  }

  class DiskUsageWorker {
    /** m_stopCounting */
    var stopCounting: bool
    /** m_apkd_data_queried, m_apkd_app, m_apkd_data, m_apkd_run */
    var cache: ApkdCache

    constructor ()
      ensures !stopCounting && cache == NoApkdCache
    {
      stopCounting := false;
      cache := NoApkdCache;
    }

    /** DiskUsageWorker::calculateApkdSize: asks apkd once, then answers from what it kept. */
    method CalculateApkdSize(sys: System, rest: string) returns (size: nat)
      modifies this
      ensures cache == ApkdQuery(sys, old(cache)) && size == ApkdCategory(cache, rest)
      ensures stopCounting == old(stopCounting)
    {
      if !cache.queried {
        match sys.apkd {
          case None =>
          case Some((app, data, apkdCache)) =>
            var run := CalculateSize(sys, "/opt/appsupport").0;
            cache := ApkdCache(cache.queried, app, AddU64(data, apkdCache), run);
        }
        cache := cache.(queried := true);
      }
      if rest == "app" {
        size := cache.app;
      } else if rest == "data" {
        size := cache.data;
      } else if rest == "runtime" {
        size := cache.run;
      } else {
        size := 0;
      }
    }

    /**
     * DiskUsageWorker::counting over a directory listing of `entries`
     * entries (the filter and recursion decide that number): 0 for a path
     * that is not an existing directory; otherwise entries are counted until
     * the stop flag is seen before one (stopSeen(k) is m_stopCounting as read
     * before entry k). The flag is cleared on entry, not on exit: a stop
     * request that arrives during the count is one of the readings in
     * `stopSeen`, so the field itself is left clear, and nothing reads it
     * before the next count clears it again.
     */
    method Counting(isDir: bool, present: bool, entries: nat, stopSeen: nat -> bool) returns (counter: nat)
      modifies this
      ensures !stopCounting && cache == old(cache)
      ensures !isDir || !present ==> counter == 0
      ensures isDir && present ==>
        counter <= entries && (forall k :: 0 <= k < counter ==> !stopSeen(k)) &&
        (counter < entries ==> stopSeen(counter))
    {
      stopCounting := false;
      if !isDir || !present {
        return 0;
      }
      counter := 0;
      while counter < entries
        invariant counter <= entries
        invariant forall k :: 0 <= k < counter ==> !stopSeen(k)
      {
        if stopSeen(counter) {
          return counter;
        }
        counter := counter + 1;
      }
    }

    /** DiskUsageWorker::calculate. */
    method Calculate(paths: seq<string>, sys: System, quitSeen: nat -> bool) returns (usage: Usage)
      modifies this
      ensures cache == Gather(sys, paths, quitSeen, Start(old(cache))).cache
      ensures usage == Result(sys, paths, quitSeen, old(cache))
      ensures stopCounting == old(stopCounting)
    {
      ghost var goal := Gather(sys, paths, quitSeen, Start(cache));
      var u: Usage := map[];
      var expandedPaths: map<string, Path> := map[];
      var originalPaths: map<Path, string> := map[];
      var i := 0;
      var done := false;
      while i < |paths| && !done
        invariant i <= |paths|
        invariant !done ==> Gather(sys, paths, quitSeen, Gathered(u, expandedPaths, originalPaths, cache, i)) == goal
        invariant done ==> Gathered(u, expandedPaths, originalPaths, cache, i) == goal
        invariant stopCounting == old(stopCounting)
        decreases |paths| - i
      {
        var path := paths[i];
        var size: nat;
        var expandedPath: Path;
        if StartsWith(path, ":rpm:") {
          size := CalculateRpmSize(sys, path[5..]);
          expandedPath := "/usr/" + path;
        } else if StartsWith(path, ":apkd:") {
          var rest := path[6..];
          size := CalculateApkdSize(sys, rest);
          if rest == "runtime" {
            expandedPath := "/opt/appsupport";
          } else {
            expandedPath := "/home/.appsupport/" + rest;
          }
        } else {
          var r := CalculateSize(sys, path);
          size := r.0;
          expandedPath := r.1;
        }
        u := u[path := size];
        expandedPaths := expandedPaths[path := expandedPath];
        originalPaths := originalPaths[expandedPath := path];
        if quitSeen(i) {
          done := true;
        }
        i := i + 1;
      }
      var handled := Dedup(paths[..i]);
      var keys: seq<Path> := [];
      var k := 0;
      while k < |handled|
        invariant k <= |handled| && keys == ExpandAll(handled[..k], expandedPaths)
      {
        assert handled[..k + 1][..k] == handled[..k];
        keys := keys + [Lookup(expandedPaths, handled[k])];
        k := k + 1;
      }
      assert handled[..k] == handled;
      usage := SubtractEnclosed(SortDesc(keys), u, originalPaths);
    }

    /** The nested loop of calculate over the sorted keys. */
    static method SubtractEnclosed(keys: seq<Path>, u0: Usage, originalPaths: map<Path, string>) returns (usage: Usage)
      ensures usage == Outer(keys, u0, originalPaths, 0)
    {
      usage := u0;
      var i := 0;
      while i < |keys|
        invariant i <= |keys|
        invariant Outer(keys, usage, originalPaths, i) == Outer(keys, u0, originalPaths, 0)
      {
        var j := i + 1;
        while j < |keys|
          invariant i + 1 <= j <= |keys|
          invariant Outer(keys, Inner(keys, usage, originalPaths, i, j), originalPaths, i + 1) ==
                    Outer(keys, u0, originalPaths, 0)
        {
          var subpath := keys[i];
          var path := keys[j];
          if (|subpath| > |path| && StartsWith(subpath, path)) || path == "/" {
            var subbytes := Value(usage, Lookup(originalPaths, subpath));
            var bytes := Value(usage, Lookup(originalPaths, path));
            bytes := bytes - subbytes;
            usage := usage[Lookup(originalPaths, path) := bytes];
          }
          j := j + 1;
        }
        i := i + 1;
      }
    }
  }

  /** DiskUsage::Status */
  datatype Status = Idle | Calculating | Counting

  datatype UsageEvent = StatusChanged(status: Status) | WorkingChanged | ResultChanged

  /** The QML-facing DiskUsage object: the worker runs on its own thread; here a request and its answer are separate calls. */
  class DiskUsage {
    var status: Status
    var working: bool
    var result: Usage
    var events: seq<UsageEvent>

    constructor ()
      ensures status == Idle && !working && result == map[] && events == []
    {
      status := Idle;
      working := false;
      result := map[];
      events := [];
    }

    /** DiskUsage::setStatus: statusChanged only on a change. */
    method SetStatus(s: Status)
      modifies this
      ensures status == s && working == old(working) && result == old(result)
      ensures events == old(events) + if old(status) == s then [] else [StatusChanged(s)]
    {
      if status == s {
        return;
      }
      status := s;
      events := events + [StatusChanged(s)];
    }

    /** DiskUsage::setWorking: workingChanged only on a change. */
    method SetWorking(w: bool)
      modifies this
      ensures working == w && status == old(status) && result == old(result)
      ensures events == old(events) + if old(working) == w then [] else [WorkingChanged]
    {
      if working != w {
        working := w;
        events := events + [WorkingChanged];
      }
    }

    /** DiskUsage::calculate: Calculating and working before the request goes to the worker. */
    method Calculate()
      modifies this
      ensures status == Calculating && working && result == old(result)
      ensures events == old(events) +
        (if old(status) == Calculating then [] else [StatusChanged(Calculating)]) +
        (if old(working) then [] else [WorkingChanged])
    {
      SetStatus(Calculating);
      SetWorking(true);
    }

    /** DiskUsage::fileCount: Counting; working is not touched. */
    method FileCount()
      modifies this
      ensures status == Counting && working == old(working) && result == old(result)
      ensures events == old(events) + if old(status) == Counting then [] else [StatusChanged(Counting)]
    {
      SetStatus(Counting);
    }

    /** DiskUsage::finished: the result is stored and announced whatever it holds, then Idle and not working. */
    method Finished(usage: Usage)
      modifies this
      ensures result == usage && status == Idle && !working
      ensures events == old(events) + [ResultChanged] +
        (if old(status) == Idle then [] else [StatusChanged(Idle)]) +
        (if old(working) then [WorkingChanged] else [])
    {
      result := usage;
      events := events + [ResultChanged];
      SetStatus(Idle);
      SetWorking(false);
    }

    /** DiskUsage::countingFinished: back to Idle; working and the result are kept. */
    method CountingFinished()
      modifies this
      ensures status == Idle && working == old(working) && result == old(result)
      ensures events == old(events) + if old(status) == Idle then [] else [StatusChanged(Idle)]
    {
      SetStatus(Idle);
    }
  }
}
