/**
 * The size queries of DiskUsageWorker: a directory through `du`, the root
 * filesystem through QStorageInfo, RPM packages through `rpm`, and Android
 * app usage through the apkd service, kept after its first answer. The
 * processes and the service are inputs (their output text or reply); the
 * model is the parsing and the arithmetic on what they return.
 */
module DiskUsageSizes {
  import opened Common

  /**
   * What the system answers: the home directory, whether a directory exists
   * and is readable, the output of `du -skx` for a directory (None for an
   * abnormal exit), the used bytes of the root filesystem, the output of the
   * rpm size query for a glob (None for an abnormal exit), and apkd's reply
   * (app, data, cache) when there is a valid one.
   */
  datatype System = System(
    home: Path,
    readable: Path -> bool,
    du: Path -> Option<string>,
    rootUsed: nat,
    rpm: string -> Option<string>,
    apkd: Option<(nat, nat, nat)>)

  /** The `~/` expansion calculateSize does in lieu of wordexp. */
  function ExpandTilde(home: Path, directory: Path): (r: Path)
    ensures StartsWith(directory, "~/") ==> r == home + "/" + directory[2..]
    ensures !StartsWith(directory, "~/") ==> r == directory
  {
    if StartsWith(directory, "~/") then home + "/" + directory[2..] else directory
  }

  /** The size in bytes read from `du -sk` output: the first tab-separated field, in KiB. */
  function DuSize(output: string): nat {
    var sizeDirectory := Split(output, '\t');
    if |sizeDirectory| > 1 then MulU64(ToULongLong(sizeDirectory[0]), 1024) else 0
  }

  /**
   * With a tab in the output, the size is 1024 times (modulo 2^64) the
   * number before the first tab; without one it is 0.
   */
  lemma DuSizeMeaning(output: string)
    ensures '\t' in output ==>
      DuSize(output) == MulU64(ToULongLong(output[..IndexOf(output, '\t')]), 1024)
    ensures '\t' !in output ==> DuSize(output) == 0
  {
    var i := IndexOf(output, '\t');
    if i >= 0 {
      SplitAt(output, '\t', i);
      assert |Split(output, '\t')| > 1 && Split(output, '\t')[0] == output[..i];
    } else {
      assert Split(output, '\t') == [output];
    }
  }

  /**
   * DiskUsageWorker::calculateSize: the size of a directory and the path it
   * was expanded to. The root directory is measured as the used space of the
   * root filesystem; a missing or unreadable directory, or `du` failing,
   * gives 0.
   */
  function CalculateSize(sys: System, directory: Path): (r: (nat, Path))
    ensures r.1 == ExpandTilde(sys.home, directory)
    ensures r.1 != "/" && !sys.readable(r.1) ==> r.0 == 0
    ensures r.1 != "/" && sys.readable(r.1) && sys.du(r.1).None? ==> r.0 == 0
  {
    var d := ExpandTilde(sys.home, directory);
    if d == "/" then (sys.rootUsed, d)
    else if !sys.readable(d) then (0, d)
    else match sys.du(d)
      case None => (0, d)
      case Some(out) => (DuSize(out), d)
  }

  /** The value of one rpm output line: the number after the first '|', or nothing for a line without one. */
  function LineSize(line: string): nat {
    var index := IndexOf(line, '|');
    if index == -1 then 0 else ToULongLong(line[index + 1..])
  }

  /** The quint64 sum of the lines' values. */
  function RpmSum(lines: seq<string>): nat {
    if lines == [] then 0 else AddU64(RpmSum(lines[..|lines| - 1]), LineSize(lines[|lines| - 1]))
  }

  /** The sum of the lines' values without the 64-bit wrap. */
  function PlainSum(lines: seq<string>): nat {
    if lines == [] then 0 else PlainSum(lines[..|lines| - 1]) + LineSize(lines[|lines| - 1])
  }

  /** While the total fits in 64 bits the quint64 sum is the plain sum. */
  lemma {:induction false} RpmSumNoWrap(lines: seq<string>)
    requires PlainSum(lines) < U64
    ensures RpmSum(lines) == PlainSum(lines)
  {
    if lines != [] {
      RpmSumNoWrap(lines[..|lines| - 1]);
    }
  }

  /** A line without '|' adds nothing: taking it out of the output leaves the sum as it was. */
  lemma {:induction false} UnparsableLineIgnored(a: seq<string>, line: string, b: seq<string>)
    requires '|' !in line
    ensures RpmSum(a + [line] + b) == RpmSum(a + b)
    decreases |b|
  {
    if b == [] {
      assert (a + [line] + b)[..|a + [line] + b| - 1] == a;
      assert a + b == a;
      assert RpmSum(a) < U64;
    } else {
      var init := b[..|b| - 1];
      assert (a + [line] + b)[..|a + [line] + b| - 1] == a + [line] + init;
      assert (a + b)[..|a + b| - 1] == a + init;
      UnparsableLineIgnored(a, line, init);
    }
  }

  /** The size of the packages matching a glob, as read from rpm's output. */
  function RpmSize(sys: System, glob: string): nat {
    match sys.rpm(glob)
    case None => 0
    case Some(out) => RpmSum(NonEmpty(Split(out, '\n')))
  }

  /**
   * DiskUsageWorker::calculateRpmSize on the rpm output: the non-empty lines
   * are summed by the number after their first '|'; lines without one are
   * passed over; an abnormal exit gives 0.
   */
  method CalculateRpmSize(sys: System, glob: string) returns (result: nat)
    ensures result == RpmSize(sys, glob)
    ensures sys.rpm(glob).None? ==> result == 0
  {
    if sys.rpm(glob).None? {
      return 0;
    }
    result := 0;
    var lines := NonEmpty(Split(sys.rpm(glob).value, '\n'));
    var i := 0;
    while i < |lines|
      invariant i <= |lines| && result == RpmSum(lines[..i])
    {
      var line := lines[i];
      assert lines[..i + 1][..i] == lines[..i];
      var index := IndexOf(line, '|');
      if index == -1 {
        assert RpmSum(lines[..i]) < U64;
      } else {
        result := AddU64(result, ToULongLong(line[index + 1..]));
      }
      i := i + 1;
    }
    assert lines[..i] == lines;
  }

  /** The apkd figures: asked for once, then kept (m_apkd_data_queried, m_apkd_app, m_apkd_data, m_apkd_run). */
  datatype ApkdCache = ApkdCache(queried: bool, app: nat, data: nat, run: nat)

  const NoApkdCache := ApkdCache(false, 0, 0, 0)

  /** The cache after calculateApkdSize's query step: filled from a valid reply the first time only. */
  function ApkdQuery(sys: System, cache: ApkdCache): (c: ApkdCache)
    ensures c.queried
    ensures cache.queried ==> c == cache
  {
    if cache.queried then cache
    else match sys.apkd
      case None => cache.(queried := true)
      case Some((app, data, apkdCache)) =>
        ApkdCache(true, app, AddU64(data, apkdCache), CalculateSize(sys, "/opt/appsupport").0)
  }

  /** The figure calculateApkdSize returns for a category. */
  function ApkdCategory(cache: ApkdCache, rest: string): nat {
    if rest == "app" then cache.app
    else if rest == "data" then cache.data
    else if rest == "runtime" then cache.run
    else 0
  }

  /**
   * Once queried, the cache does not change whatever apkd would answer; a
   * first valid reply stores app, data plus cache, and the runtime size;
   * an unknown category is 0.
   */
  lemma ApkdQueriedOnce(sys: System, sys': System, cache: ApkdCache, rest: string)
    ensures ApkdQuery(sys', ApkdQuery(sys, cache)) == ApkdQuery(sys, cache)
    ensures !cache.queried && sys.apkd.Some? ==>
      var c := ApkdQuery(sys, cache);
      c.app == sys.apkd.value.0 && c.data == AddU64(sys.apkd.value.1, sys.apkd.value.2) &&
      c.run == CalculateSize(sys, "/opt/appsupport").0
    ensures rest != "app" && rest != "data" && rest != "runtime" ==> ApkdCategory(cache, rest) == 0
  {
  }
}
