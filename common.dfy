/**
 * Types and string helpers shared by every component: the FileEngine error
 * and mode enums, paths as strings, and the few QString/QDir/QFileInfo
 * behaviours the code relies on (prefix test, split, file name, directory
 * join, unsigned decimal parse).
 */
module Common {

  datatype Option<T> = None | Some(value: T)

  /** FileEngine::Error, as used by both engine variants and the daemon. */
  datatype Error =
    | NoError
    | ErrorOperationInProgress
    | ErrorCopyFailed
    | ErrorDeleteFailed
    | ErrorMoveFailed
    | ErrorRenameFailed
    | ErrorCannotCopyIntoItself
    | ErrorFolderCopyFailed
    | ErrorFolderCreationFailed
    | ErrorChmodFailed
    | ErrorInvalidRequest
    | ErrorOperationCancelled

  /** FileEngine::Mode */
  datatype Mode = IdleMode | DeleteMode | CopyMode | MoveMode

  type Path = string

  /** 2^64: the range of quint64 / qulonglong. */
  const U64: nat := 0x1_0000_0000_0000_0000

  /** QString::startsWith */
  predicate StartsWith(s: string, prefix: string) {
    |prefix| <= |s| && s[..|prefix|] == prefix
  }

  predicate EndsWith(s: string, suffix: string) {
    |suffix| <= |s| && s[|s| - |suffix|..] == suffix
  }

  /** QString::indexOf(char): the first position of c, or -1. */
  function IndexOf(s: string, c: char): (r: int)
    ensures -1 <= r < |s|
    ensures r == -1 <==> c !in s
    ensures r >= 0 ==> s[r] == c && forall k :: 0 <= k < r ==> s[k] != c
  {
    if s == [] then -1
    else if s[0] == c then 0
    else
      var k := IndexOf(s[1..], c);
      if k < 0 then -1 else k + 1
  }

  /** QString::lastIndexOf(char): the last position of c, or -1. */
  function LastIndexOf(s: string, c: char): (r: int)
    ensures -1 <= r < |s|
    ensures r == -1 <==> c !in s
    ensures r >= 0 ==> s[r] == c
    ensures forall k :: r < k < |s| ==> s[k] != c
  {
    if s == [] then -1
    else if s[|s| - 1] == c then |s| - 1
    else
      var t := s[..|s| - 1];
      var k := LastIndexOf(t, c);
      assert forall j :: k < j < |t| ==> s[j] == t[j];
      assert s == t + [s[|s| - 1]];
      k
  }

  /** QFileInfo::fileName: everything after the last '/'. */
  function FileName(p: Path): string {
    p[LastIndexOf(p, '/') + 1..]
  }

  /** A file name holds no separator and is what the path ends with. */
  lemma FileNameIsLastComponent(p: Path)
    ensures '/' !in FileName(p) && EndsWith(p, FileName(p))
  {
  }

  /**
   * QFileInfo::absolutePath (and QDir::cdUp) for an absolute path: everything
   * before the last '/', or "/" when that is the leading one.
   */
  function DirOf(p: Path): Path {
    var i := LastIndexOf(p, '/');
    if i <= 0 then "/" else p[..i]
  }

  /**
   * QDir(dir).absoluteFilePath(name) for an absolute dir: an absolute name
   * is returned as it is, an empty name gives the directory, otherwise the
   * name is appended after exactly one separator.
   */
  function Join(dir: Path, name: string): Path {
    if name != [] && name[0] == '/' then name
    else if name == [] then dir
    else if EndsWith(dir, "/") then dir + name
    else dir + "/" + name
  }

  lemma JoinFileName(dir: Path, n: string)
    requires n != [] && '/' !in n
    ensures FileName(Join(dir, n)) == n
  {
    var r := Join(dir, n);
    var q := if EndsWith(dir, "/") then dir else dir + "/";
    assert r == q + n;
    assert r[|q| - 1] == '/';
    assert forall k :: |q| <= k < |r| ==> r[k] == n[k - |q|];
    assert r[|q|..] == n;
  }

  /**
   * QString::split(sep) keeping empty parts: the pieces between the
   * separators, so there is always at least one piece.
   */
  function Split(s: string, sep: char): (r: seq<string>)
    ensures |r| >= 1
    ensures forall k :: 0 <= k < |r| ==> sep !in r[k]
    decreases |s|
  {
    var i := IndexOf(s, sep);
    if i < 0 then [s] else [s[..i]] + Split(s[i + 1..], sep)
  }

  /** The inverse of Split: the pieces glued together with sep. */
  function JoinWith(parts: seq<string>, sep: char): string
    requires |parts| >= 1
  {
    if |parts| == 1 then parts[0] else parts[0] + [sep] + JoinWith(parts[1..], sep)
  }

  lemma JoinWithCons(a: string, rest: seq<string>, sep: char)
    requires |rest| >= 1
    ensures JoinWith([a] + rest, sep) == a + [sep] + JoinWith(rest, sep)
  {
    assert ([a] + rest)[1..] == rest;
  }

  lemma SplitAt(s: string, sep: char, i: int)
    requires i == IndexOf(s, sep) && i >= 0
    ensures Split(s, sep) == [s[..i]] + Split(s[i + 1..], sep)
    ensures s == s[..i] + [sep] + s[i + 1..]
  {
  }

  lemma {:induction false} SplitJoinRoundTrip(s: string, sep: char)
    ensures JoinWith(Split(s, sep), sep) == s
    decreases |s|
  {
    var i := IndexOf(s, sep);
    if i >= 0 {
      SplitAt(s, sep, i);
      SplitJoinRoundTrip(s[i + 1..], sep);
      JoinWithCons(s[..i], Split(s[i + 1..], sep), sep);
    }
  }

  /** QString::SkipEmptyParts applied to a split result. */
  function NonEmpty(parts: seq<string>): (r: seq<string>)
    ensures forall k :: 0 <= k < |r| ==> r[k] != [] && r[k] in parts
    ensures |r| <= |parts|
  {
    if parts == [] then []
    else if parts[0] == [] then NonEmpty(parts[1..])
    else [parts[0]] + NonEmpty(parts[1..])
  }

  predicate IsDigit(c: char) { '0' <= c <= '9' }

  predicate AllDigits(s: string) { forall k :: 0 <= k < |s| ==> IsDigit(s[k]) }

  function DecimalValue(s: string): nat
    requires AllDigits(s)
  {
    if s == [] then 0
    else DecimalValue(s[..|s| - 1]) * 10 + (s[|s| - 1] as int - '0' as int)
  }

  /**
   * QString::toULongLong in base 10: the value of a non-empty string of
   * digits that fits in 64 bits, and 0 for anything else.
   */
  function ToULongLong(s: string): (r: nat)
    ensures r < U64
    ensures !AllDigits(s) || s == [] ==> r == 0
  {
    if s != [] && AllDigits(s) && DecimalValue(s) < U64 then DecimalValue(s) else 0
  }

  /** Unsigned 64-bit arithmetic, wrapping as quint64 does. */
  function AddU64(a: nat, b: nat): (r: nat)
    ensures r < U64
  {
    (a + b) % U64
  }

  function MulU64(a: nat, b: nat): (r: nat)
    ensures r < U64
  {
    (a * b) % U64
  }

  /** The nine flags FileEngine::chmod takes: read, write, execute for owner, group, others. */
  datatype Permissions = Permissions(
    ownerRead: bool, ownerWrite: bool, ownerExecute: bool,
    groupRead: bool, groupWrite: bool, groupExecute: bool,
    othersRead: bool, othersWrite: bool, othersExecute: bool)

  /** QFileDevice::Permission values for the nine flags. */
  const ReadOwner: bv16 := 0x4000
  const WriteOwner: bv16 := 0x2000
  const ExeOwner: bv16 := 0x1000
  const ReadGroup: bv16 := 0x0040
  const WriteGroup: bv16 := 0x0020
  const ExeGroup: bv16 := 0x0010
  const ReadOther: bv16 := 0x0004
  const WriteOther: bv16 := 0x0002
  const ExeOther: bv16 := 0x0001

  function Flag(on: bool, bit: bv16): bv16 {
    if on then bit else 0
  }

  /** The mask chmod builds: one `|=` per flag that is set, starting from no bits. */
  function PermissionMask(p: Permissions): bv16 {
    Flag(p.ownerRead, ReadOwner) | Flag(p.ownerWrite, WriteOwner) | Flag(p.ownerExecute, ExeOwner) |
    Flag(p.groupRead, ReadGroup) | Flag(p.groupWrite, WriteGroup) | Flag(p.groupExecute, ExeGroup) |
    Flag(p.othersRead, ReadOther) | Flag(p.othersWrite, WriteOther) | Flag(p.othersExecute, ExeOther)
  }

  /** Reading the nine flags back from a mask. */
  function MaskFlags(m: bv16): Permissions {
    Permissions(
      m & ReadOwner != 0, m & WriteOwner != 0, m & ExeOwner != 0,
      m & ReadGroup != 0, m & WriteGroup != 0, m & ExeGroup != 0,
      m & ReadOther != 0, m & WriteOther != 0, m & ExeOther != 0)
  }

  /** The nine bits of the mask. */
  const AllPermissionBits: bv16 :=
    ReadOwner | WriteOwner | ExeOwner | ReadGroup | WriteGroup | ExeGroup | ReadOther | WriteOther | ExeOther

  /**
   * The mask holds exactly the bits whose flag is set: each flag reads back
   * unchanged, and no bit outside the nine (the ReadUser/WriteUser/ExeUser
   * bits among them) is ever set.
   */
  lemma PermissionMaskExact(p: Permissions)
    ensures MaskFlags(PermissionMask(p)) == p
    ensures PermissionMask(p) & !AllPermissionBits == 0
  {
  }

  /** Two different flag sets never give the same mask. */
  lemma PermissionMaskInjective(p: Permissions, q: Permissions)
    requires PermissionMask(p) == PermissionMask(q)
    ensures p == q
  {
    PermissionMaskExact(p);
    PermissionMaskExact(q);
  }
}
