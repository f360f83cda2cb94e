/**
 * The order DiskUsageWorker::calculate sorts its keys by: QString's
 * lexicographic comparison (code unit by code unit, a proper prefix before
 * the longer string), and qStableSort with qGreater, which puts the keys in
 * descending order.
 */
module StringOrder {
  import opened Common

  /** QString's operator<. */
  predicate Less(a: string, b: string)
    decreases |a|
  {
    if a == [] then b != []
    else if b == [] then false
    else if a[0] != b[0] then a[0] < b[0]
    else Less(a[1..], b[1..])
  }

  lemma {:induction false} LessIrreflexive(a: string)
    ensures !Less(a, a)
    decreases |a|
  {
    if a != [] {
      LessIrreflexive(a[1..]);
    }
  }

  lemma {:induction false} LessTransitive(a: string, b: string, c: string)
    requires Less(a, b) && Less(b, c)
    ensures Less(a, c)
    decreases |a|
  {
    if a != [] && a[0] == b[0] && b[0] == c[0] {
      LessTransitive(a[1..], b[1..], c[1..]);
    }
  }

  /** Two different strings are always ordered one way or the other. */
  lemma {:induction false} LessTotal(a: string, b: string)
    ensures a == b || Less(a, b) || Less(b, a)
    decreases |a|
  {
    if a != [] && b != [] && a[0] == b[0] {
      LessTotal(a[1..], b[1..]);
      if a[1..] == b[1..] {
        assert a == [a[0]] + a[1..] && b == [b[0]] + b[1..];
      }
    }
  }

  lemma LessAsymmetric(a: string, b: string)
    requires Less(a, b)
    ensures !Less(b, a)
  {
    if Less(b, a) {
      LessTransitive(a, b, a);
      LessIrreflexive(a);
    }
  }

  /** "Not less" is transitive too: the order qGreater sorts by is a total preorder. */
  lemma AtLeastTransitive(a: string, b: string, c: string)
    requires !Less(a, b) && !Less(b, c)
    ensures !Less(a, c)
  {
    if Less(a, c) {
      LessTotal(a, b);
      LessTotal(b, c);
      if a == b {
      } else if b == c {
      } else {
        LessTransitive(c, b, a);
        LessAsymmetric(c, a);
      }
    }
  }

  /** A string sorts before every longer string that starts with it. */
  lemma {:induction false} ProperPrefixIsLess(a: string, b: string)
    requires |b| > |a| && StartsWith(b, a)
    ensures Less(a, b)
    decreases |a|
  {
    if a != [] {
      assert b[1..][..|a| - 1] == a[1..];
      ProperPrefixIsLess(a[1..], b[1..]);
    }
  }

  /** No element is followed by a greater one. */
  ghost predicate Descending(s: seq<string>) {
    forall i, j :: 0 <= i < j < |s| ==> !Less(s[i], s[j])
  }

  /** One insertion step of the stable sort: x goes before the first element it is not less than. */
  function Insert(x: string, s: seq<string>): seq<string> {
    if s == [] then [x]
    else if !Less(x, s[0]) then [x] + s
    else [s[0]] + Insert(x, s[1..])
  }

  /** qStableSort(keys.begin(), keys.end(), qGreater<QString>()) */
  function SortDesc(s: seq<string>): seq<string> {
    if s == [] then [] else Insert(s[0], SortDesc(s[1..]))
  }

  lemma {:induction false} InsertMultiset(x: string, s: seq<string>)
    ensures multiset(Insert(x, s)) == multiset(s) + multiset{x}
  {
    if s != [] && Less(x, s[0]) {
      InsertMultiset(x, s[1..]);
      assert s == [s[0]] + s[1..];
    }
  }

  lemma {:induction false} InsertDescending(x: string, s: seq<string>)
    requires Descending(s)
    ensures Descending(Insert(x, s))
  {
    if s == [] {
    } else if !Less(x, s[0]) {
      forall j | 0 <= j < |s|
        ensures !Less(x, s[j])
      {
        if j > 0 {
          AtLeastTransitive(x, s[0], s[j]);
        }
      }
    } else {
      var t := Insert(x, s[1..]);
      InsertDescending(x, s[1..]);
      InsertMultiset(x, s[1..]);
      LessAsymmetric(x, s[0]);
      forall j | 0 <= j < |t|
        ensures !Less(s[0], t[j])
      {
        assert t[j] in multiset(t);
        if t[j] != x {
          assert t[j] in multiset(s[1..]);
          var k :| 0 <= k < |s[1..]| && s[1..][k] == t[j];
          assert s[k + 1] == t[j];
        }
      }
    }
  }

  /** The sorted keys are the same keys, in descending order. */
  lemma {:induction false} SortDescMeaning(s: seq<string>)
    ensures Descending(SortDesc(s))
    ensures multiset(SortDesc(s)) == multiset(s)
  {
    if s != [] {
      SortDescMeaning(s[1..]);
      InsertDescending(s[0], SortDesc(s[1..]));
      InsertMultiset(s[0], SortDesc(s[1..]));
      assert s == [s[0]] + s[1..];
    }
  }

  /** In descending order a key lies before every key that is a proper prefix of it: a child comes before its parents. */
  lemma ChildBeforeParent(s: seq<string>, a: nat, b: nat)
    requires Descending(s) && a < |s| && b < |s|
    requires |s[a]| > |s[b]| && StartsWith(s[a], s[b])
    ensures a < b
  {
    ProperPrefixIsLess(s[b], s[a]);
  }

  lemma MultisetTail(s: seq<string>)
    requires s != []
    ensures multiset(s[1..]) == multiset(s) - multiset{s[0]}
  {
    assert s == [s[0]] + s[1..];
  }

  /** Two descending arrangements of the same keys start with the same, greatest, key. */
  lemma HeadsEqual(s: seq<string>, t: seq<string>)
    requires Descending(s) && Descending(t) && multiset(s) == multiset(t) && s != []
    ensures t != [] && s[0] == t[0]
  {
    assert s[0] in multiset(t);
    var i :| 0 <= i < |t| && t[i] == s[0];
    assert t[0] in multiset(s);
    var j :| 0 <= j < |s| && s[j] == t[0];
    LessIrreflexive(s[0]);
    assert !Less(t[0], s[0]) by {
      if i > 0 {
        assert !Less(t[0], t[i]);
      }
    }
    assert !Less(s[0], t[0]) by {
      if j > 0 {
        assert !Less(s[0], s[j]);
      }
    }
    LessTotal(s[0], t[0]);
  }

  /** There is only one descending arrangement of a collection of keys. */
  lemma {:induction false} DescendingUnique(s: seq<string>, t: seq<string>)
    requires Descending(s) && Descending(t) && multiset(s) == multiset(t)
    ensures s == t
    decreases |s|
  {
    if s == [] {
      assert |multiset(t)| == 0;
    } else {
      HeadsEqual(s, t);
      MultisetTail(s);
      MultisetTail(t);
      DescendingUnique(s[1..], t[1..]);
      assert s == [s[0]] + s[1..] && t == [t[0]] + t[1..];
    }
  }

  /** No element is followed by one with a smaller key. */
  ghost predicate AscendingBy<T>(s: seq<T>, key: T -> string) {
    forall i, j :: 0 <= i < j < |s| ==> !Less(key(s[j]), key(s[i]))
  }

  /** One insertion step of an ascending sort by key: x goes before the first element whose key is not less than its own. */
  function InsertBy<T>(x: T, s: seq<T>, key: T -> string): seq<T> {
    if s == [] then [x]
    else if !Less(key(s[0]), key(x)) then [x] + s
    else [s[0]] + InsertBy(x, s[1..], key)
  }

  /** std::sort by a comparison that is "key less than". */
  function SortBy<T>(s: seq<T>, key: T -> string): seq<T> {
    if s == [] then [] else InsertBy(s[0], SortBy(s[1..], key), key)
  }

  lemma {:induction false} InsertByMultiset<T>(x: T, s: seq<T>, key: T -> string)
    ensures multiset(InsertBy(x, s, key)) == multiset(s) + multiset{x}
  {
    if s != [] && Less(key(s[0]), key(x)) {
      InsertByMultiset(x, s[1..], key);
      assert s == [s[0]] + s[1..];
    }
  }

  lemma {:induction false} InsertByAscending<T>(x: T, s: seq<T>, key: T -> string)
    requires AscendingBy(s, key)
    ensures AscendingBy(InsertBy(x, s, key), key)
  {
    if s == [] {
    } else if !Less(key(s[0]), key(x)) {
      forall j | 0 <= j < |s|
        ensures !Less(key(s[j]), key(x))
      {
        if j > 0 {
          AtLeastTransitive(key(s[j]), key(s[0]), key(x));
        }
      }
    } else {
      var t := InsertBy(x, s[1..], key);
      InsertByAscending(x, s[1..], key);
      InsertByMultiset(x, s[1..], key);
      LessAsymmetric(key(s[0]), key(x));
      forall j | 0 <= j < |t|
        ensures !Less(key(t[j]), key(s[0]))
      {
        assert t[j] in multiset(t);
        if t[j] != x {
          assert t[j] in multiset(s[1..]);
          var k :| 0 <= k < |s[1..]| && s[1..][k] == t[j];
          assert s[k + 1] == t[j];
        }
      }
    }
  }

  /** The sorted list holds the same elements, in ascending key order. */
  lemma {:induction false} SortByMeaning<T>(s: seq<T>, key: T -> string)
    ensures AscendingBy(SortBy(s, key), key)
    ensures multiset(SortBy(s, key)) == multiset(s)
  {
    if s != [] {
      SortByMeaning(s[1..], key);
      InsertByAscending(s[0], SortBy(s[1..], key), key);
      InsertByMultiset(s[0], SortBy(s[1..], key), key);
      assert s == [s[0]] + s[1..];
    }
  }
}
