/**
 * Vocabulary shared by every component: optional values, results, and the few
 * sequence operations the TypeScript code gets from `Array.prototype`.
 */
module Core {

  datatype Option<+T> = None | Some(value: T)

  datatype Result<+T, +E> = Ok(value: T) | Err(error: E)

  /** The error codes of the kernel's `DomainError` that this project mentions. */
  datatype Code =
    | ValidationFailed
    | PermissionDenied
    | NotEligible
    | NotFound
    | Conflict
    | RateLimited
    | InvalidTransition
    | DependencyFailed

  // ------------------------------------------------------------- filtering --

  /** `Array.prototype.filter`. */
  function Filter<T(!new)>(s: seq<T>, keep: T -> bool): (r: seq<T>)
    ensures |r| <= |s|
    ensures forall x :: x in r <==> x in s && keep(x)
  {
    if s == [] then []
    else if keep(s[0]) then [s[0]] + Filter(s[1..], keep)
    else Filter(s[1..], keep)
  }

  lemma {:induction false} FilterAppend<T(!new)>(s: seq<T>, x: T, keep: T -> bool)
    ensures Filter(s + [x], keep) == Filter(s, keep) + if keep(x) then [x] else []
  {
    if s == [] {
      assert s + [x] == [x];
    } else {
      assert (s + [x])[1..] == s[1..] + [x];
      FilterAppend(s[1..], x, keep);
    }
  }

  /** `Array.prototype.map`, positionally. */
  function Map<T, U>(s: seq<T>, f: T -> U): (r: seq<U>)
    ensures |r| == |s|
    ensures forall i :: 0 <= i < |s| ==> r[i] == f(s[i])
  {
    seq(|s|, i requires 0 <= i < |s| => f(s[i]))
  }

  /** `Array.prototype.find`. */
  function Find<T(!new)>(s: seq<T>, p: T -> bool): (r: Option<T>)
    ensures r.Some? ==> r.value in s && p(r.value)
    ensures r.None? <==> forall i :: 0 <= i < |s| ==> !p(s[i])
  {
    if s == [] then None
    else if p(s[0]) then Some(s[0])
    else
      var rest := Find(s[1..], p);
      assert rest.None? ==> forall i :: 1 <= i < |s| ==> s[i] == s[1..][i - 1];
      rest
  }

  /** What is found is the first that fits. */
  lemma {:induction false} FindIsFirst<T(!new)>(s: seq<T>, p: T -> bool)
    requires Find(s, p).Some?
    ensures exists i :: 0 <= i < |s| && s[i] == Find(s, p).value && forall j :: 0 <= j < i ==> !p(s[j])
  {
    if !p(s[0]) {
      var rest := s[1..];
      FindIsFirst(rest, p);
      var i :| 0 <= i < |rest| && rest[i] == Find(rest, p).value && forall j :: 0 <= j < i ==> !p(rest[j]);
      assert s[i + 1] == rest[i];
      forall j | 0 <= j < i + 1 ensures !p(s[j]) {
        if j > 0 { assert s[j] == rest[j - 1]; }
      }
    }
  }

  /** And the first that fits is found. */
  lemma {:induction false} FirstIsFound<T(!new)>(s: seq<T>, p: T -> bool, i: nat)
    requires i < |s| && p(s[i]) && forall j :: 0 <= j < i ==> !p(s[j])
    ensures Find(s, p) == Some(s[i])
  {
    if i > 0 { FirstIsFound(s[1..], p, i - 1); }
  }

  // ------------------------------------------------------------ duplicates --

  ghost predicate NoDup<T(!new)>(s: seq<T>) {
    forall i, j :: 0 <= i < j < |s| ==> s[i] != s[j]
  }

  function ToSet<T>(s: seq<T>): set<T> {
    set x | x in s
  }

  lemma NoDupCardinality<T(!new)>(s: seq<T>)
    requires NoDup(s)
    ensures |ToSet(s)| == |s|
  {
    if s != [] {
      var rest := s[..|s| - 1];
      NoDupCardinality(rest);
      assert s == rest + [s[|s| - 1]];
      assert ToSet(s) == ToSet(rest) + {s[|s| - 1]};
    }
  }

  /** `[...new Set(s)]`: each element once, where it first stands. */
  function Distinct<T(==)>(s: seq<T>): seq<T> {
    if s == [] then []
    else
      var before, last := Distinct(s[..|s| - 1]), s[|s| - 1];
      if last in before then before else before + [last]
  }

  lemma {:induction false} DistinctIs<T(!new)>(s: seq<T>)
    ensures NoDup(Distinct(s)) && forall x :: x in Distinct(s) <==> x in s
  {
    if s != [] {
      DistinctIs(s[..|s| - 1]);
      assert s == s[..|s| - 1] + [s[|s| - 1]];
    }
  }

  lemma {:induction false} DistinctOfNoDup<T(!new)>(s: seq<T>)
    requires NoDup(s)
    ensures Distinct(s) == s
  {
    if s != [] { DistinctOfNoDup(s[..|s| - 1]); }
  }

  /** No two elements share a key. */
  ghost predicate DistinctBy<T(!new)>(s: seq<T>, key: T -> string) {
    forall i, j :: 0 <= i < j < |s| ==> key(s[i]) != key(s[j])
  }

  ghost function KeysWhere<T(!new)>(s: seq<T>, key: T -> string, keep: T -> bool): set<string> {
    set i | 0 <= i < |s| && keep(s[i]) :: key(s[i])
  }

  /** Counting rows with distinct keys is counting their keys. */
  lemma {:induction false} FilterCountsKeys<T(!new)>(s: seq<T>, key: T -> string, keep: T -> bool)
    requires DistinctBy(s, key)
    ensures |Filter(s, keep)| == |KeysWhere(s, key, keep)|
  {
    if s != [] {
      var rest := s[1..];
      FilterCountsKeys(rest, key, keep);
      var all, later := KeysWhere(s, key, keep), KeysWhere(rest, key, keep);
      forall k | k in later ensures k in all && k != key(s[0]) {
        var i :| 0 <= i < |rest| && keep(rest[i]) && key(rest[i]) == k;
        assert s[i + 1] == rest[i];
      }
      forall k | k in all ensures k in later || (keep(s[0]) && k == key(s[0])) {
        var i :| 0 <= i < |s| && keep(s[i]) && key(s[i]) == k;
        if i > 0 { assert rest[i - 1] == s[i]; }
      }
      if keep(s[0]) {
        assert all == later + {key(s[0])};
      } else {
        assert all == later;
      }
    }
  }

  // ------------------------------------------------------------------ blanks --

  /** The characters `String.prototype.trim` removes. */
  predicate JsWhitespace(c: char) {
    var n := c as int;
    0x09 <= n <= 0x0D || n == 0x20 || n == 0xA0 || n == 0x1680 || 0x2000 <= n <= 0x200A
    || n == 0x2028 || n == 0x2029 || n == 0x202F || n == 0x205F || n == 0x3000 || n == 0xFEFF
  }

  /** `s.trim().length === 0`. */
  predicate Blank(s: string) {
    forall i :: 0 <= i < |s| ==> JsWhitespace(s[i])
  }

  /** `s.trim()`. */
  function Trim(s: string): string
    decreases |s|
  {
    if s == "" then ""
    else if JsWhitespace(s[0]) then Trim(s[1..])
    else if JsWhitespace(s[|s| - 1]) then Trim(s[..|s| - 1])
    else s
  }

  predicate TrimmedAt(s: string, i: int, j: int) {
    0 <= i <= j <= |s| && Trim(s) == s[i..j] && Blank(s[..i]) && Blank(s[j..])
  }

  lemma SliceAfterHead(s: string, i: int, j: int)
    requires s != "" && 0 <= i <= j <= |s| - 1
    ensures s[1..][i..j] == s[i + 1..j + 1]
  {
    var a, b := s[1..][i..j], s[i + 1..j + 1];
    assert |a| == |b|;
    forall k | 0 <= k < |a| ensures a[k] == b[k] {
    }
  }

  lemma TrimAfterBlank(s: string, i: int, j: int)
    requires s != "" && JsWhitespace(s[0]) && TrimmedAt(s[1..], i, j)
    ensures TrimmedAt(s, i + 1, j + 1)
  {
    SliceAfterHead(s, i, j);
    SliceAfterHead(s, j, |s| - 1);
    assert s[1..][j..] == s[1..][j..|s| - 1] && s[j + 1..] == s[j + 1..|s|];
    assert s[..i + 1] == [s[0]] + s[1..][..i];
  }

  lemma TrimBeforeBlank(s: string, i: int, j: int)
    requires s != "" && !JsWhitespace(s[0]) && JsWhitespace(s[|s| - 1]) && TrimmedAt(s[..|s| - 1], i, j)
    ensures TrimmedAt(s, i, j)
  {
    var rest := s[..|s| - 1];
    assert s[i..j] == rest[i..j] && s[..i] == rest[..i];
    assert forall k :: 0 <= k < |rest| - j ==> s[j..][k] == rest[j..][k];
  }

  /** What `trim` leaves is the text between its first and last characters that are not blank. */
  lemma {:induction false} TrimIs(s: string)
    ensures exists i, j :: TrimmedAt(s, i, j)
    ensures Trim(s) != "" ==> !JsWhitespace(Trim(s)[0]) && !JsWhitespace(Trim(s)[|Trim(s)| - 1])
    decreases |s|
  {
    if s == "" {
      assert TrimmedAt(s, 0, 0);
    } else if JsWhitespace(s[0]) {
      TrimIs(s[1..]);
      var i, j :| TrimmedAt(s[1..], i, j);
      TrimAfterBlank(s, i, j);
    } else if JsWhitespace(s[|s| - 1]) {
      TrimIs(s[..|s| - 1]);
      var i, j :| TrimmedAt(s[..|s| - 1], i, j);
      TrimBeforeBlank(s, i, j);
    } else {
      assert TrimmedAt(s, 0, |s|);
    }
  }

  // ------------------------------------------------------- ordering strings --

  /** JavaScript's `<=` on strings: lexicographic by code unit. */
  predicate StringLeq(a: string, b: string) {
    a == "" || (b != "" && (a[0] < b[0] || (a[0] == b[0] && StringLeq(a[1..], b[1..]))))
  }

  lemma {:induction false} StringLeqTotal(a: string, b: string)
    ensures StringLeq(a, b) || StringLeq(b, a)
    ensures StringLeq(a, b) && StringLeq(b, a) ==> a == b
  {
    if a != "" && b != "" && a[0] == b[0] {
      StringLeqTotal(a[1..], b[1..]);
      assert a == [a[0]] + a[1..] && b == [b[0]] + b[1..];
    }
  }

  lemma {:induction false} StringLeqTransitive(a: string, b: string, c: string)
    requires StringLeq(a, b) && StringLeq(b, c)
    ensures StringLeq(a, c)
  {
    if a != "" && a[0] == b[0] && b[0] == c[0] {
      StringLeqTransitive(a[1..], b[1..], c[1..]);
    }
  }

  /** `Array.prototype.sort` on strings, as the insertion sort it is equal to. */
  function InsertString(x: string, s: seq<string>): (r: seq<string>)
    ensures multiset(r) == multiset(s) + multiset{x}
  {
    if s == [] then [x]
    else if StringLeq(x, s[0]) then [x] + s
    else
      assert s == [s[0]] + s[1..];
      [s[0]] + InsertString(x, s[1..])
  }

  function SortStrings(s: seq<string>): (r: seq<string>)
    ensures multiset(r) == multiset(s)
    ensures |r| == |s|
  {
    if s == [] then []
    else
      assert s == [s[0]] + s[1..];
      var r := InsertString(s[0], SortStrings(s[1..]));
      assert |r| == |multiset(r)|;
      r
  }

  ghost predicate SortedStrings(s: seq<string>) {
    forall i, j :: 0 <= i < j < |s| ==> StringLeq(s[i], s[j])
  }

  lemma {:induction false} SortedCons(x: string, s: seq<string>)
    requires SortedStrings(s) && forall j :: 0 <= j < |s| ==> StringLeq(x, s[j])
    ensures SortedStrings([x] + s)
  {
  }

  lemma {:induction false} InsertStringSorted(x: string, s: seq<string>)
    requires SortedStrings(s)
    ensures SortedStrings(InsertString(x, s))
  {
    if s == [] {
    } else if StringLeq(x, s[0]) {
      forall j | 0 <= j < |s| ensures StringLeq(x, s[j]) {
        if j > 0 { StringLeqTransitive(x, s[0], s[j]); }
      }
      SortedCons(x, s);
    } else {
      var rest := InsertString(x, s[1..]);
      InsertStringSorted(x, s[1..]);
      StringLeqTotal(x, s[0]);
      forall j | 0 <= j < |rest| ensures StringLeq(s[0], rest[j]) {
        assert rest[j] in multiset(rest);
        assert rest[j] == x || rest[j] in s[1..];
      }
      SortedCons(s[0], rest);
    }
  }

  lemma {:induction false} SortStringsSorted(s: seq<string>)
    ensures SortedStrings(SortStrings(s))
  {
    if s != [] {
      SortStringsSorted(s[1..]);
      InsertStringSorted(s[0], SortStrings(s[1..]));
    }
  }

  lemma SameHead(a: seq<string>, b: seq<string>)
    requires SortedStrings(a) && SortedStrings(b) && multiset(a) == multiset(b) && a != []
    ensures b != [] && a[0] == b[0]
  {
    assert a[0] in multiset(b);
    assert b[0] in multiset(a);
    LeastFirst(a, b[0]);
    LeastFirst(b, a[0]);
    StringLeqTotal(a[0], b[0]);
  }

  lemma TailMultiset(s: seq<string>)
    requires s != []
    ensures multiset(s[1..]) == multiset(s) - multiset{s[0]}
  {
    assert s == [s[0]] + s[1..];
  }

  /** A sorted sequence is determined by its multiset. */
  lemma {:induction false} SortedUnique(a: seq<string>, b: seq<string>)
    requires SortedStrings(a) && SortedStrings(b) && multiset(a) == multiset(b)
    ensures a == b
  {
    assert |a| == |multiset(a)| == |multiset(b)| == |b|;
    if a != [] {
      SameHead(a, b);
      TailMultiset(a);
      TailMultiset(b);
      SortedUnique(a[1..], b[1..]);
      assert a == [a[0]] + a[1..] && b == [b[0]] + b[1..];
    }
  }

  lemma {:induction false} LeastFirst(s: seq<string>, x: string)
    requires SortedStrings(s) && x in s
    ensures StringLeq(s[0], x)
  {
    StringLeqTotal(x, x);
  }

  /** Two lists sort to the same list exactly when one is a permutation of the other. */
  lemma {:induction false} SortsAgree(a: seq<string>, b: seq<string>)
    ensures SortStrings(a) == SortStrings(b) <==> multiset(a) == multiset(b)
  {
    SortStringsSorted(a);
    SortStringsSorted(b);
    if multiset(a) == multiset(b) {
      SortedUnique(SortStrings(a), SortStrings(b));
    }
  }
}
