/**
 * List idioms of Python that the matcher relies on: slicing with `[:n]`,
 * order-preserving de-duplication (`dict.fromkeys`, a `seen` set), list
 * comprehensions with a condition, and `sorted` over strings compared
 * code point by code point.
 */
module Seqs {

  // ---------------------------------------------------------------------
  // Distinct elements and first-seen order
  // ---------------------------------------------------------------------

  predicate NoDup<T(==)>(s: seq<T>) {
    forall i, j :: 0 <= i < j < |s| ==> s[i] != s[j]
  }

  /** Position of the first occurrence of `x` in `s`. */
  function IndexOf<T(==)>(s: seq<T>, x: T): (k: nat)
    requires x in s
    ensures k < |s| && s[k] == x
    ensures forall j :: 0 <= j < k ==> s[j] != x
  {
    if s[0] == x then 0 else 1 + IndexOf(s[1..], x)
  }

  /**
   * The distinct elements of `s` in order of first occurrence
   * (`list(dict.fromkeys(s))`).
   */
  function FirstSeen<T(==)>(s: seq<T>): (r: seq<T>)
  {
    if s == [] then []
    else
      var p := FirstSeen(s[..|s| - 1]);
      if s[|s| - 1] in p then p else p + [s[|s| - 1]]
  }

  /** What `FirstSeen` promises: no duplicates, the same elements, first-occurrence order. */
  lemma {:induction false} FirstSeenFacts<T>(s: seq<T>)
    ensures NoDup(FirstSeen(s))
    ensures forall x :: x in FirstSeen(s) <==> x in s
    ensures |FirstSeen(s)| <= |s|
    ensures forall i, j :: 0 <= i < j < |FirstSeen(s)| ==> IndexOf(s, FirstSeen(s)[i]) < IndexOf(s, FirstSeen(s)[j])
  {
    if s != [] {
      var q := s[..|s| - 1];
      var last := s[|s| - 1];
      FirstSeenFacts(q);
      var p := FirstSeen(q);
      assert s == q + [last];
      assert forall x :: x in s <==> x in q || x == last;
      forall x | x in q ensures IndexOf(s, x) == IndexOf(q, x) {
        IndexOfPrefix(q, last, x);
      }
      if last !in p {
        assert last !in q;
        IndexOfLast(q, last);
      }
    }
  }

  lemma {:induction false} IndexOfPrefix<T>(q: seq<T>, last: T, x: T)
    requires x in q
    ensures IndexOf(q + [last], x) == IndexOf(q, x)
  {
    if q[0] != x {
      assert (q + [last])[1..] == q[1..] + [last];
      IndexOfPrefix(q[1..], last, x);
    }
  }

  lemma {:induction false} IndexOfLast<T>(q: seq<T>, last: T)
    requires last !in q
    ensures IndexOf(q + [last], last) == |q|
  {
    if q != [] {
      assert (q + [last])[1..] == q[1..] + [last];
      IndexOfLast(q[1..], last);
    }
  }

  lemma {:induction false} FirstSeenOfNoDup<T>(s: seq<T>)
    requires NoDup(s)
    ensures FirstSeen(s) == s
  {
    if s != [] {
      FirstSeenOfNoDup(s[..|s| - 1]);
      assert s[|s| - 1] !in s[..|s| - 1];
    }
  }

  // ---------------------------------------------------------------------
  // Slicing
  // ---------------------------------------------------------------------

  /** Where `s[:n]` stops for a list of length `len` (a negative `n` counts from the end). */
  function SliceEnd(len: nat, n: int): (e: nat)
    ensures e <= len
    ensures n >= 0 ==> e == if n < len then n else len
    ensures n < 0 ==> e == if len + n > 0 then len + n else 0
  {
    if n >= 0 then (if n < len then n else len)
    else if len + n > 0 then len + n else 0
  }

  /** `s[:n]`: a prefix of `s`, as long as `n` allows (a negative `n` drops that many from the end). */
  function Take<T>(s: seq<T>, n: int): (r: seq<T>)
    ensures |r| <= |s| && r == s[..|r|]
    ensures n >= 0 ==> |r| == if n < |s| then n else |s|
    ensures n < 0 ==> |r| == if |s| + n > 0 then |s| + n else 0
  {
    s[..SliceEnd(|s|, n)]
  }

  // ---------------------------------------------------------------------
  // Filtering
  // ---------------------------------------------------------------------

  /** `[x for x in s if p(x)]`. */
  function Filter<T>(s: seq<T>, p: T -> bool): (r: seq<T>)
    ensures |r| <= |s|
    ensures forall k :: 0 <= k < |r| ==> p(r[k]) && r[k] in s
  {
    if s == [] then []
    else
      var rest := Filter(s[..|s| - 1], p);
      if p(s[|s| - 1]) then rest + [s[|s| - 1]] else rest
  }

  /** Every element of `s` that passes `p` is kept. */
  lemma {:induction false} FilterKeeps<T>(s: seq<T>, p: T -> bool)
    ensures forall x :: x in s && p(x) ==> x in Filter(s, p)
  {
    if s != [] {
      var init := s[..|s| - 1];
      FilterKeeps(init, p);
      assert forall x :: x in s ==> x in init || x == s[|s| - 1];
    }
  }

  lemma FilterAppend<T>(s: seq<T>, x: T, p: T -> bool)
    ensures Filter(s + [x], p) == if p(x) then Filter(s, p) + [x] else Filter(s, p)
  {
    assert (s + [x])[..|s|] == s;
  }

  /** Filtering a concatenation filters each part. */
  lemma {:induction false} FilterConcat<T>(a: seq<T>, b: seq<T>, p: T -> bool)
    ensures Filter(a + b, p) == Filter(a, p) + Filter(b, p)
    decreases |b|
  {
    if b == [] {
      assert a + b == a;
    } else {
      var init, last := b[..|b| - 1], b[|b| - 1];
      FilterConcat(a, init, p);
      assert b == init + [last];
      AppendAssoc(a, init, [last]);
      FilterAppend(a + init, last, p);
      FilterAppend(init, last, p);
      if p(last) {
        AppendAssoc(Filter(a, p), Filter(init, p), [last]);
      }
    }
  }

  /** Nothing passes a filter that no element satisfies. */
  lemma {:induction false} FilterNone<T>(s: seq<T>, p: T -> bool)
    requires forall i :: 0 <= i < |s| ==> !p(s[i])
    ensures Filter(s, p) == []
  {
    if s != [] {
      FilterNone(s[..|s| - 1], p);
    }
  }

  /** A prefix nothing of which passes the filter can be dropped. */
  lemma FilterSkip<T>(h: seq<T>, t: seq<T>, p: T -> bool)
    requires forall i :: 0 <= i < |h| ==> !p(h[i])
    ensures Filter(h + t, p) == Filter(t, p)
  {
    FilterConcat(h, t, p);
    FilterNone(h, p);
    assert [] + Filter(t, p) == Filter(t, p);
  }

  /** `parts[0] + seps[0] + parts[1] + … + parts[n]`: pieces put back together with what separated them. */
  function Interleave<T>(parts: seq<seq<T>>, seps: seq<seq<T>>): seq<T>
    requires |parts| == |seps| + 1
  {
    if seps == [] then parts[0] else parts[0] + seps[0] + Interleave(parts[1..], seps[1..])
  }

  /** Cutting `s` after `l` and then `n` more elements loses nothing. */
  lemma CutTwice<T>(s: seq<T>, l: nat, n: nat)
    requires l + n <= |s|
    ensures s[..l] + s[l..][..n] + s[l..][n..] == s
  {
    var t := s[l..];
    assert t[..n] + t[n..] == t;
    assert s[..l] + t == s;
  }

  lemma AppendAssoc<T>(x: seq<T>, y: seq<T>, z: seq<T>)
    ensures x + (y + z) == (x + y) + z
  {
  }

  lemma DropAppend<T>(a: seq<T>, b: seq<T>, m: nat)
    requires m <= |a|
    ensures (a + b)[m..] == a[m..] + b
  {
  }

  lemma SplitAt<T>(s: seq<T>, m: nat)
    requires m <= |s|
    ensures s[..m] + s[m..] == s
  {
  }

  /** Cutting `s` at `i` and at `j` loses nothing. */
  lemma CutAt<T>(s: seq<T>, i: nat, j: nat)
    requires i <= j <= |s|
    ensures s[..i] + s[i..j] + s[j..] == s
  {
    assert s[..i] + s[i..j] == s[..j];
  }

  /** The slices `s[a..b]`, `s[b..c]` and `s[c..]` make up `s[a..]`. */
  lemma CutThrice<T>(s: seq<T>, a: nat, b: nat, c: nat)
    requires a <= b <= c <= |s|
    ensures s[a..b] + s[b..c] + s[c..] == s[a..]
  {
    assert s[a..b] + s[b..c] == s[a..c];
  }

  lemma InterleaveCons<T>(p: seq<T>, parts: seq<seq<T>>, x: seq<T>, seps: seq<seq<T>>)
    requires |parts| == |seps| + 1
    ensures Interleave([p] + parts, [x] + seps) == p + x + Interleave(parts, seps)
  {
    assert ([p] + parts)[1..] == parts;
    assert ([x] + seps)[1..] == seps;
  }

  /** Putting the same element in front keeps a multiset relation between two lists. */
  lemma ConsMultiset<T>(a: T, r: seq<T>, rest: seq<T>, x: T)
    requires multiset(r) == multiset(rest) + multiset{x}
    ensures multiset([a] + r) == multiset([a] + rest) + multiset{x}
  {
  }

  /** One more element of a prefix: the form a filtering loop's invariant steps by. */
  lemma FilterPrefixStep<T>(s: seq<T>, i: nat, p: T -> bool)
    requires i < |s|
    ensures Filter(s[..i + 1], p) == if p(s[i]) then Filter(s[..i], p) + [s[i]] else Filter(s[..i], p)
  {
    assert s[..i + 1] == s[..i] + [s[i]];
    FilterAppend(s[..i], s[i], p);
  }

  /** Keeping more elements never shortens the list. */
  lemma {:induction false} FilterMonotone<T>(s: seq<T>, p: T -> bool, q: T -> bool)
    requires forall x :: x in s && p(x) ==> q(x)
    ensures |Filter(s, p)| <= |Filter(s, q)|
  {
    if s != [] {
      FilterMonotone(s[..|s| - 1], p, q);
    }
  }

  /** The kept and the dropped elements together are as many as the input. */
  lemma {:induction false} FilterComplement<T>(s: seq<T>, p: T -> bool, q: T -> bool)
    requires forall x :: q(x) == !p(x)
    ensures |Filter(s, p)| + |Filter(s, q)| == |s|
  {
    if s != [] {
      FilterComplement(s[..|s| - 1], p, q);
    }
  }

  // ---------------------------------------------------------------------
  // Python's string order
  // ---------------------------------------------------------------------

  /** `a < b` for Python strings: code point by code point, a proper prefix first. */
  predicate LexLess(a: string, b: string) {
    if |a| == 0 then |b| > 0
    else if |b| == 0 then false
    else if a[0] != b[0] then a[0] < b[0]
    else LexLess(a[1..], b[1..])
  }

  lemma {:induction false} LexLessIrreflexive(a: string)
    ensures !LexLess(a, a)
  {
    if |a| > 0 {
      LexLessIrreflexive(a[1..]);
    }
  }

  lemma {:induction false} LexLessTransitive(a: string, b: string, c: string)
    requires LexLess(a, b) && LexLess(b, c)
    ensures LexLess(a, c)
  {
    if |a| > 0 && |b| > 0 && |c| > 0 && a[0] == b[0] && b[0] == c[0] {
      LexLessTransitive(a[1..], b[1..], c[1..]);
    }
  }

  lemma {:induction false} LexLessTotal(a: string, b: string)
    ensures a == b || LexLess(a, b) || LexLess(b, a)
  {
    if |a| > 0 && |b| > 0 && a[0] == b[0] {
      LexLessTotal(a[1..], b[1..]);
      if a[1..] == b[1..] {
        assert a == [a[0]] + a[1..] && b == [b[0]] + b[1..];
      }
    }
  }

  lemma LexLessAsymmetric(a: string, b: string)
    requires LexLess(a, b)
    ensures !LexLess(b, a) && a != b
  {
    if LexLess(b, a) {
      LexLessTransitive(a, b, a);
      LexLessIrreflexive(a);
    }
    LexLessIrreflexive(a);
  }

  /** Ascending (what `sorted` returns). */
  predicate Sorted(s: seq<string>) {
    forall i, j :: 0 <= i < j < |s| ==> !LexLess(s[j], s[i])
  }

  /** Ascending without repetitions (what `sorted(set(...))` returns). */
  predicate StrictlySorted(s: seq<string>) {
    forall i, j :: 0 <= i < j < |s| ==> LexLess(s[i], s[j])
  }

  lemma SortedNoDupIsStrict(s: seq<string>)
    requires Sorted(s) && NoDup(s)
    ensures StrictlySorted(s)
  {
    forall i, j | 0 <= i < j < |s| ensures LexLess(s[i], s[j]) {
      LexLessTotal(s[i], s[j]);
    }
  }

  lemma StrictlySortedNoDup(s: seq<string>)
    requires StrictlySorted(s)
    ensures NoDup(s) && Sorted(s)
  {
    forall i, j | 0 <= i < j < |s| ensures s[i] != s[j] && !LexLess(s[j], s[i]) {
      LexLessAsymmetric(s[i], s[j]);
    }
  }

  /** Two ascending duplicate-free lists with the same elements are equal: `sorted(set)` is well defined. */
  lemma {:induction false} StrictlySortedUnique(a: seq<string>, b: seq<string>)
    requires StrictlySorted(a) && StrictlySorted(b)
    requires forall x :: x in a <==> x in b
    ensures a == b
  {
    if a != [] && b != [] {
      assert a[0] in b && b[0] in a;
      if a[0] != b[0] {
        var i :| 0 <= i < |b| && b[i] == a[0];
        var j :| 0 <= j < |a| && a[j] == b[0];
        assert i > 0 && j > 0;
        LexLessAsymmetric(b[0], a[0]);
        assert false;
      }
      forall x ensures x in a[1..] <==> x in b[1..] {
        if x in a[1..] {
          StrictlySortedNoDup(a);
          assert x != a[0];
        }
        if x in b[1..] {
          StrictlySortedNoDup(b);
          assert x != b[0];
        }
        assert x in a <==> x in b;
      }
      StrictlySortedUnique(a[1..], b[1..]);
      assert a == [a[0]] + a[1..] && b == [b[0]] + b[1..];
    } else if a != [] || b != [] {
      HeadIsElement(a);
      HeadIsElement(b);
      assert false;
    }
  }

  lemma HeadIsElement<T>(s: seq<T>)
    ensures s != [] ==> s[0] in s
  {
  }

  // ---------------------------------------------------------------------
  // sorted(...) over strings
  // ---------------------------------------------------------------------

  /** Insert `x` into the ascending list `s` after every element not greater than it. */
  function Insert(x: string, s: seq<string>): (r: seq<string>)
  {
    if s == [] then [x]
    else if LexLess(x, s[0]) then [x] + s
    else [s[0]] + Insert(x, s[1..])
  }

  lemma {:induction false} InsertMultiset(x: string, s: seq<string>)
    ensures multiset(Insert(x, s)) == multiset(s) + multiset{x}
  {
    if s != [] && !LexLess(x, s[0]) {
      InsertMultiset(x, s[1..]);
      assert s == [s[0]] + s[1..];
    }
  }

  /** Inserting keeps a lower bound that `x` and every element of `s` respect. */
  lemma {:induction false} InsertAbove(x: string, s: seq<string>, b: string)
    requires !LexLess(x, b)
    requires forall k :: 0 <= k < |s| ==> !LexLess(s[k], b)
    ensures forall k :: 0 <= k < |Insert(x, s)| ==> !LexLess(Insert(x, s)[k], b)
  {
    if s != [] && !LexLess(x, s[0]) {
      InsertAbove(x, s[1..], b);
      assert Insert(x, s) == [s[0]] + Insert(x, s[1..]);
    }
  }

  lemma {:induction false} InsertSorted(x: string, s: seq<string>)
    requires Sorted(s)
    ensures Sorted(Insert(x, s))
  {
    if s != [] && !LexLess(x, s[0]) {
      assert Sorted(s[1..]) by {
        forall i, j | 0 <= i < j < |s[1..]| ensures !LexLess(s[1..][j], s[1..][i]) {
          assert s[1..][j] == s[j + 1] && s[1..][i] == s[i + 1];
        }
      }
      InsertSorted(x, s[1..]);
      InsertAbove(x, s[1..], s[0]);
      var r := Insert(x, s[1..]);
      var out := Insert(x, s);
      assert out == [s[0]] + r;
      forall i, j | 0 <= i < j < |out| ensures !LexLess(out[j], out[i]) {
        assert out[j] == r[j - 1];
        if i > 0 { assert out[i] == r[i - 1]; }
      }
    } else if s != [] {
      forall j | 0 <= j < |s| ensures LexLess(x, s[j]) {
        if j > 0 {
          LexLessTotal(s[0], s[j]);
          if LexLess(s[0], s[j]) { LexLessTransitive(x, s[0], s[j]); }
        }
      }
      var out := Insert(x, s);
      assert out == [x] + s;
      forall i, j | 0 <= i < j < |out| ensures !LexLess(out[j], out[i]) {
        assert out[j] == s[j - 1];
        if i > 0 {
          assert out[i] == s[i - 1];
        } else {
          LexLessAsymmetric(x, s[j - 1]);
        }
      }
    }
  }

  /** `sorted(s)` for a list of strings. */
  function SortStrings(s: seq<string>): (r: seq<string>)
    ensures Sorted(r)
    ensures multiset(r) == multiset(s)
  {
    if s == [] then []
    else
      var p := SortStrings(s[..|s| - 1]);
      InsertSorted(s[|s| - 1], p);
      InsertMultiset(s[|s| - 1], p);
      assert s == s[..|s| - 1] + [s[|s| - 1]];
      Insert(s[|s| - 1], p)
  }

  /** `sorted({…})` of the elements of `s`: ascending, each once. */
  function SortedSet(s: seq<string>): (r: seq<string>)
    ensures StrictlySorted(r)
    ensures forall x :: x in r <==> x in s
  {
    var d := FirstSeen(s);
    FirstSeenFacts(s);
    var r := SortStrings(d);
    assert forall x :: x in r <==> x in multiset(r);
    assert forall x :: x in d <==> x in multiset(d);
    MultisetNoDup(d, r);
    SortedNoDupIsStrict(r);
    r
  }

  lemma MultisetNoDup<T>(d: seq<T>, r: seq<T>)
    requires NoDup(d) && multiset(d) == multiset(r)
    ensures NoDup(r)
  {
    forall i, j | 0 <= i < j < |r| ensures r[i] != r[j] {
      if r[i] == r[j] {
        var x := r[i];
        assert multiset(r)[x] >= 2 by {
          assert r == r[..i] + [x] + r[i + 1..j] + [x] + r[j + 1..];
        }
        MultisetOfNoDup(d, x);
      }
    }
  }

  lemma {:induction false} MultisetOfNoDup<T>(d: seq<T>, x: T)
    requires NoDup(d)
    ensures multiset(d)[x] <= 1
  {
    if d != [] {
      var q := d[..|d| - 1];
      assert d == q + [d[|d| - 1]];
      MultisetOfNoDup(q, x);
      if d[|d| - 1] == x {
        assert x !in q;
      }
    }
  }
}
