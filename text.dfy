/**
 * Character classes and the string primitives of Python that the matcher
 * relies on: `str.isspace`, `str.lower`, `str.strip`, `str.split()`,
 * `str.splitlines()`, `re.sub(r"\s+", " ", …)` and literal regex searches
 * guarded by look-around boundaries.
 */
module Text {
  import opened Wrappers
  import opened Seqs

  // ---------------------------------------------------------------------
  // Character classes
  // ---------------------------------------------------------------------

  /** `str.isspace()`; the same set is matched by `\s` in a `str` pattern. */
  predicate IsSpace(c: char) {
    ('\t' <= c <= '\r') || ('\U{1c}' <= c <= ' ') || c == '\U{85}' || c == '\U{a0}'
    || c == '\U{1680}' || ('\U{2000}' <= c <= '\U{200a}') || c == '\U{2028}' || c == '\U{2029}'
    || c == '\U{202f}' || c == '\U{205f}' || c == '\U{3000}'
  }

  /** The line boundaries of `str.splitlines()` (`\r\n` counts as one boundary). */
  predicate IsLineBreak(c: char) {
    ('\n' <= c <= '\r') || ('\U{1c}' <= c <= '\U{1e}') || c == '\U{85}' || c == '\U{2028}' || c == '\U{2029}'
  }

  predicate IsDigit(c: char) { '0' <= c <= '9' }

  predicate IsUpper(c: char) { 'A' <= c <= 'Z' }

  predicate IsLowerLetter(c: char) { 'a' <= c <= 'z' }

  /** `\w` (ASCII letters, digits and underscore). */
  predicate IsWordChar(c: char) { IsLowerLetter(c) || IsUpper(c) || IsDigit(c) || c == '_' }

  /** `[a-z0-9]` under `re.IGNORECASE`. */
  predicate IsAlnum(c: char) { IsLowerLetter(c) || IsUpper(c) || IsDigit(c) }

  // ---------------------------------------------------------------------
  // Lower-casing
  // ---------------------------------------------------------------------

  function LowerChar(c: char): char {
    if IsUpper(c) then (c as int + 32) as char else c
  }

  /** `str.lower()`, one character at a time (so the length is kept). */
  function Lower(s: string): (r: string)
    ensures |r| == |s|
  {
    seq(|s|, i requires 0 <= i < |s| => LowerChar(s[i]))
  }

  lemma LowerCharFacts(c: char)
    ensures LowerChar(LowerChar(c)) == LowerChar(c)
    ensures IsSpace(LowerChar(c)) == IsSpace(c)
    ensures IsWordChar(LowerChar(c)) == IsWordChar(c)
    ensures IsAlnum(LowerChar(c)) == IsAlnum(c)
    ensures !IsUpper(LowerChar(c))
  {
  }

  predicate IsLowercase(s: string) {
    forall i :: 0 <= i < |s| ==> LowerChar(s[i]) == s[i]
  }

  lemma LowerIsLowercase(s: string)
    ensures IsLowercase(Lower(s))
  {
    forall i | 0 <= i < |s| ensures LowerChar(Lower(s)[i]) == Lower(s)[i] {
      LowerCharFacts(s[i]);
    }
  }

  lemma LowercaseFixed(s: string)
    requires IsLowercase(s)
    ensures Lower(s) == s
  {
  }

  lemma LowerSlice(s: string, i: nat, j: nat)
    requires i <= j <= |s|
    ensures Lower(s[i..j]) == Lower(s)[i..j]
  {
  }

  lemma LowerAppend(a: string, b: string)
    ensures Lower(a + b) == Lower(a) + Lower(b)
  {
  }

  /** Every string of `xs`, lowercased. */
  function LowerAll(xs: seq<string>): (r: seq<string>)
    ensures |r| == |xs|
    ensures forall i :: 0 <= i < |xs| ==> r[i] == Lower(xs[i])
  {
    seq(|xs|, i requires 0 <= i < |xs| => Lower(xs[i]))
  }

  /** Lowercasing a list twice is lowercasing it once. */
  lemma LowerAllTwice(xs: seq<string>)
    ensures LowerAll(LowerAll(xs)) == LowerAll(xs)
  {
    forall i | 0 <= i < |xs| ensures Lower(Lower(xs[i])) == Lower(xs[i]) {
      LowerIsLowercase(xs[i]);
      LowercaseFixed(Lower(xs[i]));
    }
  }

  /** A list of lowercase ASCII words is its own lowercasing. */
  lemma LowerAllFixes(xs: seq<string>)
    requires forall i :: 0 <= i < |xs| ==> forall j :: 0 <= j < |xs[i]| ==> 'a' <= xs[i][j] <= 'z'
    ensures LowerAll(xs) == xs
  {
    forall i | 0 <= i < |xs| ensures Lower(xs[i]) == xs[i] {
      LowercaseFixed(xs[i]);
    }
  }

  // ---------------------------------------------------------------------
  // strip
  // ---------------------------------------------------------------------

  /** Number of whitespace characters at the start of `s`. */
  function LeadingSpaces(s: string): (n: nat)
    ensures n <= |s|
    ensures forall i :: 0 <= i < n ==> IsSpace(s[i])
    ensures n < |s| ==> !IsSpace(s[n])
  {
    if |s| > 0 && IsSpace(s[0]) then 1 + LeadingSpaces(s[1..]) else 0
  }

  /** Number of whitespace characters at the end of `s`. */
  function TrailingSpaces(s: string): (n: nat)
    ensures n <= |s|
    ensures forall i :: |s| - n <= i < |s| ==> IsSpace(s[i])
    ensures n < |s| ==> !IsSpace(s[|s| - 1 - n])
  {
    if |s| > 0 && IsSpace(s[|s| - 1]) then 1 + TrailingSpaces(s[..|s| - 1]) else 0
  }

  /** Where `str.strip()` makes its cut at the end. */
  function StripEnd(s: string): (e: nat)
    ensures LeadingSpaces(s) <= e <= |s|
    ensures forall i :: e <= i < |s| ==> IsSpace(s[i])
    ensures LeadingSpaces(s) < |s| ==> LeadingSpaces(s) < e && !IsSpace(s[e - 1])
  {
    if LeadingSpaces(s) == |s| then |s| else |s| - TrailingSpaces(s)
  }

  /** A string with no whitespace at either end: what `str.strip()` returns. */
  predicate IsStripped(s: string) {
    s == [] || (!IsSpace(s[0]) && !IsSpace(s[|s| - 1]))
  }

  /**
   * `str.strip()`: the longest slice of `s` that neither starts nor ends
   * with whitespace; everything cut off on either side is whitespace.
   */
  function Strip(s: string): (r: string)
    ensures IsStripped(r)
    ensures r == s[LeadingSpaces(s)..StripEnd(s)]
  {
    s[LeadingSpaces(s)..StripEnd(s)]
  }

  lemma StripIdentity(s: string)
    requires IsStripped(s)
    ensures Strip(s) == s
  {
  }

  lemma StripIdempotent(s: string)
    ensures Strip(Strip(s)) == Strip(s)
  {
    StripIdentity(Strip(s));
  }

  /** Stripping keeps exactly the empty strings and the all-whitespace ones empty. */
  lemma StripEmpty(s: string)
    ensures Strip(s) == [] <==> forall i :: 0 <= i < |s| ==> IsSpace(s[i])
  {
  }

  // ---------------------------------------------------------------------
  // re.sub(r"\s+", " ", s)
  // ---------------------------------------------------------------------

  /** Every run of whitespace replaced by one space. */
  function CollapseWs(s: string): (r: string)
    ensures |r| <= |s|
    ensures |s| > 0 ==> |r| > 0 && r[0] == (if IsSpace(s[0]) then ' ' else s[0])
    ensures |s| > 0 && !IsSpace(s[|s| - 1]) ==> r[|r| - 1] == s[|s| - 1]
    ensures forall i :: 0 <= i < |r| && IsSpace(r[i]) ==> r[i] == ' '
    ensures forall i :: 0 <= i < |r| - 1 ==> !(r[i] == ' ' && r[i + 1] == ' ')
    ensures forall c :: c in r ==> c in s || c == ' '
    decreases |s|
  {
    if s == [] then []
    else if IsSpace(s[0]) then " " + CollapseWs(s[LeadingSpaces(s)..])
    else [s[0]] + CollapseWs(s[1..])
  }

  /** Length of the run of characters of the class `p` at the start of `s`. */
  function RunLen(s: string, p: char -> bool): (n: nat)
    ensures n <= |s|
    ensures forall i :: 0 <= i < n ==> p(s[i])
    ensures n < |s| ==> !p(s[n])
  {
    if |s| > 0 && p(s[0]) then 1 + RunLen(s[1..], p) else 0
  }

  /**
   * `re.sub(X + "+", " ", s)` for a character class `X`, given as `p`:
   * every maximal run of characters of the class becomes one space.
   */
  function SpaceRuns(s: string, p: char -> bool): string
    decreases |s|
  {
    if s == [] then []
    else if p(s[0]) then " " + SpaceRuns(s[RunLen(s, p)..], p)
    else [s[0]] + SpaceRuns(s[1..], p)
  }

  /** Neither in the class `p` nor a space: the characters a rewrite of runs of `p` leaves alone. */
  function Outside(p: char -> bool): char -> bool {
    c => !p(c) && c != ' '
  }

  lemma {:induction false} RunLenAppend(a: string, b: string, p: char -> bool)
    ensures RunLen(a + b, p) == if RunLen(a, p) < |a| then RunLen(a, p) else |a| + RunLen(b, p)
    decreases |a|
  {
    if a == [] {
      assert a + b == b;
    } else if p(a[0]) {
      assert (a + b)[1..] == a[1..] + b;
      RunLenAppend(a[1..], b, p);
    }
  }

  lemma SpaceRunsStep(s: string, p: char -> bool)
    requires s != []
    ensures SpaceRuns(s, p) ==
      if p(s[0]) then " " + SpaceRuns(s[RunLen(s, p)..], p) else [s[0]] + SpaceRuns(s[1..], p)
  {
  }

  /** Cut anywhere except inside a run, and each side is rewritten on its own. */
  lemma {:induction false} SpaceRunsAppend(a: string, b: string, p: char -> bool)
    requires a == [] || b == [] || !(p(a[|a| - 1]) && p(b[0]))
    ensures SpaceRuns(a + b, p) == SpaceRuns(a, p) + SpaceRuns(b, p)
    decreases |a|, 2
  {
    if a == [] {
      assert a + b == b;
    } else if p(a[0]) {
      SpaceRunsAppendRun(a, b, p);
    } else {
      SpaceRunsAppendChar(a, b, p);
    }
  }

  lemma {:induction false} SpaceRunsAppendRun(a: string, b: string, p: char -> bool)
    requires a != [] && p(a[0])
    requires b == [] || !(p(a[|a| - 1]) && p(b[0]))
    ensures SpaceRuns(a + b, p) == SpaceRuns(a, p) + SpaceRuns(b, p)
    decreases |a|, 1
  {
    if RunLen(a, p) < |a| {
      SpaceRunsAppendInner(a, b, p);
    } else {
      SpaceRunsAppendWhole(a, b, p);
    }
  }

  /** `a` opens with a run that ends inside it. */
  lemma {:induction false} SpaceRunsAppendInner(a: string, b: string, p: char -> bool)
    requires a != [] && p(a[0]) && RunLen(a, p) < |a|
    requires b == [] || !(p(a[|a| - 1]) && p(b[0]))
    ensures SpaceRuns(a + b, p) == SpaceRuns(a, p) + SpaceRuns(b, p)
    decreases |a|, 0
  {
    var m := RunLen(a, p);
    RunLenAppend(a, b, p);
    assert (a + b)[0] == a[0];
    SpaceRunsStep(a + b, p);
    SpaceRunsStep(a, p);
    DropAppend(a, b, m);
    assert a[m..][|a[m..]| - 1] == a[|a| - 1];
    SpaceRunsAppend(a[m..], b, p);
    AppendAssoc(" ", SpaceRuns(a[m..], p), SpaceRuns(b, p));
  }

  /** `a` is one whole run, and `b` does not continue it. */
  lemma {:induction false} SpaceRunsAppendWhole(a: string, b: string, p: char -> bool)
    requires a != [] && p(a[0]) && RunLen(a, p) == |a|
    requires b == [] || !(p(a[|a| - 1]) && p(b[0]))
    ensures SpaceRuns(a + b, p) == SpaceRuns(a, p) + SpaceRuns(b, p)
  {
    assert b == [] || !p(b[0]) by {
      assert p(a[|a| - 1]);
    }
    RunLenNone(b, p);
    RunLenAppend(a, b, p);
    assert (a + b)[0] == a[0];
    SpaceRunsStep(a + b, p);
    DropAppend(a, b, |a|);
    assert a[|a|..] == [];
    assert SpaceRuns(a + b, p) == " " + SpaceRuns(b, p);
    SpaceRunsStep(a, p);
    assert SpaceRuns(a, p) == " ";
  }

  lemma RunLenNone(b: string, p: char -> bool)
    requires b == [] || !p(b[0])
    ensures RunLen(b, p) == 0
  {
  }

  lemma {:induction false} SpaceRunsAppendChar(a: string, b: string, p: char -> bool)
    requires a != [] && !p(a[0])
    requires b == [] || !(p(a[|a| - 1]) && p(b[0]))
    ensures SpaceRuns(a + b, p) == SpaceRuns(a, p) + SpaceRuns(b, p)
    decreases |a|, 0
  {
    assert (a + b)[0] == a[0];
    SpaceRunsStep(a + b, p);
    SpaceRunsStep(a, p);
    DropAppend(a, b, 1);
    assert a[1..] == [] || a[1..][|a[1..]| - 1] == a[|a| - 1];
    SpaceRunsAppend(a[1..], b, p);
    AppendAssoc([a[0]], SpaceRuns(a[1..], p), SpaceRuns(b, p));
  }

  /** A whole run of the class becomes a single space. */
  lemma SpaceRunsOfRun(u: string, p: char -> bool)
    requires u != [] && forall i :: 0 <= i < |u| ==> p(u[i])
    ensures SpaceRuns(u, p) == " "
  {
    assert RunLen(u, p) == |u|;
    assert u[|u|..] == [];
  }

  /** Every character outside the class, other than a space, survives, in order. */
  lemma {:induction false} SpaceRunsKeeps(s: string, p: char -> bool)
    ensures Filter(SpaceRuns(s, p), Outside(p)) == Filter(s, Outside(p))
    decreases |s|, 1
  {
    if s != [] {
      if p(s[0]) {
        SpaceRunsKeepsRun(s, p);
      } else {
        SpaceRunsKeepsChar(s, p);
      }
    }
  }

  lemma {:induction false} SpaceRunsKeepsRun(s: string, p: char -> bool)
    requires s != [] && p(s[0])
    ensures Filter(SpaceRuns(s, p), Outside(p)) == Filter(s, Outside(p))
    decreases |s|, 0
  {
    var q := Outside(p);
    var m := RunLen(s, p);
    SpaceRunsStep(s, p);
    SpaceRunsKeeps(s[m..], p);
    SplitAt(s, m);
    FilterConcat(s[..m], s[m..], q);
    FilterNone(s[..m], q);
    FilterConcat(" ", SpaceRuns(s[m..], p), q);
    FilterNone(" ", q);
  }

  lemma {:induction false} SpaceRunsKeepsChar(s: string, p: char -> bool)
    requires s != [] && !p(s[0])
    ensures Filter(SpaceRuns(s, p), Outside(p)) == Filter(s, Outside(p))
    decreases |s|, 0
  {
    var q := Outside(p);
    SpaceRunsStep(s, p);
    SpaceRunsKeeps(s[1..], p);
    SplitAt(s, 1);
    assert s[..1] == [s[0]];
    FilterConcat([s[0]], s[1..], q);
    FilterConcat([s[0]], SpaceRuns(s[1..], p), q);
  }

  /** Helper: `CollapseWs` is `SpaceRuns` at the whitespace class, so the generic run facts apply to it. */
  lemma {:induction false} CollapseWsRuns(s: string)
    ensures CollapseWs(s) == SpaceRuns(s, IsSpace)
    decreases |s|
  {
    if s != [] {
      if IsSpace(s[0]) {
        assert LeadingSpaces(s) == RunLen(s, IsSpace);
        CollapseWsRuns(s[LeadingSpaces(s)..]);
      } else {
        CollapseWsRuns(s[1..]);
      }
    }
  }

  /** Cut anywhere except inside a whitespace run, and each side collapses on its own. */
  lemma CollapseWsSplits(a: string, b: string)
    requires a == [] || b == [] || !(IsSpace(a[|a| - 1]) && IsSpace(b[0]))
    ensures CollapseWs(a + b) == CollapseWs(a) + CollapseWs(b)
  {
    CollapseWsRuns(a + b);
    CollapseWsRuns(a);
    CollapseWsRuns(b);
    SpaceRunsAppend(a, b, IsSpace);
  }

  /** A whole run of whitespace becomes one space. */
  lemma CollapseWsOfRun(u: string)
    requires u != [] && forall i :: 0 <= i < |u| ==> IsSpace(u[i])
    ensures CollapseWs(u) == " "
  {
    CollapseWsRuns(u);
    SpaceRunsOfRun(u, IsSpace);
  }

  /** Every non-whitespace character survives, in order. */
  lemma CollapseWsKeeps(s: string)
    ensures Filter(CollapseWs(s), Outside(IsSpace)) == Filter(s, Outside(IsSpace))
  {
    CollapseWsRuns(s);
    SpaceRunsKeeps(s, IsSpace);
  }

  /** A string whose only whitespace is single spaces. */
  predicate IsCollapsed(s: string) {
    && (forall i :: 0 <= i < |s| && IsSpace(s[i]) ==> s[i] == ' ')
    && (forall i :: 0 <= i < |s| - 1 ==> !(s[i] == ' ' && s[i + 1] == ' '))
  }

  lemma {:induction false} CollapseWsIdentity(s: string)
    requires IsCollapsed(s)
    ensures CollapseWs(s) == s
    decreases |s|
  {
    if s != [] {
      if IsSpace(s[0]) {
        assert |s| > 1 ==> !IsSpace(s[1]);
        assert LeadingSpaces(s) == 1;
      }
      CollapseWsIdentity(s[1..]);
    }
  }

  lemma CollapseWsStripped(s: string)
    requires IsStripped(s)
    ensures IsStripped(CollapseWs(s))
  {
  }

  lemma {:induction false} CollapseWsLowercase(s: string)
    requires IsLowercase(s)
    ensures IsLowercase(CollapseWs(s))
  {
    var r := CollapseWs(s);
    forall i | 0 <= i < |r| ensures LowerChar(r[i]) == r[i] {
      assert r[i] in r;
      if r[i] != ' ' {
        var k :| 0 <= k < |s| && s[k] == r[i];
      }
    }
  }

  // ---------------------------------------------------------------------
  // _norm (ats_checks.py and evidence.py define it identically)
  // ---------------------------------------------------------------------

  /** `_norm`: trimmed, lowercased, whitespace runs collapsed to one space. */
  function Norm(s: string): string {
    CollapseWs(Lower(Strip(s)))
  }

  /** A normalized string is stripped, lowercase and has only single spaces. */
  lemma NormShape(s: string)
    ensures IsStripped(Norm(s)) && IsLowercase(Norm(s)) && IsCollapsed(Norm(s))
  {
    var t := Strip(s);
    assert IsStripped(Lower(t)) by {
      if t != [] {
        LowerCharFacts(t[0]);
        LowerCharFacts(t[|t| - 1]);
      }
    }
    CollapseWsStripped(Lower(t));
    LowerIsLowercase(t);
    CollapseWsLowercase(Lower(t));
  }

  /** Normalizing twice is normalizing once. */
  lemma NormIdempotent(s: string)
    ensures Norm(Norm(s)) == Norm(s)
  {
    var n := Norm(s);
    NormShape(s);
    StripIdentity(n);
    LowercaseFixed(n);
    CollapseWsIdentity(n);
  }

  /** A blank string (empty or all whitespace) normalizes to the empty string, and nothing else does. */
  lemma NormBlank(s: string)
    ensures Norm(s) == [] <==> forall i :: 0 <= i < |s| ==> IsSpace(s[i])
  {
    StripEmpty(s);
  }

  // ---------------------------------------------------------------------
  // str.split() and str.splitlines()
  // ---------------------------------------------------------------------

  /** Length of the run of non-whitespace characters at the start of `s`. */
  function TokenLen(s: string): (n: nat)
    ensures n <= |s|
    ensures forall i :: 0 <= i < n ==> !IsSpace(s[i])
    ensures n < |s| ==> IsSpace(s[n])
  {
    if |s| > 0 && !IsSpace(s[0]) then 1 + TokenLen(s[1..]) else 0
  }

  /** A non-empty run of non-whitespace characters, all taken from `s`. */
  predicate IsTokenOf(w: string, s: string) {
    w != [] && forall c :: c in w ==> c in s && !IsSpace(c)
  }

  /** `str.split()` with no argument: the maximal runs of non-whitespace. */
  function SplitWs(s: string): (r: seq<string>)
    ensures forall k :: 0 <= k < |r| ==> IsTokenOf(r[k], s)
    decreases |s|
  {
    var t := s[LeadingSpaces(s)..];
    if t == [] then []
    else
      var n := TokenLen(t);
      var rest := SplitWs(t[n..]);
      TokensWiden(rest, t[n..], s);
      assert IsTokenOf(t[..n], s);
      [t[..n]] + rest
  }

  lemma TokensWiden(ws: seq<string>, t: string, s: string)
    requires forall c :: c in t ==> c in s
    requires forall k :: 0 <= k < |ws| ==> IsTokenOf(ws[k], t)
    ensures forall k :: 0 <= k < |ws| ==> IsTokenOf(ws[k], s)
  {
  }

  /** The whitespace before, between and after the tokens of `str.split()`: one more gap than tokens. */
  function Gaps(s: string): seq<string>
    decreases |s|
  {
    var t := s[LeadingSpaces(s)..];
    if t == [] then [s]
    else [s[..LeadingSpaces(s)]] + Gaps(t[TokenLen(t)..])
  }

  /** Every character of `g` is whitespace. */
  predicate AllSpace(g: string) {
    forall i :: 0 <= i < |g| ==> IsSpace(g[i])
  }

  /** One step of `str.split()` and of its gaps, read off the definitions. */
  lemma SplitWsStep(s: string)
    requires s[LeadingSpaces(s)..] != []
    ensures var l := LeadingSpaces(s); var t := s[l..]; var n := TokenLen(t);
      && SplitWs(s) == [t[..n]] + SplitWs(t[n..])
      && Gaps(s) == [s[..l]] + Gaps(t[n..])
  {
  }

  /**
   * `str.split()` cuts `s` at its whitespace runs and nowhere else: put back
   * between the gaps, the tokens give `s` again.
   */
  lemma {:induction false} SplitWsInterleave(s: string)
    ensures |Gaps(s)| == |SplitWs(s)| + 1
    ensures Interleave(Gaps(s), SplitWs(s)) == s
    decreases |s|
  {
    var l := LeadingSpaces(s);
    var t := s[l..];
    if t != [] {
      var n := TokenLen(t);
      SplitWsStep(s);
      SplitWsInterleave(t[n..]);
      InterleaveCons(s[..l], Gaps(t[n..]), t[..n], SplitWs(t[n..]));
      CutTwice(s, l, n);
    }
  }

  /** Every gap is whitespace, and only the outer two may be empty. */
  lemma {:induction false} GapsShape(s: string)
    ensures forall k :: 0 <= k < |Gaps(s)| ==> AllSpace(Gaps(s)[k])
    ensures forall k :: 0 < k < |Gaps(s)| - 1 ==> Gaps(s)[k] != []
    decreases |s|, 1
  {
    if s[LeadingSpaces(s)..] == [] {
      assert Gaps(s) == [s] && AllSpace(s);
    } else {
      GapsShapeStep(s);
    }
  }

  lemma {:induction false} GapsShapeStep(s: string)
    requires s[LeadingSpaces(s)..] != []
    ensures forall k :: 0 <= k < |Gaps(s)| ==> AllSpace(Gaps(s)[k])
    ensures forall k :: 0 < k < |Gaps(s)| - 1 ==> Gaps(s)[k] != []
    decreases |s|, 0
  {
    var l := LeadingSpaces(s);
    var t := s[l..];
    var n := TokenLen(t);
    var rest := t[n..];
    SplitWsStep(s);
    GapsShape(rest);
    if |Gaps(rest)| > 1 {
      GapsFirst(rest);
      assert rest[0] == t[n];
    }
    GapsCons(s[..l], Gaps(rest));
  }

  /** With a token ahead, the first gap is the leading whitespace. */
  lemma GapsFirst(s: string)
    requires |Gaps(s)| > 1
    ensures Gaps(s)[0] == s[..LeadingSpaces(s)]
  {
  }

  lemma GapsCons(g: string, tail: seq<string>)
    requires AllSpace(g)
    requires forall k :: 0 <= k < |tail| ==> AllSpace(tail[k])
    requires forall k :: 0 < k < |tail| - 1 ==> tail[k] != []
    requires |tail| > 1 ==> tail[0] != []
    ensures forall k :: 0 <= k < |[g] + tail| ==> AllSpace(([g] + tail)[k])
    ensures forall k :: 0 < k < |[g] + tail| - 1 ==> ([g] + tail)[k] != []
  {
    forall k | 0 < k < |[g] + tail| ensures ([g] + tail)[k] == tail[k - 1] {
    }
  }

  /** The three facts together: reassembly, whitespace gaps, non-empty inner gaps. */
  lemma SplitWsReassembles(s: string)
    ensures |Gaps(s)| == |SplitWs(s)| + 1
    ensures Interleave(Gaps(s), SplitWs(s)) == s
    ensures forall k :: 0 <= k < |Gaps(s)| ==> AllSpace(Gaps(s)[k])
    ensures forall k :: 0 < k < |Gaps(s)| - 1 ==> Gaps(s)[k] != []
    ensures forall k :: 0 <= k < |SplitWs(s)| ==> IsTokenOf(SplitWs(s)[k], s)
  {
    SplitWsInterleave(s);
    GapsShape(s);
  }

  /** Length of `s` up to its first line boundary. */
  function LineLen(s: string): (n: nat)
    ensures n <= |s|
    ensures forall i :: 0 <= i < n ==> !IsLineBreak(s[i])
    ensures n < |s| ==> IsLineBreak(s[n])
  {
    if |s| > 0 && !IsLineBreak(s[0]) then 1 + LineLen(s[1..]) else 0
  }

  /** Where the terminator after the first line ends: one past it, or two for `\r\n`. */
  function LineNext(s: string): (m: nat)
    requires LineLen(s) < |s|
    ensures LineLen(s) < m <= |s|
  {
    var n := LineLen(s);
    if s[n] == '\r' && n + 1 < |s| && s[n + 1] == '\n' then n + 2 else n + 1
  }

  /** `str.splitlines()`: lines without their terminators, no trailing empty line. */
  function SplitLines(s: string): (r: seq<string>)
    ensures s == [] <==> r == []
    decreases |s|
  {
    if s == [] then []
    else
      var n := LineLen(s);
      if n == |s| then [s]
      else [s[..n]] + SplitLines(s[LineNext(s)..])
  }

  /** The terminator after each line of `str.splitlines()`; the last line may have none. */
  function LineEnds(s: string): seq<string>
    decreases |s|
  {
    if s == [] then []
    else
      var n := LineLen(s);
      if n == |s| then [[]]
      else [s[n..LineNext(s)]] + LineEnds(s[LineNext(s)..])
  }

  /** A line boundary: one line-break character, or `\r\n` taken together. */
  predicate IsTerminator(e: string) {
    (|e| == 1 && IsLineBreak(e[0])) || e == "\r\n"
  }

  /** Each line followed by its terminator. */
  function JoinLines(lines: seq<string>, ends: seq<string>): string
    requires |lines| == |ends|
  {
    if lines == [] then [] else lines[0] + ends[0] + JoinLines(lines[1..], ends[1..])
  }

  lemma JoinLinesCons(line: string, lines: seq<string>, end: string, ends: seq<string>)
    requires |lines| == |ends|
    ensures JoinLines([line] + lines, [end] + ends) == line + end + JoinLines(lines, ends)
  {
    assert ([line] + lines)[1..] == lines;
    assert ([end] + ends)[1..] == ends;
  }

  /** One step of `str.splitlines()` and of its terminators, read off the definitions. */
  lemma SplitLinesStep(s: string)
    requires LineLen(s) < |s|
    ensures SplitLines(s) == [s[..LineLen(s)]] + SplitLines(s[LineNext(s)..])
    ensures LineEnds(s) == [s[LineLen(s)..LineNext(s)]] + LineEnds(s[LineNext(s)..])
  {
  }

  /**
   * `str.splitlines()` cuts `s` after each line boundary and nowhere else:
   * each line followed by its terminator gives `s` again.
   */
  lemma {:induction false} SplitLinesJoin(s: string)
    ensures |LineEnds(s)| == |SplitLines(s)|
    ensures JoinLines(SplitLines(s), LineEnds(s)) == s
    decreases |s|
  {
    if s != [] {
      var n := LineLen(s);
      if n < |s| {
        var m := LineNext(s);
        SplitLinesStep(s);
        SplitLinesJoin(s[m..]);
        JoinLinesCons(s[..n], SplitLines(s[m..]), s[n..m], LineEnds(s[m..]));
        CutAt(s, n, m);
      } else {
        assert JoinLines([s], [[]]) == s + [] + JoinLines([], []);
      }
    }
  }

  /** Every terminator but the last is a line boundary. */
  lemma {:induction false} LineEndsTerminators(s: string)
    ensures forall k :: 0 <= k < |LineEnds(s)| - 1 ==> IsTerminator(LineEnds(s)[k])
    decreases |s|
  {
    if s != [] && LineLen(s) < |s| {
      var m := LineNext(s);
      SplitLinesStep(s);
      LineEndsTerminators(s[m..]);
      var es, tail := LineEnds(s), LineEnds(s[m..]);
      assert IsTerminator(es[0]);
      forall k | 0 < k < |es| - 1 ensures IsTerminator(es[k]) {
        assert es[k] == tail[k - 1];
      }
    }
  }

  /** The last terminator is a line boundary too, or is missing after a non-empty line. */
  lemma {:induction false} LineEndsLast(s: string)
    requires s != []
    ensures |LineEnds(s)| == |SplitLines(s)|
    ensures var last := |LineEnds(s)| - 1;
      IsTerminator(LineEnds(s)[last]) || (LineEnds(s)[last] == [] && SplitLines(s)[last] != [])
    decreases |s|
  {
    SplitLinesJoin(s);
    if LineLen(s) < |s| {
      var m := LineNext(s);
      SplitLinesStep(s);
      var es, ls := LineEnds(s), SplitLines(s);
      if s[m..] == [] {
        assert IsTerminator(es[0]);
      } else {
        LineEndsLast(s[m..]);
        var last := |es| - 1;
        assert es[last] == LineEnds(s[m..])[last - 1];
        assert ls[last] == SplitLines(s[m..])[last - 1];
      }
    }
  }

  /** A `\r` never ends a line when `\n` follows it: `\r\n` is one terminator. */
  lemma {:induction false} LineEndsCrLf(s: string)
    ensures |LineEnds(s)| == |SplitLines(s)|
    ensures forall k :: 0 <= k < |LineEnds(s)| - 1 && LineEnds(s)[k] == "\r" ==>
      SplitLines(s)[k + 1] != [] || LineEnds(s)[k + 1] != "\n"
    decreases |s|
  {
    SplitLinesJoin(s);
    if s != [] && LineLen(s) < |s| {
      var m := LineNext(s);
      var rest := s[m..];
      SplitLinesStep(s);
      LineEndsCrLf(rest);
      SplitLinesJoin(rest);
      var ls, es := SplitLines(s), LineEnds(s);
      var ls', es' := SplitLines(rest), LineEnds(rest);
      forall k | 0 <= k < |es| - 1 && es[k] == "\r" ensures ls[k + 1] != [] || es[k + 1] != "\n" {
        if k == 0 {
          assert rest != [] && rest[0] != '\n';
          if LineLen(rest) == 0 {
            SplitLinesStep(rest);
            assert es'[0][0] == rest[0];
          }
          assert ls[1] == ls'[0] && es[1] == es'[0];
        } else {
          assert ls[k + 1] == ls'[k] && es[k + 1] == es'[k] && es[k] == es'[k - 1];
        }
      }
    }
  }

  /** No character of `line` is a line break. */
  predicate NoBreak(line: string) {
    forall i :: 0 <= i < |line| ==> !IsLineBreak(line[i])
  }

  /** No line of `str.splitlines()` holds a line-break character. */
  lemma {:induction false} SplitLinesNoBreak(s: string)
    ensures forall k :: 0 <= k < |SplitLines(s)| ==> NoBreak(SplitLines(s)[k])
    decreases |s|
  {
    if s != [] && LineLen(s) < |s| {
      var m := LineNext(s);
      SplitLinesStep(s);
      SplitLinesNoBreak(s[m..]);
      var ls, tail := SplitLines(s), SplitLines(s[m..]);
      assert NoBreak(ls[0]);
      forall k | 0 < k < |ls| ensures NoBreak(ls[k]) {
        assert ls[k] == tail[k - 1];
      }
    }
  }

  /** The facts together: reassembly and the shape of the terminators. */
  lemma SplitLinesReassembles(s: string)
    ensures |LineEnds(s)| == |SplitLines(s)|
    ensures JoinLines(SplitLines(s), LineEnds(s)) == s
    ensures forall k :: 0 <= k < |LineEnds(s)| - 1 ==> IsTerminator(LineEnds(s)[k])
    ensures s != [] ==> var last := |LineEnds(s)| - 1;
      IsTerminator(LineEnds(s)[last]) || (LineEnds(s)[last] == [] && SplitLines(s)[last] != [])
    ensures forall k :: 0 <= k < |LineEnds(s)| - 1 && LineEnds(s)[k] == "\r" ==>
      SplitLines(s)[k + 1] != [] || LineEnds(s)[k + 1] != "\n"
    ensures forall k :: 0 <= k < |SplitLines(s)| ==> NoBreak(SplitLines(s)[k])
    ensures s == [] <==> SplitLines(s) == []
  {
    SplitLinesNoBreak(s);
    SplitLinesJoin(s);
    LineEndsTerminators(s);
    if s != [] {
      LineEndsLast(s);
    }
    LineEndsCrLf(s);
  }

  // ---------------------------------------------------------------------
  // Literal searches: (?<!X) + re.escape(w) + (?!X) under re.IGNORECASE
  // ---------------------------------------------------------------------

  /** The class `X` that must not touch a match on either side. */
  datatype Boundary = Word | Alnum

  predicate Inner(b: Boundary, c: char) {
    match b
    case Word => IsWordChar(c)
    case Alnum => IsAlnum(c)
  }

  /** `w` occurs at `i` ignoring case, with no `b`-class character right before or after it. */
  predicate MatchesAt(s: string, i: nat, w: string, b: Boundary) {
    && i + |w| <= |s|
    && Lower(s[i..i + |w|]) == Lower(w)
    && (i == 0 || !Inner(b, s[i - 1]))
    && (i + |w| == |s| || !Inner(b, s[i + |w|]))
  }

  /** The leftmost match of `w` at or after `from` (`re.search`). */
  function FirstMatch(s: string, w: string, b: Boundary, from: nat): (r: Option<nat>)
    ensures r.Some? ==> from <= r.value && MatchesAt(s, r.value, w, b)
    ensures r.Some? ==> forall j :: from <= j < r.value ==> !MatchesAt(s, j, w, b)
    ensures r.None? ==> forall j :: from <= j ==> !MatchesAt(s, j, w, b)
    decreases |s| + 1 - from
  {
    if from > |s| then None
    else if MatchesAt(s, from, w, b) then Some(from)
    else FirstMatch(s, w, b, from + 1)
  }

  /** `re.search(...)` is truthy. */
  predicate Mentions(s: string, w: string, b: Boundary) {
    FirstMatch(s, w, b, 0).Some?
  }

  lemma MentionsIff(s: string, w: string, b: Boundary)
    ensures Mentions(s, w, b) <==> exists i :: MatchesAt(s, i, w, b)
  {
  }

  function MinOption(a: Option<nat>, b: Option<nat>): Option<nat> {
    if a.None? then b
    else if b.None? then a
    else if a.value <= b.value then a else b
  }

  /**
   * The start of the leftmost match of the alternation `(w0|w1|…)`: the
   * least position at which some alternative matches.
   */
  function FirstMatchAny(s: string, ws: seq<string>, b: Boundary): (r: Option<nat>)
    ensures r.Some? ==> exists k :: 0 <= k < |ws| && MatchesAt(s, r.value, ws[k], b)
    ensures r.Some? ==> forall j, k :: 0 <= j < r.value && 0 <= k < |ws| ==> !MatchesAt(s, j, ws[k], b)
    ensures r.None? ==> forall j, k :: 0 <= k < |ws| ==> !MatchesAt(s, j, ws[k], b)
  {
    if ws == [] then None
    else
      var first := FirstMatch(s, ws[0], b, 0);
      var rest := FirstMatchAny(s, ws[1..], b);
      assert forall k :: 1 <= k < |ws| ==> ws[k] == ws[1..][k - 1];
      MinOption(first, rest)
  }

  /** Some alternative of `(w0|w1|…)` occurs in `s`. */
  predicate MentionsAny(s: string, ws: seq<string>, b: Boundary) {
    FirstMatchAny(s, ws, b).Some?
  }

  /**
   * `re.finditer` of a literal pattern: the non-overlapping matches, left to
   * right; after an empty match the scan moves on by one character.
   */
  function FindAll(s: string, w: string, b: Boundary, from: nat): (r: seq<nat>)
    decreases |s| + 1 - from
  {
    if from > |s| then []
    else if MatchesAt(s, from, w, b) then [from] + FindAll(s, w, b, from + (if |w| == 0 then 1 else |w|))
    else FindAll(s, w, b, from + 1)
  }

  /** Every position in `r` is at or after `from` and holds a match of `w`. */
  predicate AllMatch(s: string, r: seq<nat>, w: string, b: Boundary, from: nat) {
    forall k :: 0 <= k < |r| ==> from <= r[k] && MatchesAt(s, r[k], w, b)
  }

  lemma AllMatchCons(s: string, first: nat, rest: seq<nat>, w: string, b: Boundary, from: nat, next: nat)
    requires from <= first && MatchesAt(s, first, w, b)
    requires from <= next && AllMatch(s, rest, w, b, next)
    ensures AllMatch(s, [first] + rest, w, b, from)
  {
    var r := [first] + rest;
    forall k | 0 <= k < |r| ensures from <= r[k] && MatchesAt(s, r[k], w, b) {
      if k > 0 {
        assert r[k] == rest[k - 1];
      }
    }
  }

  /** What `re.finditer` yields are matches, at or after `from`. */
  lemma {:induction false} FindAllMatches(s: string, w: string, b: Boundary, from: nat)
    ensures AllMatch(s, FindAll(s, w, b, from), w, b, from)
    decreases |s| + 1 - from
  {
    if from <= |s| {
      FindAllStep(s, w, b, from);
      var step := if |w| == 0 then 1 else |w|;
      if MatchesAt(s, from, w, b) {
        FindAllMatches(s, w, b, from + step);
        AllMatchCons(s, from, FindAll(s, w, b, from + step), w, b, from, from + step);
      } else {
        FindAllMatches(s, w, b, from + 1);
        assert AllMatch(s, FindAll(s, w, b, from), w, b, from + 1);
      }
    }
  }

  /** Positions that ascend, each at least `len` past the one before. */
  predicate Spaced(r: seq<nat>, len: nat) {
    forall k, l :: 0 <= k < l < |r| ==> r[k] + len <= r[l] && r[k] < r[l]
  }

  lemma SpacedCons(first: nat, rest: seq<nat>, len: nat)
    requires Spaced(rest, len)
    requires forall k :: 0 <= k < |rest| ==> first + len <= rest[k] && first < rest[k]
    ensures Spaced([first] + rest, len)
  {
    var r := [first] + rest;
    forall k, l | 0 <= k < l < |r| ensures r[k] + len <= r[l] && r[k] < r[l] {
      assert r[l] == rest[l - 1];
      if k > 0 {
        assert r[k] == rest[k - 1];
      }
    }
  }

  /** The matches `re.finditer` yields ascend and do not overlap. */
  lemma {:induction false} FindAllOrdered(s: string, w: string, b: Boundary, from: nat)
    ensures Spaced(FindAll(s, w, b, from), |w|)
    decreases |s| + 1 - from
  {
    if from <= |s| {
      FindAllStep(s, w, b, from);
      var step := if |w| == 0 then 1 else |w|;
      if MatchesAt(s, from, w, b) {
        FindAllOrdered(s, w, b, from + step);
        FindAllMatches(s, w, b, from + step);
        SpacedCons(from, FindAll(s, w, b, from + step), |w|);
      } else {
        FindAllOrdered(s, w, b, from + 1);
      }
    }
  }

  /** `re.finditer` yields nothing exactly when `re.search` finds nothing, and otherwise starts at its match. */
  lemma {:induction false} FindAllFirst(s: string, w: string, b: Boundary, from: nat)
    ensures FindAll(s, w, b, from) == [] <==> FirstMatch(s, w, b, from).None?
    ensures FindAll(s, w, b, from) != [] ==> FindAll(s, w, b, from)[0] == FirstMatch(s, w, b, from).value
    decreases |s| + 1 - from
  {
    if from <= |s| {
      FindAllStep(s, w, b, from);
      if !MatchesAt(s, from, w, b) {
        FindAllFirst(s, w, b, from + 1);
      }
    }
  }

  /** `j` is one of the matches found, or lies strictly inside one of them. */
  predicate Covered(r: seq<nat>, j: nat, len: nat) {
    exists k :: 0 <= k < |r| && r[k] <= j && (j == r[k] || j < r[k] + len)
  }

  /** `re.finditer` skips no match: every match at or after `from` is found or overlaps a found one. */
  lemma {:induction false} FindAllComplete(s: string, w: string, b: Boundary, from: nat, j: nat)
    requires from <= j && MatchesAt(s, j, w, b)
    ensures Covered(FindAll(s, w, b, from), j, |w|)
    decreases |s| + 1 - from, 1
  {
    if MatchesAt(s, from, w, b) {
      FindAllCompleteAt(s, w, b, from, j);
    } else {
      FindAllStep(s, w, b, from);
      FindAllComplete(s, w, b, from + 1, j);
    }
  }

  /** A match is found at `from`: `j` is that match, inside it, or further on. */
  lemma {:induction false} FindAllCompleteAt(s: string, w: string, b: Boundary, from: nat, j: nat)
    requires from <= j && MatchesAt(s, j, w, b) && MatchesAt(s, from, w, b)
    ensures Covered(FindAll(s, w, b, from), j, |w|)
    decreases |s| + 1 - from, 0
  {
    var step := if |w| == 0 then 1 else |w|;
    FindAllStep(s, w, b, from);
    var r, rest := FindAll(s, w, b, from), FindAll(s, w, b, from + step);
    assert r == [from] + rest;
    if j >= from + step {
      FindAllComplete(s, w, b, from + step, j);
    }
    CoveredCons(r, from, rest, j, |w|);
  }

  /** One step of the scan, read off the definition. */
  lemma FindAllStep(s: string, w: string, b: Boundary, from: nat)
    requires from <= |s|
    ensures MatchesAt(s, from, w, b) ==>
      FindAll(s, w, b, from) == [from] + FindAll(s, w, b, from + if |w| == 0 then 1 else |w|)
    ensures !MatchesAt(s, from, w, b) ==> FindAll(s, w, b, from) == FindAll(s, w, b, from + 1)
  {
  }

  lemma CoveredCons(r: seq<nat>, first: nat, rest: seq<nat>, j: nat, len: nat)
    requires r == [first] + rest
    requires (first <= j && (j == first || j < first + len)) || Covered(rest, j, len)
    ensures Covered(r, j, len)
  {
    if first <= j && (j == first || j < first + len) {
      assert r[0] == first;
    } else {
      var k :| 0 <= k < |rest| && rest[k] <= j && (j == rest[k] || j < rest[k] + len);
      assert r[k + 1] == rest[k];
    }
  }

  /** Python's `w in s` for strings. */
  predicate IsSubstring(w: string, s: string) {
    exists i :: 0 <= i <= |s| - |w| && OccursAt(w, s, i)
  }

  predicate OccursAt(w: string, s: string, i: nat) {
    i + |w| <= |s| && s[i..i + |w|] == w
  }
}
