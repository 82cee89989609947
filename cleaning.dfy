/**
 * The text normalizer (`clean_text`): a fixed chain of rewrites that turns
 * raw extracted text into the stable form every other component reads.
 *
 *   1. `\r\n`, then any remaining `\r`, become `\n`;
 *   2. the control characters 0x00-0x08, 0x0B, 0x0C, 0x0E-0x1F are dropped;
 *   3. a hyphen and newline between two word characters are dropped;
 *   4. a newline with no newline on either side becomes a space;
 *   5. every run of spaces and tabs becomes one space;
 *   6. every run of three or more newlines becomes exactly two;
 *   7. whitespace is stripped from both ends.
 *
 * Each regex stage is a left-to-right scan, as `re.sub` performs it.
 */
module Cleaning {
  import opened Text
  import opened Seqs

  // ---------------------------------------------------------------------
  // The stages
  // ---------------------------------------------------------------------

  /** The control characters 0x00-0x08, 0x0B, 0x0C and 0x0E-0x1F. */
  predicate IsControl(c: char) {
    c <= '\U{8}' || c == '\U{b}' || c == '\U{c}' || ('\U{e}' <= c <= '\U{1f}')
  }

  /** Every CR LF pair becomes a newline, scanning left to right without overlap. */
  function ReplaceCrLf(s: string): (r: string)
    ensures forall c :: c in r ==> c in s
    decreases |s|
  {
    if s == [] then []
    else if |s| >= 2 && s[0] == '\r' && s[1] == '\n' then "\n" + ReplaceCrLf(s[2..])
    else [s[0]] + ReplaceCrLf(s[1..])
  }

  /** Every remaining carriage return becomes a newline. */
  function ReplaceCr(s: string): (r: string)
    ensures |r| == |s|
    ensures forall c :: c in r ==> c in s || c == '\n'
    ensures '\r' !in r
  {
    seq(|s|, i requires 0 <= i < |s| => if s[i] == '\r' then '\n' else s[i])
  }

  /** Stage 2: every control character other than tab and newline is deleted. */
  function RemoveControl(s: string): (r: string)
    ensures forall c :: c in r ==> c in s && !IsControl(c)
    decreases |s|
  {
    if s == [] then []
    else if IsControl(s[0]) then RemoveControl(s[1..])
    else [s[0]] + RemoveControl(s[1..])
  }

  /** Stage 3: a hyphen and newline between two word characters are removed; a match consumes all four characters. */
  function Dehyphenate(s: string): (r: string)
    decreases |s|
  {
    if s == [] then []
    else if |s| >= 4 && IsWordChar(s[0]) && s[1] == '-' && s[2] == '\n' && IsWordChar(s[3])
    then [s[0], s[3]] + Dehyphenate(s[4..])
    else [s[0]] + Dehyphenate(s[1..])
  }

  /** Number of newlines at the start of `s`. */
  function NewlineRun(s: string): (n: nat)
    ensures n <= |s|
    ensures forall i :: 0 <= i < n ==> s[i] == '\n'
    ensures n < |s| ==> s[n] != '\n'
  {
    if |s| > 0 && s[0] == '\n' then 1 + NewlineRun(s[1..]) else 0
  }

  /**
   * Stage 4: a lone newline becomes a space. A newline has no newline on either
   * side exactly when its maximal run of newlines has length one, so the
   * scan goes run by run.
   */
  function LoneNewlinesToSpaces(s: string): (r: string)
    ensures |r| == |s|
    ensures forall c :: c in r ==> c in s || c == ' '
    ensures |s| > 0 && s[0] != '\n' ==> r[0] == s[0]
    decreases |s|
  {
    if s == [] then []
    else if s[0] == '\n' then
      var k := NewlineRun(s);
      (if k == 1 then " " else s[..k]) + LoneNewlinesToSpaces(s[k..])
    else [s[0]] + LoneNewlinesToSpaces(s[1..])
  }

  /** `[ \t]` */
  predicate IsBlank(c: char) { c == ' ' || c == '\t' }

  /** Number of spaces and tabs at the start of `s`. */
  function BlankRun(s: string): (n: nat)
    ensures n <= |s|
    ensures forall i :: 0 <= i < n ==> IsBlank(s[i])
    ensures n < |s| ==> !IsBlank(s[n])
  {
    if |s| > 0 && IsBlank(s[0]) then 1 + BlankRun(s[1..]) else 0
  }

  /** Every run of spaces and tabs becomes one space. */
  function CollapseBlanks(s: string): (r: string)
    ensures forall c :: c in r ==> (c in s && c != '\t') || c == ' '
    ensures |s| > 0 ==> |r| > 0 && r[0] == (if IsBlank(s[0]) then ' ' else s[0])
    decreases |s|
  {
    if s == [] then []
    else if IsBlank(s[0]) then " " + CollapseBlanks(s[BlankRun(s)..])
    else [s[0]] + CollapseBlanks(s[1..])
  }

  /** Every run of three or more newlines becomes two. */
  function CollapseNewlines(s: string): (r: string)
    ensures |s| > 0 ==> |r| > 0 && r[0] == s[0]
    decreases |s|
  {
    if s == [] then []
    else if s[0] == '\n' then
      var k := NewlineRun(s);
      (if k >= 3 then "\n\n" else s[..k]) + CollapseNewlines(s[k..])
    else [s[0]] + CollapseNewlines(s[1..])
  }

  /** Dehyphenation introduces no new character. */
  lemma {:induction false} DehyphenateChars(s: string)
    ensures forall c :: c in Dehyphenate(s) ==> c in s
    decreases |s|
  {
    if s != [] {
      if |s| >= 4 && IsWordChar(s[0]) && s[1] == '-' && s[2] == '\n' && IsWordChar(s[3]) {
        DehyphenateChars(s[4..]);
        assert Dehyphenate(s) == [s[0], s[3]] + Dehyphenate(s[4..]);
        assert forall c :: c in s[4..] ==> c in s;
      } else {
        DehyphenateChars(s[1..]);
        assert Dehyphenate(s) == [s[0]] + Dehyphenate(s[1..]);
        assert forall c :: c in s[1..] ==> c in s;
      }
    }
  }

  /** Collapsing newline runs introduces no new character. */
  lemma {:induction false} CollapseNewlinesChars(s: string)
    ensures forall c :: c in CollapseNewlines(s) ==> c in s
    decreases |s|
  {
    if s != [] {
      if s[0] == '\n' {
        var k := NewlineRun(s);
        CollapseNewlinesChars(s[k..]);
        var head: string := if k >= 3 then "\n\n" else s[..k];
        assert CollapseNewlines(s) == head + CollapseNewlines(s[k..]);
        assert forall c :: c in head ==> c == '\n' || c in s[..k];
        assert forall c :: c in s[k..] ==> c in s;
        assert forall c :: c in s[..k] ==> c in s;
      } else {
        CollapseNewlinesChars(s[1..]);
        assert CollapseNewlines(s) == [s[0]] + CollapseNewlines(s[1..]);
        assert forall c :: c in s[1..] ==> c in s;
      }
    }
  }

  /** Stages 1-3: line endings, control characters, hyphenated line breaks. */
  function Prepare(text: string): string {
    Dehyphenate(RemoveControl(ReplaceCr(ReplaceCrLf(text))))
  }

  /** Stages 4-6: lone newlines, runs of blanks, runs of newlines. */
  function Reflow(s: string): string {
    CollapseNewlines(CollapseBlanks(LoneNewlinesToSpaces(s)))
  }

  /** `clean_text`: the empty text is returned at once, anything else goes through every stage. */
  function CleanText(text: string): string {
    if text == [] then [] else Strip(Reflow(Prepare(text)))
  }

  // ---------------------------------------------------------------------
  // The shape of the output
  // ---------------------------------------------------------------------

  /**
   * Every maximal run of newlines has length at least two (`exact` false)
   * or exactly two (`exact` true), scanning from the start of `s`.
   */
  predicate NewlineRuns(s: string, exact: bool)
    decreases |s|
  {
    if s == [] then true
    else if s[0] == '\n' then
      var k := NewlineRun(s);
      (if exact then k == 2 else k >= 2) && NewlineRuns(s[k..], exact)
    else NewlineRuns(s[1..], exact)
  }

  /** `j` starts a maximal run of exactly two newlines. */
  predicate PairAt(s: string, j: int) {
    && 0 <= j && j + 1 < |s|
    && s[j] == '\n' && s[j + 1] == '\n'
    && (j == 0 || s[j - 1] != '\n')
    && (j + 2 == |s| || s[j + 2] != '\n')
  }

  /** Every newline of `s` belongs to a run of exactly two: no lone newline, never three. */
  predicate NewlinesPaired(s: string) {
    forall i :: 0 <= i < |s| && s[i] == '\n' ==> PairAt(s, i) || PairAt(s, i - 1)
  }

  predicate NoDoubleSpace(s: string) {
    forall i :: 0 <= i < |s| - 1 ==> !(s[i] == ' ' && s[i + 1] == ' ')
  }

  /** The stable form `clean_text` produces. */
  predicate IsClean(s: string) {
    && '\r' !in s
    && (forall c :: c in s ==> !IsControl(c))
    && '\t' !in s
    && NoDoubleSpace(s)
    && NewlinesPaired(s)
    && IsStripped(s)
  }

  // ---------------------------------------------------------------------
  // Lemmas about newline runs
  // ---------------------------------------------------------------------

  lemma {:induction false} NewlineRunOf(p: string, t: string)
    requires forall i :: 0 <= i < |p| ==> p[i] == '\n'
    requires t == [] || t[0] != '\n'
    ensures NewlineRun(p + t) == |p|
  {
    if p != [] {
      assert (p + t)[1..] == p[1..] + t;
      NewlineRunOf(p[1..], t);
    }
  }

  lemma RunsCons(c: char, t: string, exact: bool)
    requires c != '\n'
    ensures NewlineRuns([c] + t, exact) == NewlineRuns(t, exact)
  {
    assert ([c] + t)[1..] == t;
  }

  lemma RunsPrepend(p: string, t: string, exact: bool)
    requires forall i :: 0 <= i < |p| ==> p[i] == '\n'
    requires if exact then |p| == 2 else |p| >= 2
    requires t == [] || t[0] != '\n'
    requires NewlineRuns(t, exact)
    ensures NewlineRuns(p + t, exact)
  {
    NewlineRunOf(p, t);
    assert (p + t)[|p|..] == t;
  }

  /** Runs are still whole after dropping a prefix that ends before a non-newline. */
  lemma {:induction false} RunsSuffix(s: string, a: nat, exact: bool)
    requires a <= |s| && (a < |s| ==> s[a] != '\n')
    requires NewlineRuns(s, exact)
    ensures NewlineRuns(s[a..], exact)
    decreases a
  {
    if a > 0 {
      if s[0] == '\n' {
        var k := NewlineRun(s);
        assert k <= a;
        assert s[k..][a - k..] == s[a..];
        RunsSuffix(s[k..], a - k, exact);
      } else {
        assert s[1..][a - 1..] == s[a..];
        RunsSuffix(s[1..], a - 1, exact);
      }
    }
  }

  /** Runs are still whole after cutting after a non-newline. */
  lemma {:induction false} RunsPrefix(s: string, e: nat, exact: bool)
    requires e <= |s| && (e > 0 ==> s[e - 1] != '\n')
    requires NewlineRuns(s, exact)
    ensures NewlineRuns(s[..e], exact)
    decreases e
  {
    if e > 0 {
      if s[0] == '\n' {
        var k := NewlineRun(s);
        assert k < e;
        assert s[..e] == s[..k] + s[k..][..e - k];
        NewlineRunOf(s[..k], s[k..][..e - k]);
        RunsPrefix(s[k..], e - k, exact);
        assert s[..e][k..] == s[k..][..e - k];
      } else {
        assert s[..e] == [s[0]] + s[1..][..e - 1];
        RunsPrefix(s[1..], e - 1, exact);
        RunsCons(s[0], s[1..][..e - 1], exact);
      }
    }
  }

  lemma PairShift(p: string, t: string, j: int)
    requires PairAt(t, j)
    requires j == 0 ==> p == [] || p[|p| - 1] != '\n'
    ensures PairAt(p + t, j + |p|)
  {
    var s := p + t;
    assert forall i :: 0 <= i < |t| ==> s[i + |p|] == t[i];
  }

  /** The run structure, read position by position. */
  lemma {:induction false} RunsExactPaired(s: string)
    requires NewlineRuns(s, true)
    ensures NewlinesPaired(s)
    decreases |s|
  {
    if s != [] {
      if s[0] == '\n' {
        var t := s[2..];
        assert s == s[..2] + t;
        RunsExactPaired(t);
        forall i | 0 <= i < |s| && s[i] == '\n' ensures PairAt(s, i) || PairAt(s, i - 1) {
          if i < 2 {
            assert PairAt(s, 0);
          } else {
            assert t[i - 2] == '\n';
            if PairAt(t, i - 2) {
              PairShift(s[..2], t, i - 2);
            } else {
              PairShift(s[..2], t, i - 3);
            }
          }
        }
      } else {
        var t := s[1..];
        assert s == [s[0]] + t;
        RunsExactPaired(t);
        forall i | 0 <= i < |s| && s[i] == '\n' ensures PairAt(s, i) || PairAt(s, i - 1) {
          assert t[i - 1] == '\n';
          if PairAt(t, i - 1) {
            PairShift([s[0]], t, i - 1);
          } else {
            PairShift([s[0]], t, i - 2);
          }
        }
      }
    }
  }

  /** And back: paired newlines are runs of exactly two. */
  lemma {:induction false} PairedRunsExact(s: string)
    requires NewlinesPaired(s)
    ensures NewlineRuns(s, true)
    decreases |s|
  {
    if s != [] {
      if s[0] == '\n' {
        assert PairAt(s, 0) || PairAt(s, 0 - 1);
        var t := s[2..];
        assert s == s[..2] + t;
        NewlineRunOf(s[..2], t);
        forall i | 0 <= i < |t| && t[i] == '\n' ensures PairAt(t, i) || PairAt(t, i - 1) {
          assert s[i + 2] == '\n';
          assert PairAt(s, i + 2) || PairAt(s, i + 1);
        }
        PairedRunsExact(t);
      } else {
        var t := s[1..];
        forall i | 0 <= i < |t| && t[i] == '\n' ensures PairAt(t, i) || PairAt(t, i - 1) {
          assert s[i + 1] == '\n';
          assert PairAt(s, i + 1) || PairAt(s, i);
        }
        PairedRunsExact(t);
      }
    }
  }

  // ---------------------------------------------------------------------
  // Each stage, on its own
  // ---------------------------------------------------------------------

  lemma {:induction false} LoneNewlinesRuns(s: string)
    ensures NewlineRuns(LoneNewlinesToSpaces(s), false)
    decreases |s|
  {
    if s != [] {
      if s[0] == '\n' {
        var k := NewlineRun(s);
        var rest := LoneNewlinesToSpaces(s[k..]);
        LoneNewlinesRuns(s[k..]);
        if k == 1 {
          RunsCons(' ', rest, false);
        } else {
          RunsPrepend(s[..k], rest, false);
        }
      } else {
        LoneNewlinesRuns(s[1..]);
        RunsCons(s[0], LoneNewlinesToSpaces(s[1..]), false);
      }
    }
  }

  lemma {:induction false} CollapseBlanksAfterNewlines(p: string, t: string)
    requires forall i :: 0 <= i < |p| ==> p[i] == '\n'
    ensures CollapseBlanks(p + t) == p + CollapseBlanks(t)
  {
    if p != [] {
      var s := p + t;
      assert s[0] == '\n' && !IsBlank(s[0]);
      assert CollapseBlanks(s) == [s[0]] + CollapseBlanks(s[1..]);
      assert s[1..] == p[1..] + t;
      CollapseBlanksAfterNewlines(p[1..], t);
      assert s[0] == p[0];
      assert [p[0]] + (p[1..] + CollapseBlanks(t)) == p + CollapseBlanks(t);
    } else {
      assert p + t == t;
    }
  }

  lemma {:induction false} RunsSkip(s: string, j: nat, exact: bool)
    requires j <= |s| && forall i :: 0 <= i < j ==> s[i] != '\n'
    requires NewlineRuns(s, exact)
    ensures NewlineRuns(s[j..], exact)
  {
    if j > 0 {
      RunsSkip(s[1..], j - 1, exact);
      assert s[1..][j - 1..] == s[j..];
    }
  }

  lemma {:induction false} CollapseBlanksKeepsRuns(s: string, exact: bool)
    requires NewlineRuns(s, exact)
    ensures NewlineRuns(CollapseBlanks(s), exact)
    decreases |s|
  {
    if s != [] {
      if s[0] == '\n' {
        var k := NewlineRun(s);
        assert s == s[..k] + s[k..];
        CollapseBlanksAfterNewlines(s[..k], s[k..]);
        CollapseBlanksKeepsRuns(s[k..], exact);
        RunsPrepend(s[..k], CollapseBlanks(s[k..]), exact);
      } else if IsBlank(s[0]) {
        var j := BlankRun(s);
        RunsSkip(s, j, exact);
        CollapseBlanksKeepsRuns(s[j..], exact);
        RunsCons(' ', CollapseBlanks(s[j..]), exact);
      } else {
        CollapseBlanksKeepsRuns(s[1..], exact);
        RunsCons(s[0], CollapseBlanks(s[1..]), exact);
      }
    }
  }

  lemma NoDoubleSpaceConcat(a: string, b: string)
    requires NoDoubleSpace(a) && NoDoubleSpace(b)
    requires a == [] || b == [] || !(a[|a| - 1] == ' ' && b[0] == ' ')
    ensures NoDoubleSpace(a + b)
  {
    var s := a + b;
    forall i | 0 <= i < |s| - 1 ensures !(s[i] == ' ' && s[i + 1] == ' ') {
      if i + 1 < |a| {
        assert s[i] == a[i] && s[i + 1] == a[i + 1];
      } else if i >= |a| {
        assert s[i] == b[i - |a|] && s[i + 1] == b[i - |a| + 1];
      }
    }
  }

  lemma {:induction false} CollapseBlanksSpacing(s: string)
    ensures NoDoubleSpace(CollapseBlanks(s))
    decreases |s|
  {
    if s != [] {
      if IsBlank(s[0]) {
        var j := BlankRun(s);
        CollapseBlanksSpacing(s[j..]);
        NoDoubleSpaceConcat(" ", CollapseBlanks(s[j..]));
      } else {
        CollapseBlanksSpacing(s[1..]);
        NoDoubleSpaceConcat([s[0]], CollapseBlanks(s[1..]));
      }
    }
  }

  lemma {:induction false} CollapseNewlinesShape(s: string)
    requires NewlineRuns(s, false)
    requires NoDoubleSpace(s)
    ensures NewlineRuns(CollapseNewlines(s), true)
    ensures NoDoubleSpace(CollapseNewlines(s))
    decreases |s|
  {
    if s != [] {
      var r := CollapseNewlines(s);
      if s[0] == '\n' {
        var k := NewlineRun(s);
        var p: string := if k >= 3 then "\n\n" else s[..k];
        var t := s[k..];
        assert NoDoubleSpace(t) by {
          forall i | 0 <= i < |t| - 1 ensures !(t[i] == ' ' && t[i + 1] == ' ') {
            assert t[i] == s[i + k] && t[i + 1] == s[i + k + 1];
          }
        }
        CollapseNewlinesShape(t);
        RunsPrepend(p, CollapseNewlines(t), true);
        NoDoubleSpaceConcat(p, CollapseNewlines(t));
      } else {
        var t := s[1..];
        RunsCons(s[0], t, false);
        CollapseNewlinesShape(t);
        RunsCons(s[0], CollapseNewlines(t), true);
        NoDoubleSpaceConcat([s[0]], CollapseNewlines(t));
      }
    }
  }

  lemma StripKeepsShape(s: string)
    requires NewlineRuns(s, true) && NoDoubleSpace(s)
    ensures NewlineRuns(Strip(s), true) && NoDoubleSpace(Strip(s))
  {
    var a, e := LeadingSpaces(s), StripEnd(s);
    if a < e {
      RunsSuffix(s, a, true);
      RunsPrefix(s[a..], e - a, true);
      assert s[a..][..e - a] == s[a..e];
    }
  }

  // ---------------------------------------------------------------------
  // What clean_text promises
  // ---------------------------------------------------------------------

  /** Stages 1-3 leave no carriage return and no control character. */
  lemma PrepareCharacters(text: string)
    ensures forall c :: c in Prepare(text) ==> c != '\r' && !IsControl(c)
  {
    var t1 := ReplaceCr(ReplaceCrLf(text));
    var t2 := RemoveControl(t1);
    DehyphenateChars(t2);
  }

  lemma ReflowShape(s: string)
    requires forall c :: c in s ==> c != '\r' && !IsControl(c)
    ensures forall c :: c in Reflow(s) ==> c != '\r' && c != '\t' && !IsControl(c)
    ensures NewlineRuns(Reflow(s), true) && NoDoubleSpace(Reflow(s))
  {
    var t4 := LoneNewlinesToSpaces(s);
    var t5 := CollapseBlanks(t4);
    LoneNewlinesRuns(s);
    CollapseBlanksKeepsRuns(t4, false);
    CollapseBlanksSpacing(t4);
    CollapseNewlinesShape(t5);
    CollapseNewlinesChars(t5);
    assert forall c :: c in t4 ==> c != '\r' && !IsControl(c);
    assert forall c :: c in t5 ==> c != '\r' && c != '\t' && !IsControl(c);
  }

  lemma StripCharacters(s: string)
    ensures forall c :: c in Strip(s) ==> c in s
  {
    var a, e := LeadingSpaces(s), StripEnd(s);
    forall c | c in Strip(s) ensures c in s {
      var i :| 0 <= i < |Strip(s)| && Strip(s)[i] == c;
      assert s[a + i] == c;
    }
  }

  /**
   * The output of `clean_text` is in the stable form: no carriage return,
   * no control character, no tab, no two spaces in a row, every newline in
   * a run of exactly two, nothing to strip at either end.
   */
  lemma CleanTextIsClean(text: string)
    ensures IsClean(CleanText(text))
  {
    if text != [] {
      var t := Reflow(Prepare(text));
      PrepareCharacters(text);
      ReflowShape(Prepare(text));
      StripKeepsShape(t);
      StripCharacters(t);
      RunsExactPaired(Strip(t));
    }
  }

  // ---------------------------------------------------------------------
  // Stage 1: line endings
  // ---------------------------------------------------------------------

  /** `\r\n` at `i`. */
  predicate CrLfAt(s: string, i: nat) {
    i + 1 < |s| && s[i] == '\r' && s[i + 1] == '\n'
  }

  /** Cut anywhere except between the two characters of a `\r\n`, and each side is rewritten on its own. */
  lemma {:induction false} ReplaceCrLfAppend(a: string, b: string)
    requires a == [] || b == [] || !(a[|a| - 1] == '\r' && b[0] == '\n')
    ensures ReplaceCrLf(a + b) == ReplaceCrLf(a) + ReplaceCrLf(b)
    decreases |a|
  {
    var s := a + b;
    if a == [] {
      assert s == b;
      assert ReplaceCrLf(a) == [];
    } else {
      assert s[0] == a[0];
      if CrLfAt(a, 0) {
        assert CrLfAt(s, 0) && s[1] == a[1];
        DropAppend(a, b, 2);
        ReplaceCrLfAppend(a[2..], b);
        ReplaceCrLfStep(a);
        ReplaceCrLfStep(s);
        AppendAssoc("\n", ReplaceCrLf(a[2..]), ReplaceCrLf(b));
      } else {
        assert !CrLfAt(s, 0) by {
          if |a| == 1 {
            assert a[|a| - 1] == a[0];
          } else {
            assert s[1] == a[1];
          }
        }
        DropAppend(a, b, 1);
        ReplaceCrLfAppend(a[1..], b);
        ReplaceCrLfStep(a);
        ReplaceCrLfStep(s);
        AppendAssoc([a[0]], ReplaceCrLf(a[1..]), ReplaceCrLf(b));
      }
    }
  }

  /** One step of the scan, read off the definition. */
  lemma ReplaceCrLfStep(s: string)
    requires s != []
    ensures CrLfAt(s, 0) ==> ReplaceCrLf(s) == "\n" + ReplaceCrLf(s[2..])
    ensures !CrLfAt(s, 0) ==> ReplaceCrLf(s) == [s[0]] + ReplaceCrLf(s[1..])
  {
  }

  /** Text with no `\r\n` in it passes through the first rewrite unchanged. */
  lemma {:induction false} ReplaceCrLfNoPair(s: string)
    requires forall i :: 0 <= i ==> !CrLfAt(s, i)
    ensures ReplaceCrLf(s) == s
    decreases |s|
  {
    if s != [] {
      assert !CrLfAt(s, 0);
      forall i | 0 <= i ensures !CrLfAt(s[1..], i) {
        assert !CrLfAt(s, i + 1);
      }
      ReplaceCrLfNoPair(s[1..]);
    }
  }

  /** The second rewrite works character by character, so it splits anywhere. */
  lemma ReplaceCrAppend(a: string, b: string)
    ensures ReplaceCr(a + b) == ReplaceCr(a) + ReplaceCr(b)
  {
  }

  /** Both line-ending rewrites in turn. */
  function LineEndings(s: string): string {
    ReplaceCr(ReplaceCrLf(s))
  }

  lemma CrLfSplits(p: string, q: string)
    ensures ReplaceCrLf(p + "\r\n" + q) == ReplaceCrLf(p) + "\n" + ReplaceCrLf(q)
  {
    var m := "\r\n" + q;
    assert p + "\r\n" + q == p + m;
    ReplaceCrLfAppend(p, m);
    assert m[2..] == q;
    assert ReplaceCrLf(m) == "\n" + ReplaceCrLf(q);
  }

  lemma LoneCrSplits(p: string, q: string)
    requires q == [] || q[0] != '\n'
    ensures ReplaceCrLf(p + "\r" + q) == ReplaceCrLf(p) + "\r" + ReplaceCrLf(q)
  {
    var m := "\r" + q;
    assert p + "\r" + q == p + m;
    ReplaceCrLfAppend(p, m);
    assert m[1..] == q;
    assert ReplaceCrLf(m) == "\r" + ReplaceCrLf(q);
  }

  lemma ReplaceCrAround(a: string, c: char, b: string)
    requires c == '\r' || c == '\n'
    ensures ReplaceCr(a + [c] + b) == ReplaceCr(a) + "\n" + ReplaceCr(b)
  {
    ReplaceCrAppend(a + [c], b);
    ReplaceCrAppend(a, [c]);
  }

  /**
   * Carriage returns never survive: a `\r\n` and a lone `\r` (one with no
   * `\n` after it) each become one `\n`, wherever they stand, and the text
   * on either side is rewritten on its own; text with no `\r` is unchanged.
   */
  lemma CarriageReturnsBecomeNewlines(p: string, q: string)
    ensures LineEndings(p + "\r\n" + q) == LineEndings(p) + "\n" + LineEndings(q)
    ensures q == [] || q[0] != '\n' ==> LineEndings(p + "\r" + q) == LineEndings(p) + "\n" + LineEndings(q)
    ensures '\r' !in p ==> LineEndings(p) == p
  {
    CrLfSplits(p, q);
    ReplaceCrAround(ReplaceCrLf(p), '\n', ReplaceCrLf(q));
    if q == [] || q[0] != '\n' {
      LoneCrSplits(p, q);
      ReplaceCrAround(ReplaceCrLf(p), '\r', ReplaceCrLf(q));
    }
    if '\r' !in p {
      ReplaceCrLfFixes(p);
      ReplaceCrFixes(p);
    }
  }

  // ---------------------------------------------------------------------
  // Stage 2: control characters
  // ---------------------------------------------------------------------

  predicate NotControl(c: char) { !IsControl(c) }

  /** Deleting the control characters keeps every other character, in order. */
  lemma {:induction false} RemoveControlFilters(s: string)
    ensures RemoveControl(s) == Filter(s, NotControl)
    decreases |s|
  {
    if s != [] {
      RemoveControlFilters(s[1..]);
      assert s == [s[0]] + s[1..];
      FilterConcat([s[0]], s[1..], NotControl);
      FilterAppend([], s[0], NotControl);
      assert [] + [s[0]] == [s[0]];
    }
  }

  // ---------------------------------------------------------------------
  // Stage 3: hyphenated line breaks
  // ---------------------------------------------------------------------

  lemma HyphenBreakShift(s: string, d: nat, i: nat)
    requires d <= |s|
    ensures HyphenBreakAt(s[d..], i) == HyphenBreakAt(s, i + d)
  {
    if i + d + 4 <= |s| {
      assert s[d..][i] == s[i + d] && s[d..][i + 1] == s[i + d + 1];
      assert s[d..][i + 2] == s[i + d + 2] && s[d..][i + 3] == s[i + d + 3];
    }
  }

  /** One step of the scan, read off the definition. */
  lemma DehyphenateStep(s: string)
    requires s != []
    ensures HyphenBreakAt(s, 0) ==> Dehyphenate(s) == [s[0], s[3]] + Dehyphenate(s[4..])
    ensures !HyphenBreakAt(s, 0) ==> Dehyphenate(s) == [s[0]] + Dehyphenate(s[1..])
  {
  }

  /** No hyphenated break starts in the last three characters of `a` and runs on into `b`. */
  predicate NoBreakAcross(a: string, b: string) {
    forall i :: |a| - 3 <= i < |a| && 0 <= i ==> !HyphenBreakAt(a + b, i)
  }

  lemma NoBreakAcrossTail(a: string, b: string, d: nat)
    requires d <= |a| && NoBreakAcross(a, b)
    ensures NoBreakAcross(a[d..], b)
  {
    assert (a + b)[d..] == a[d..] + b;
    forall i | |a[d..]| - 3 <= i < |a[d..]| && 0 <= i ensures !HyphenBreakAt(a[d..] + b, i) {
      HyphenBreakShift(a + b, d, i);
    }
  }

  /** Cut anywhere no hyphenated break straddles, and each side is rewritten on its own. */
  lemma {:induction false} DehyphenateAppend(a: string, b: string)
    requires NoBreakAcross(a, b)
    ensures Dehyphenate(a + b) == Dehyphenate(a) + Dehyphenate(b)
    decreases |a|
  {
    var s := a + b;
    if a == [] {
      assert s == b;
      assert Dehyphenate(a) == [];
    } else if HyphenBreakAt(a, 0) {
      assert s[0] == a[0] && s[1] == a[1] && s[2] == a[2] && s[3] == a[3];
      DropAppend(a, b, 4);
      NoBreakAcrossTail(a, b, 4);
      DehyphenateAppend(a[4..], b);
      DehyphenateStep(s);
      DehyphenateStep(a);
      AppendAssoc([a[0], a[3]], Dehyphenate(a[4..]), Dehyphenate(b));
    } else {
      assert !HyphenBreakAt(s, 0) by {
        if |a| >= 4 {
          assert s[0] == a[0] && s[1] == a[1] && s[2] == a[2] && s[3] == a[3];
        }
      }
      DropAppend(a, b, 1);
      NoBreakAcrossTail(a, b, 1);
      DehyphenateAppend(a[1..], b);
      DehyphenateStep(s);
      DehyphenateStep(a);
      AppendAssoc([a[0]], Dehyphenate(a[1..]), Dehyphenate(b));
    }
  }

  /** A hyphenated break at the very start is joined first. */
  lemma DehyphenateAtBreak(x: char, y: char, q: string)
    requires IsWordChar(x) && IsWordChar(y)
    ensures Dehyphenate([x, '-', '\n', y] + q) == [x, y] + Dehyphenate(q)
  {
    var m := [x, '-', '\n', y] + q;
    assert HyphenBreakAt(m, 0);
    DehyphenateStep(m);
    assert m[4..] == q;
  }

  /** Text that does not end in a hyphenated break leaves none across the cut before `x`. */
  lemma NoBreakBefore(p: string, x: char, q: string)
    requires IsWordChar(x)
    requires !(|p| >= 3 && IsWordChar(p[|p| - 3]) && p[|p| - 2] == '-' && p[|p| - 1] == '\n')
    ensures NoBreakAcross(p, [x, '-'] + q)
  {
    var s := p + ([x, '-'] + q);
    forall i | |p| - 3 <= i < |p| && 0 <= i ensures !HyphenBreakAt(s, i) {
      if i == |p| - 1 {
        assert s[i + 1] == x;
      } else if i == |p| - 2 {
        assert s[i + 2] == x;
      } else {
        assert s[i] == p[|p| - 3] && s[i + 1] == p[|p| - 2] && s[i + 2] == p[|p| - 1];
      }
    }
  }

  /**
   * A word character, `-`, newline, word character, wherever it stands:
   * the hyphen and the newline go and the text on either side is rewritten
   * on its own, unless the text before ends in a hyphenated break of its own
   * that the left-to-right scan takes first.
   */
  lemma DehyphenateJoins(p: string, x: char, y: char, q: string)
    requires IsWordChar(x) && IsWordChar(y)
    requires !(|p| >= 3 && IsWordChar(p[|p| - 3]) && p[|p| - 2] == '-' && p[|p| - 1] == '\n')
    ensures Dehyphenate(p + [x, '-', '\n', y] + q) == Dehyphenate(p) + [x, y] + Dehyphenate(q)
  {
    var m := [x, '-', '\n', y] + q;
    assert p + [x, '-', '\n', y] + q == p + m;
    assert m == [x, '-'] + (['\n', y] + q);
    NoBreakBefore(p, x, ['\n', y] + q);
    DehyphenateAppend(p, m);
    DehyphenateAtBreak(x, y, q);
    AppendAssoc(Dehyphenate(p), [x, y], Dehyphenate(q));
  }

  // ---------------------------------------------------------------------
  // Stage 5: runs of spaces and tabs
  // ---------------------------------------------------------------------

  /** Helper: stage 5 is `SpaceRuns` at the class `[ \t]`, so the generic run facts apply to it. */
  lemma {:induction false} CollapseBlanksRuns(s: string)
    ensures CollapseBlanks(s) == SpaceRuns(s, IsBlank)
    decreases |s|
  {
    if s != [] {
      if IsBlank(s[0]) {
        assert BlankRun(s) == RunLen(s, IsBlank);
        CollapseBlanksRuns(s[BlankRun(s)..]);
      } else {
        CollapseBlanksRuns(s[1..]);
      }
    }
  }

  /** Cut anywhere except inside a run of blanks, and each side collapses on its own. */
  lemma CollapseBlanksSplits(a: string, b: string)
    requires a == [] || b == [] || !(IsBlank(a[|a| - 1]) && IsBlank(b[0]))
    ensures CollapseBlanks(a + b) == CollapseBlanks(a) + CollapseBlanks(b)
  {
    CollapseBlanksRuns(a + b);
    CollapseBlanksRuns(a);
    CollapseBlanksRuns(b);
    SpaceRunsAppend(a, b, IsBlank);
  }

  /** A whole run of spaces and tabs becomes one space. */
  lemma CollapseBlanksOfRun(u: string)
    requires u != [] && forall i :: 0 <= i < |u| ==> IsBlank(u[i])
    ensures CollapseBlanks(u) == " "
  {
    CollapseBlanksRuns(u);
    SpaceRunsOfRun(u, IsBlank);
  }

  /** Every character other than a space or a tab survives, in order. */
  lemma CollapseBlanksKeeps(s: string)
    ensures Filter(CollapseBlanks(s), Outside(IsBlank)) == Filter(s, Outside(IsBlank))
  {
    CollapseBlanksRuns(s);
    SpaceRunsKeeps(s, IsBlank);
  }

  // ---------------------------------------------------------------------
  // Stage 6: runs of newlines
  // ---------------------------------------------------------------------

  predicate IsNewline(c: char) { c == '\n' }

  predicate NotNewline(c: char) { c != '\n' }

  /** What stage 6 writes for a whole run of `k` newlines. */
  function NewlinesFor(k: nat): string {
    if k >= 3 then "\n\n" else seq(k, _ => '\n')
  }

  lemma NewlinesForNewlines(k: nat)
    ensures forall i :: 0 <= i < |NewlinesFor(k)| ==> !NotNewline(NewlinesFor(k)[i])
  {
  }

  lemma NewlineRunIsRunLen(s: string)
    ensures NewlineRun(s) == RunLen(s, IsNewline)
  {
  }

  lemma CollapseNewlinesHead(s: string)
    requires s != [] && s[0] == '\n'
    ensures CollapseNewlines(s) == NewlinesFor(NewlineRun(s)) + CollapseNewlines(s[NewlineRun(s)..])
  {
    var k := NewlineRun(s);
    assert k < 3 ==> s[..k] == seq(k, _ => '\n');
  }

  lemma NewlineRunAppend(a: string, b: string)
    ensures NewlineRun(a + b) == if NewlineRun(a) < |a| then NewlineRun(a) else |a| + NewlineRun(b)
  {
    NewlineRunIsRunLen(a);
    NewlineRunIsRunLen(b);
    NewlineRunIsRunLen(a + b);
    RunLenAppend(a, b, IsNewline);
  }

  lemma CollapseNewlinesOther(s: string)
    requires s != [] && s[0] != '\n'
    ensures CollapseNewlines(s) == [s[0]] + CollapseNewlines(s[1..])
  {
  }

  /** The step of `CollapseNewlinesAppend` when `a` starts with a run of newlines that ends inside `a`. */
  lemma AppendAfterRun(a: string, b: string)
    requires a != [] && a[0] == '\n' && NewlineRun(a) < |a|
    requires CollapseNewlines(a[NewlineRun(a)..] + b) == CollapseNewlines(a[NewlineRun(a)..]) + CollapseNewlines(b)
    ensures CollapseNewlines(a + b) == CollapseNewlines(a) + CollapseNewlines(b)
  {
    var s, m := a + b, NewlineRun(a);
    DropAppend(a, b, m);
    NewlineRunAppend(a, b);
    assert s[0] == a[0];
    CollapseNewlinesHead(a);
    CollapseNewlinesHead(s);
    AppendAssoc(NewlinesFor(m), CollapseNewlines(a[m..]), CollapseNewlines(b));
  }

  /** The step of `CollapseNewlinesAppend` when `a` is all newlines and `b` does not start with one. */
  lemma AppendAfterWholeRun(a: string, b: string)
    requires a != [] && NewlineRun(a) == |a|
    requires b == [] || b[0] != '\n'
    ensures CollapseNewlines(a + b) == CollapseNewlines(a) + CollapseNewlines(b)
  {
    var s := a + b;
    DropAppend(a, b, |a|);
    assert b == [] || NewlineRun(b) == 0;
    NewlineRunAppend(a, b);
    assert s[0] == a[0];
    CollapseNewlinesHead(a);
    CollapseNewlinesHead(s);
    var h := NewlinesFor(|a|);
    assert CollapseNewlines(a) == h + CollapseNewlines([]);
    assert CollapseNewlines(s) == h + CollapseNewlines(b);
    assert CollapseNewlines([]) == [];
    assert h + [] == h;
  }

  /** The step of `CollapseNewlinesAppend` when `a` starts with another character. */
  lemma AppendAfterOther(a: string, b: string)
    requires a != [] && a[0] != '\n'
    requires CollapseNewlines(a[1..] + b) == CollapseNewlines(a[1..]) + CollapseNewlines(b)
    ensures CollapseNewlines(a + b) == CollapseNewlines(a) + CollapseNewlines(b)
  {
    var s := a + b;
    assert s[0] == a[0] && s[1..] == a[1..] + b;
    CollapseNewlinesOther(a);
    CollapseNewlinesOther(s);
    AppendAssoc([a[0]], CollapseNewlines(a[1..]), CollapseNewlines(b));
  }

  /** Cut anywhere except inside a run of newlines, and each side collapses on its own. */
  lemma {:induction false} CollapseNewlinesAppend(a: string, b: string)
    requires a == [] || b == [] || !(a[|a| - 1] == '\n' && b[0] == '\n')
    ensures CollapseNewlines(a + b) == CollapseNewlines(a) + CollapseNewlines(b)
    decreases |a|
  {
    if a == [] {
      assert a + b == b;
      assert CollapseNewlines(a) == [];
    } else if a[0] == '\n' {
      var m := NewlineRun(a);
      if m < |a| {
        CollapseNewlinesAppend(a[m..], b);
        AppendAfterRun(a, b);
      } else {
        AppendAfterWholeRun(a, b);
      }
    } else {
      CollapseNewlinesAppend(a[1..], b);
      AppendAfterOther(a, b);
    }
  }

  /** A whole run of `k` newlines becomes two when `k` is at least three, and stays as it is otherwise. */
  lemma CollapseNewlinesOfRun(u: string)
    requires u != [] && forall i :: 0 <= i < |u| ==> u[i] == '\n'
    ensures CollapseNewlines(u) == if |u| >= 3 then "\n\n" else u
  {
    NewlineRunIsRunLen(u);
    assert NewlineRun(u) == |u|;
    CollapseNewlinesHead(u);
    assert u[|u|..] == [];
    assert |u| < 3 ==> u == seq(|u|, _ => '\n');
  }

  /** The step of `CollapseNewlinesKeeps` over a leading run of newlines. */
  lemma KeepsAfterRun(s: string)
    requires s != [] && s[0] == '\n'
    requires Filter(CollapseNewlines(s[NewlineRun(s)..]), NotNewline) == Filter(s[NewlineRun(s)..], NotNewline)
    ensures Filter(CollapseNewlines(s), NotNewline) == Filter(s, NotNewline)
  {
    var m := NewlineRun(s);
    var h := NewlinesFor(m);
    CollapseNewlinesHead(s);
    SplitAt(s, m);
    FilterSkip(s[..m], s[m..], NotNewline);
    NewlinesForNewlines(m);
    FilterSkip(h, CollapseNewlines(s[m..]), NotNewline);
  }

  /** Every character other than a newline survives, in order. */
  lemma {:induction false} CollapseNewlinesKeeps(s: string)
    ensures Filter(CollapseNewlines(s), NotNewline) == Filter(s, NotNewline)
    decreases |s|
  {
    if s != [] {
      if s[0] == '\n' {
        var m := NewlineRun(s);
        CollapseNewlinesKeeps(s[m..]);
        KeepsAfterRun(s);
      } else {
        CollapseNewlinesKeeps(s[1..]);
        CollapseNewlinesOther(s);
        assert s == [s[0]] + s[1..];
        FilterConcat([s[0]], s[1..], NotNewline);
        FilterConcat([s[0]], CollapseNewlines(s[1..]), NotNewline);
      }
    }
  }

  /** The run-by-run scan agrees with the look-around reading, character by character. */
  predicate IsLoneNewline(s: string, i: nat)
    requires i < |s|
  {
    s[i] == '\n' && (i == 0 || s[i - 1] != '\n') && (i + 1 == |s| || s[i + 1] != '\n')
  }

  lemma {:induction false} LoneNewlinesPointwise(s: string)
    ensures forall i :: 0 <= i < |s| ==>
      LoneNewlinesToSpaces(s)[i] == if IsLoneNewline(s, i) then ' ' else s[i]
    decreases |s|
  {
    if s != [] {
      if s[0] == '\n' {
        LoneNewlinesPointwise(s[NewlineRun(s)..]);
        RunStepPointwise(s);
      } else {
        LoneNewlinesPointwise(s[1..]);
        CharStepPointwise(s);
      }
    }
  }

  /** The scan turns exactly the lone newlines of `s` into spaces. */
  predicate LoneNewlinesAgree(s: string) {
    forall i :: 0 <= i < |s| ==> LoneNewlinesToSpaces(s)[i] == if IsLoneNewline(s, i) then ' ' else s[i]
  }

  lemma RunStepPointwise(s: string)
    requires s != [] && s[0] == '\n'
    requires LoneNewlinesAgree(s[NewlineRun(s)..])
    ensures LoneNewlinesAgree(s)
  {
    var r := LoneNewlinesToSpaces(s);
    var k := NewlineRun(s);
    var t := s[k..];
    var head: string := if k == 1 then " " else s[..k];
    assert r == head + LoneNewlinesToSpaces(t);
    forall i | 0 <= i < |s| ensures r[i] == if IsLoneNewline(s, i) then ' ' else s[i] {
      if i >= k {
        var j := i - k;
        assert r[i] == LoneNewlinesToSpaces(t)[j];
        assert LoneNewlinesToSpaces(t)[j] == if IsLoneNewline(t, j) then ' ' else t[j];
        assert t[j] == s[i];
        RunTailPointwise(s, k, i);
      } else {
        assert r[i] == head[i];
        assert s[i] == '\n';
        LoneInRun(s, k, i);
      }
    }
  }

  lemma CharStepPointwise(s: string)
    requires s != [] && s[0] != '\n'
    requires LoneNewlinesAgree(s[1..])
    ensures LoneNewlinesAgree(s)
  {
    var r := LoneNewlinesToSpaces(s);
    var t := s[1..];
    assert r == [s[0]] + LoneNewlinesToSpaces(t);
    forall i | 0 <= i < |s| ensures r[i] == if IsLoneNewline(s, i) then ' ' else s[i] {
      if i >= 1 {
        assert r[i] == LoneNewlinesToSpaces(t)[i - 1];
        PastFirstPointwise(s, i);
      }
    }
  }

  /** Past a first character that is not a newline, lone newlines are read the same in the tail. */
  lemma PastFirstPointwise(s: string, i: nat)
    requires 1 <= i < |s| && s[0] != '\n'
    ensures IsLoneNewline(s, i) == IsLoneNewline(s[1..], i - 1)
  {
    var t := s[1..];
    assert t[i - 1] == s[i];
    if i > 1 {
      assert t[i - 2] == s[i - 1];
    }
    if i + 1 < |s| {
      assert t[i] == s[i + 1];
    }
  }

  /** Inside the first run of newlines, a newline is lone exactly when the run has length one. */
  lemma LoneInRun(s: string, k: nat, i: nat)
    requires 0 < k == NewlineRun(s) && i < k
    ensures IsLoneNewline(s, i) <==> k == 1
  {
    if k > 1 {
      if i > 0 {
        assert s[i - 1] == '\n';
      } else {
        assert s[i + 1] == '\n';
      }
    }
  }

  /** Past the first run of newlines, lone newlines are read the same in the tail. */
  lemma RunTailPointwise(s: string, k: nat, i: nat)
    requires k == NewlineRun(s) && k <= i < |s|
    ensures IsLoneNewline(s, i) == IsLoneNewline(s[k..], i - k)
  {
    var t := s[k..];
    var j := i - k;
    assert |t| == |s| - k && t[j] == s[i];
    if j > 0 {
      assert t[j - 1] == s[i - 1];
    }
    if j + 1 < |t| {
      assert t[j + 1] == s[i + 1];
    }
    assert IsLoneNewline(t, j) == (t[j] == '\n' && (j == 0 || t[j - 1] != '\n') && (j + 1 == |t| || t[j + 1] != '\n'));
  }

  // ---------------------------------------------------------------------
  // Idempotence
  // ---------------------------------------------------------------------

  lemma {:induction false} ReplaceCrLfFixes(s: string)
    requires '\r' !in s
    ensures ReplaceCrLf(s) == s
    decreases |s|
  {
    if s != [] {
      ReplaceCrLfFixes(s[1..]);
    }
  }

  lemma {:induction false} RemoveControlFixes(s: string)
    requires forall c :: c in s ==> !IsControl(c)
    ensures RemoveControl(s) == s
    decreases |s|
  {
    if s != [] {
      RemoveControlFixes(s[1..]);
    }
  }

  predicate HyphenBreakAt(s: string, i: nat) {
    i + 4 <= |s| && IsWordChar(s[i]) && s[i + 1] == '-' && s[i + 2] == '\n' && IsWordChar(s[i + 3])
  }

  lemma {:induction false} DehyphenateFixes(s: string)
    requires forall i :: 0 <= i ==> !HyphenBreakAt(s, i)
    ensures Dehyphenate(s) == s
    decreases |s|
  {
    if s != [] {
      assert !HyphenBreakAt(s, 0);
      forall i | 0 <= i ensures !HyphenBreakAt(s[1..], i) {
        assert !HyphenBreakAt(s, i + 1);
      }
      DehyphenateFixes(s[1..]);
    }
  }

  lemma {:induction false} LoneNewlinesFixes(s: string)
    requires NewlineRuns(s, false)
    ensures LoneNewlinesToSpaces(s) == s
    decreases |s|
  {
    if s != [] {
      if s[0] == '\n' {
        var k := NewlineRun(s);
        LoneNewlinesFixes(s[k..]);
        SplitAt(s, k);
      } else {
        LoneNewlinesFixes(s[1..]);
      }
    }
  }

  lemma {:induction false} CollapseBlanksFixes(s: string)
    requires '\t' !in s && NoDoubleSpace(s)
    ensures CollapseBlanks(s) == s
    decreases |s|
  {
    if s != [] {
      if IsBlank(s[0]) {
        assert BlankRun(s) == 1 by {
          assert |s| > 1 ==> !IsBlank(s[1]);
        }
      }
      assert NoDoubleSpace(s[1..]) by {
        forall i | 0 <= i < |s[1..]| - 1 ensures !(s[1..][i] == ' ' && s[1..][i + 1] == ' ') {
          assert s[1..][i] == s[i + 1] && s[1..][i + 1] == s[i + 2];
        }
      }
      CollapseBlanksFixes(s[1..]);
    }
  }

  lemma {:induction false} CollapseNewlinesFixes(s: string)
    requires NewlineRuns(s, true)
    ensures CollapseNewlines(s) == s
    decreases |s|
  {
    if s != [] {
      if s[0] == '\n' {
        var k := NewlineRun(s);
        CollapseNewlinesFixes(s[k..]);
        assert s == s[..k] + s[k..];
      } else {
        CollapseNewlinesFixes(s[1..]);
      }
    }
  }

  lemma RunsExactAtLeastTwo(s: string)
    requires NewlineRuns(s, true)
    ensures NewlineRuns(s, false)
    decreases |s|
  {
  }

  lemma ReplaceCrFixes(s: string)
    requires '\r' !in s
    ensures ReplaceCr(s) == s
  {
  }

  lemma NoHyphenBreak(s: string)
    requires NewlinesPaired(s)
    ensures forall i :: 0 <= i ==> !HyphenBreakAt(s, i)
  {
    forall i | 0 <= i ensures !HyphenBreakAt(s, i) {
      if i + 4 <= |s| && s[i + 1] == '-' && s[i + 2] == '\n' {
        assert PairAt(s, i + 2) || PairAt(s, i + 2 - 1);
        assert s[i + 3] == '\n';
      }
    }
  }

  /** The stable form is a fixed point of every stage. */
  lemma CleanTextFixesClean(s: string)
    requires IsClean(s)
    ensures CleanText(s) == s
  {
    if s != [] {
      ReplaceCrLfFixes(s);
      ReplaceCrFixes(s);
      RemoveControlFixes(s);
      NoHyphenBreak(s);
      DehyphenateFixes(s);
      assert Prepare(s) == s;
      PairedRunsExact(s);
      RunsExactAtLeastTwo(s);
      LoneNewlinesFixes(s);
      CollapseBlanksFixes(s);
      CollapseNewlinesFixes(s);
      assert Reflow(s) == s;
      StripIdentity(s);
    }
  }

  /** `clean_text` is idempotent: its output is already in the stable form. */
  lemma CleanTextIdempotent(text: string)
    ensures CleanText(CleanText(text)) == CleanText(text)
  {
    CleanTextIsClean(text);
    CleanTextFixesClean(CleanText(text));
  }
}
