/**
 * `extract_education_lines` and `extract_experience_lines`: the stripped,
 * non-blank lines of a resume that carry an education keyword, or an
 * experience keyword or a year, in input order and capped.
 */
module ResumeLines {
  import opened Text
  import opened Seqs

  /** The lines of the text, each stripped, with the blank ones dropped. */
  function NonBlankLines(text: string): (r: seq<string>)
    ensures forall k :: 0 <= k < |r| ==> r[k] != [] && IsStripped(r[k])
  {
    var lines := SplitLines(text);
    var stripped := seq(|lines|, i requires 0 <= i < |lines| => Strip(lines[i]));
    var r := Filter(stripped, (ln: string) => ln != []);
    assert forall k :: 0 <= k < |r| ==> r[k] in stripped;
    r
  }

  /** `b\.?tech|m\.?tech|bachelor|master|phd|degree|university|college|institute`, spelled out. */
  const EducationWords: seq<string> :=
    ["btech", "b.tech", "mtech", "m.tech", "bachelor", "master", "phd", "degree", "university", "college", "institute"]

  const ExperienceWords: seq<string> :=
    ["experience", "intern", "developer", "engineer", "analyst", "lead", "manager"]

  /**
   * `edu_kw.search(ln)`: every alternative begins and ends with a word
   * character, so the `\b` on each side is "no word character there".
   */
  predicate IsEducationLine(ln: string) {
    MentionsAny(ln, EducationWords, Word)
  }

  /** `\b(19|20)\d{2}\b` matches at `i`. */
  predicate YearAt(ln: string, i: nat) {
    && i + 4 <= |ln|
    && ((ln[i] == '1' && ln[i + 1] == '9') || (ln[i] == '2' && ln[i + 1] == '0'))
    && IsDigit(ln[i + 2]) && IsDigit(ln[i + 3])
    && (i == 0 || !IsWordChar(ln[i - 1]))
    && (i + 4 == |ln| || !IsWordChar(ln[i + 4]))
  }

  predicate HasYear(ln: string) {
    exists i :: 0 <= i < |ln| && YearAt(ln, i)
  }

  /** An experience keyword or a year occurs in the line. */
  predicate IsExperienceLine(ln: string) {
    MentionsAny(ln, ExperienceWords, Word) || HasYear(ln)
  }

  /** The loop that keeps the lines satisfying `p`, then the cut to the first `cap`. */
  method KeepLines(lines: seq<string>, p: string -> bool, cap: nat) returns (out: seq<string>)
    ensures out == Take(Filter(lines, p), cap)
  {
    var kept := [];
    for i := 0 to |lines|
      invariant kept == Filter(lines[..i], p)
    {
      FilterPrefixStep(lines, i, p);
      if p(lines[i]) {
        kept := kept + [lines[i]];
      }
    }
    assert lines[..|lines|] == lines;
    out := Take(kept, cap);
  }

  /** `extract_education_lines`. */
  method ExtractEducationLines(text: string) returns (out: seq<string>)
    ensures out == Take(Filter(NonBlankLines(text), IsEducationLine), 20)
    ensures |out| <= 20
    ensures forall k :: 0 <= k < |out| ==> out[k] != [] && IsStripped(out[k]) && IsEducationLine(out[k])
    ensures text == [] ==> out == []
  {
    if text == [] {
      return [];
    }
    out := KeepLines(NonBlankLines(text), IsEducationLine, 20);
    LinesKept(NonBlankLines(text), IsEducationLine, 20);
  }

  /** `extract_experience_lines`. */
  method ExtractExperienceLines(text: string) returns (out: seq<string>)
    ensures out == Take(Filter(NonBlankLines(text), IsExperienceLine), 25)
    ensures |out| <= 25
    ensures forall k :: 0 <= k < |out| ==> out[k] != [] && IsStripped(out[k]) && IsExperienceLine(out[k])
    ensures text == [] ==> out == []
  {
    if text == [] {
      return [];
    }
    out := KeepLines(NonBlankLines(text), IsExperienceLine, 25);
    LinesKept(NonBlankLines(text), IsExperienceLine, 25);
  }

  /** The kept lines are at most `cap`, each one of the input lines and each satisfying the filter. */
  lemma LinesKept(lines: seq<string>, p: string -> bool, cap: nat)
    ensures var r := Take(Filter(lines, p), cap);
      |r| <= cap && forall k :: 0 <= k < |r| ==> r[k] in lines && p(r[k])
  {
    var f := Filter(lines, p);
    assert forall k :: 0 <= k < |Take(f, cap)| ==> Take(f, cap)[k] == f[k];
  }

  /** A year between word boundaries is enough to keep a line as experience. */
  lemma YearLineIsExperience(ln: string, i: nat)
    requires YearAt(ln, i)
    ensures IsExperienceLine(ln)
  {
  }
}
