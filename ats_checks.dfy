/**
 * The ATS (applicant tracking system) heuristics of `compute_ats_report`:
 * which required and preferred skills a resume shows, coverage percentages,
 * four section headings, red flags, recommendations and a weighted overall
 * score.
 */
module AtsChecks {
  import opened Text
  import opened Seqs
  import opened Numeric

  // ---------------------------------------------------------------------
  // _contains_term
  // ---------------------------------------------------------------------

  /**
   * `_contains_term`: the normalized term occurs in the text, ignoring case,
   * with no ASCII letter or digit right before or after it; a blank term is
   * never contained.
   */
  predicate ContainsTerm(textLower: string, term: string) {
    var t := Norm(term);
    t != [] && Mentions(textLower, t, Alnum)
  }

  // ---------------------------------------------------------------------
  // Matched and missing skills
  // ---------------------------------------------------------------------

  /** `resume_skill_set`: the non-blank normalized resume skills. */
  function ResumeSkillSet(resumeSkills: seq<string>): set<string> {
    set s | s in resumeSkills && Norm(s) != [] :: Norm(s)
  }

  /** `is_present`. */
  predicate IsPresent(resumeSkills: seq<string>, textLower: string, skill: string) {
    var n := Norm(skill);
    if n == [] then false
    else if n in ResumeSkillSet(resumeSkills) then true
    else ContainsTerm(textLower, n)
  }

  /** A blank skill is never present; one whose normalized form is a listed resume skill always is. */
  lemma PresentCases(resumeSkills: seq<string>, textLower: string, skill: string)
    ensures (forall i :: 0 <= i < |skill| ==> IsSpace(skill[i])) ==> !IsPresent(resumeSkills, textLower, skill)
    ensures (exists r :: r in resumeSkills && Norm(r) == Norm(skill) && Norm(skill) != [])
      ==> IsPresent(resumeSkills, textLower, skill)
  {
    NormBlank(skill);
  }

  function Matched(resumeSkills: seq<string>, textLower: string, skills: seq<string>): seq<string> {
    Filter(skills, (s: string) => IsPresent(resumeSkills, textLower, s))
  }

  function Missing(resumeSkills: seq<string>, textLower: string, skills: seq<string>): seq<string> {
    Filter(skills, (s: string) => !IsPresent(resumeSkills, textLower, s))
  }

  /** Keeping the elements that pass and those that fail splits the list: every element, with its repetitions, lands in one part. */
  lemma {:induction false} FilterSplits<T>(s: seq<T>, p: T -> bool, q: T -> bool)
    requires forall x :: q(x) == !p(x)
    ensures multiset(Filter(s, p)) + multiset(Filter(s, q)) == multiset(s)
  {
    if s != [] {
      var init, x := s[..|s| - 1], s[|s| - 1];
      FilterSplits(init, p, q);
      assert s == init + [x];
      FilterAppend(init, x, p);
      FilterAppend(init, x, q);
      if p(x) {
        assert Filter(s, q) == Filter(init, q);
        assert multiset(Filter(s, p)) == multiset(Filter(init, p)) + multiset{x};
      } else {
        assert Filter(s, p) == Filter(init, p);
        assert multiset(Filter(s, q)) == multiset(Filter(init, q)) + multiset{x};
      }
      assert multiset(s) == multiset(init) + multiset{x};
    }
  }

  /**
   * Matched and missing partition the skill list: each keeps input order,
   * each skill (with its repetitions) lands in exactly one of them, matched
   * ones are present and missing ones are not.
   */
  lemma MatchedMissingPartition(resumeSkills: seq<string>, textLower: string, skills: seq<string>)
    ensures var m, x := Matched(resumeSkills, textLower, skills), Missing(resumeSkills, textLower, skills);
      && multiset(m) + multiset(x) == multiset(skills)
      && |m| + |x| == |skills|
      && (forall k :: 0 <= k < |m| ==> IsPresent(resumeSkills, textLower, m[k]))
      && (forall k :: 0 <= k < |x| ==> !IsPresent(resumeSkills, textLower, x[k]))
  {
    var p := (s: string) => IsPresent(resumeSkills, textLower, s);
    var q := (s: string) => !IsPresent(resumeSkills, textLower, s);
    FilterSplits(skills, p, q);
    FilterComplement(skills, p, q);
  }

  /** Listing one more resume skill never makes a present skill absent. */
  lemma PresentMonotone(resumeSkills: seq<string>, extra: string, textLower: string, skill: string)
    requires IsPresent(resumeSkills, textLower, skill)
    ensures IsPresent(resumeSkills + [extra], textLower, skill)
  {
    assert ResumeSkillSet(resumeSkills) <= ResumeSkillSet(resumeSkills + [extra]);
  }

  // ---------------------------------------------------------------------
  // Coverage and the overall score
  // ---------------------------------------------------------------------

  /** The matched share of the skills, as a percentage (an empty list counts as one skill). */
  function Coverage(matched: nat, total: nat): real {
    (matched as real / Max1(total) as real) * 100.0
  }

  /** A coverage lies in [0, 100], and an empty skill list gives 0, not 100. */
  lemma CoverageBounds(matched: nat, total: nat)
    requires matched <= total
    ensures 0.0 <= Coverage(matched, total) <= 100.0
    ensures total == 0 ==> Coverage(matched, total) == 0.0
    ensures matched == total && total > 0 ==> Coverage(matched, total) == 100.0
  {
    var d := Max1(total) as real;
    assert matched as real <= d;
    assert matched as real / d <= 1.0;
    if matched == total && total > 0 {
      assert matched as real / d == 1.0;
    }
  }

  function RequiredCoverage(resumeSkills: seq<string>, textLower: string, skills: seq<string>): real {
    Coverage(|Matched(resumeSkills, textLower, skills)|, |skills|)
  }

  /** Coverage is between 0 and 100 and is 0 for an empty list. */
  lemma SkillCoverageBounds(resumeSkills: seq<string>, textLower: string, skills: seq<string>)
    ensures 0.0 <= RequiredCoverage(resumeSkills, textLower, skills) <= 100.0
    ensures skills == [] ==> RequiredCoverage(resumeSkills, textLower, skills) == 0.0
  {
    CoverageBounds(|Matched(resumeSkills, textLower, skills)|, |skills|);
  }

  /** Listing one more resume skill never lowers a coverage. */
  lemma CoverageMonotone(resumeSkills: seq<string>, extra: string, textLower: string, skills: seq<string>)
    ensures RequiredCoverage(resumeSkills, textLower, skills)
         <= RequiredCoverage(resumeSkills + [extra], textLower, skills)
  {
    var p := (s: string) => IsPresent(resumeSkills, textLower, s);
    var q := (s: string) => IsPresent(resumeSkills + [extra], textLower, s);
    forall s | s in skills && p(s) ensures q(s) {
      PresentMonotone(resumeSkills, extra, textLower, s);
    }
    FilterMonotone(skills, p, q);
    CoverageMonotoneInCount(|Filter(skills, p)|, |Filter(skills, q)|, |skills|);
  }

  lemma CoverageMonotoneInCount(a: nat, b: nat, total: nat)
    requires a <= b
    ensures Coverage(a, total) <= Coverage(b, total)
  {
    var d := Max1(total) as real;
    assert a as real / d <= b as real / d;
  }

  /** `0.6 * req + 0.2 * pref + 0.2 * sections`, clamped to [0, 100]. */
  function Overall(reqCov: real, prefCov: real, sectionsScore: real): real {
    Clamp(0.0, 100.0, 0.6 * reqCov + 0.2 * prefCov + 0.2 * sectionsScore)
  }

  /**
   * The overall score lies in [0, 100]; when its three inputs already do,
   * the weights sum to one and the clamp changes nothing.
   */
  lemma OverallBounds(reqCov: real, prefCov: real, sectionsScore: real)
    ensures 0.0 <= Overall(reqCov, prefCov, sectionsScore) <= 100.0
    ensures 0.0 <= reqCov <= 100.0 && 0.0 <= prefCov <= 100.0 && 0.0 <= sectionsScore <= 100.0 ==>
      Overall(reqCov, prefCov, sectionsScore) == 0.6 * reqCov + 0.2 * prefCov + 0.2 * sectionsScore
  {
  }

  /** A higher required coverage never lowers the overall score. */
  lemma OverallMonotone(r1: real, r2: real, prefCov: real, sectionsScore: real)
    requires r1 <= r2
    ensures Overall(r1, prefCov, sectionsScore) <= Overall(r2, prefCov, sectionsScore)
  {
    ClampMonotone(0.0, 100.0, 0.6 * r1 + 0.2 * prefCov + 0.2 * sectionsScore, 0.6 * r2 + 0.2 * prefCov + 0.2 * sectionsScore);
  }

  // ---------------------------------------------------------------------
  // Sections
  // ---------------------------------------------------------------------

  datatype Section = Experience | Education | Skills | Projects

  /** The keys of `section_patterns`, in insertion order. */
  const AllSections: seq<Section> := [Experience, Education, Skills, Projects]

  function Name(s: Section): string {
    match s
    case Experience => "experience"
    case Education => "education"
    case Skills => "skills"
    case Projects => "projects"
  }

  /** The alternatives of each heading pattern; each begins and ends with a word character. */
  function Headings(s: Section): seq<string> {
    match s
    case Experience => ["experience", "work experience", "employment"]
    case Education => ["education", "academics", "qualification"]
    case Skills => ["skills", "technical skills", "tools"]
    case Projects => ["projects", "project experience"]
  }

  /** The section's heading pattern occurs in the resume text, ignoring case. */
  predicate HasSection(text: string, s: Section) {
    MentionsAny(text, Headings(s), Word)
  }

  /** The names of the sections of `ss` found (`found`) or not found (`!found`), in order. */
  function SectionNames(text: string, ss: seq<Section>, found: bool): seq<string> {
    if ss == [] then []
    else
      var init := SectionNames(text, ss[..|ss| - 1], found);
      var s := ss[|ss| - 1];
      if HasSection(text, s) == found then init + [Name(s)] else init
  }

  /** The loop over the section patterns, in their fixed order. */
  method DetectSections(text: string) returns (present: seq<string>, missing: seq<string>)
    ensures present == SectionNames(text, AllSections, true)
    ensures missing == SectionNames(text, AllSections, false)
  {
    present, missing := [], [];
    for i := 0 to |AllSections|
      invariant present == SectionNames(text, AllSections[..i], true)
      invariant missing == SectionNames(text, AllSections[..i], false)
    {
      var s := AllSections[i];
      SectionNamesStep(text, AllSections, i, true);
      SectionNamesStep(text, AllSections, i, false);
      if HasSection(text, s) {
        present := present + [Name(s)];
      } else {
        missing := missing + [Name(s)];
      }
    }
    assert AllSections[..|AllSections|] == AllSections;
  }

  lemma SectionNamesStep(text: string, ss: seq<Section>, i: nat, found: bool)
    requires i < |ss|
    ensures SectionNames(text, ss[..i + 1], found) ==
      if HasSection(text, ss[i]) == found then SectionNames(text, ss[..i], found) + [Name(ss[i])]
      else SectionNames(text, ss[..i], found)
  {
    assert ss[..i + 1][..i] == ss[..i];
  }

  lemma {:induction false} SectionNamesCount(text: string, ss: seq<Section>)
    ensures |SectionNames(text, ss, true)| + |SectionNames(text, ss, false)| == |ss|
  {
    if ss != [] {
      SectionNamesCount(text, ss[..|ss| - 1]);
    }
  }

  lemma {:induction false} SectionNamesMember(text: string, ss: seq<Section>, found: bool, s: Section)
    requires s in ss
    ensures Name(s) in SectionNames(text, ss, found) <==> HasSection(text, s) == found
  {
    var init, last := ss[..|ss| - 1], ss[|ss| - 1];
    assert ss == init + [last];
    NameInjective(s, last);
    if s in init {
      SectionNamesMember(text, init, found, s);
    } else {
      NamesOnlyOf(text, init, found, s);
    }
  }

  lemma NameInjective(a: Section, b: Section)
    ensures Name(a) == Name(b) ==> a == b
  {
    if a != b {
      assert Name(a)[0] != Name(b)[0] || Name(a)[1] != Name(b)[1];
    }
  }

  /** Only names of sections in `ss` appear. */
  lemma {:induction false} NamesOnlyOf(text: string, ss: seq<Section>, found: bool, s: Section)
    requires s !in ss
    ensures Name(s) !in SectionNames(text, ss, found)
  {
    if ss != [] {
      NamesOnlyOf(text, ss[..|ss| - 1], found, s);
      NameInjective(s, ss[|ss| - 1]);
    }
  }

  /**
   * Present and missing partition the four sections: each section's name
   * is in the present list exactly when its heading is found, and in the
   * missing list otherwise.
   */
  lemma SectionsPartition(text: string)
    ensures var p, m := SectionNames(text, AllSections, true), SectionNames(text, AllSections, false);
      && |p| + |m| == 4
      && (forall s :: Name(s) in p <==> HasSection(text, s))
      && (forall s :: Name(s) in m <==> !HasSection(text, s))
  {
    SectionNamesCount(text, AllSections);
    forall s ensures s in AllSections {
      match s
      case Experience => assert AllSections[0] == s;
      case Education => assert AllSections[1] == s;
      case Skills => assert AllSections[2] == s;
      case Projects => assert AllSections[3] == s;
    }
    forall s ensures Name(s) in SectionNames(text, AllSections, true) <==> HasSection(text, s) {
      SectionNamesMember(text, AllSections, true, s);
    }
    forall s ensures Name(s) in SectionNames(text, AllSections, false) <==> !HasSection(text, s) {
      SectionNamesMember(text, AllSections, false, s);
    }
  }

  // ---------------------------------------------------------------------
  // Red flags and recommendations
  // ---------------------------------------------------------------------

  const ShortFlag := "Resume text looks " + "unusually short after parsing (ATS may miss content)."
  const FormattingFlag := "Possible complex " + "formatting (tables/text boxes/columns) can hurt ATS parsing."
  const NoEmailFlag := "No email detected " + "in resume text."

  /** The alternatives of the formatting pattern. */
  const FormattingWords: seq<string> := ["table", "textbox", "text box", "two column", "two-column"]

  predicate IsShort(text: string) { |SplitWs(text)| < 120 }

  predicate HasFormatting(textLower: string) { MentionsAny(textLower, FormattingWords, Word) }

  predicate HasNoEmail(text: string) { '@' !in text }

  function Flag(cond: bool, message: string): seq<string> {
    if cond then [message] else []
  }

  /** `red_flags`: each check appends its message independently, in a fixed order. */
  function RedFlags(text: string): seq<string> {
    Flag(IsShort(text), ShortFlag) + Flag(HasFormatting(Lower(text)), FormattingFlag) + Flag(HasNoEmail(text), NoEmailFlag)
  }

  /** At most three flags; each message is raised exactly when its own condition holds. */
  lemma RedFlagsFacts(text: string)
    ensures |RedFlags(text)| <= 3
    ensures ShortFlag in RedFlags(text) <==> IsShort(text)
    ensures FormattingFlag in RedFlags(text) <==> HasFormatting(Lower(text))
    ensures NoEmailFlag in RedFlags(text) <==> HasNoEmail(text)
    ensures IsShort(text) ==> RedFlags(text)[0] == ShortFlag
  {
    assert ShortFlag != FormattingFlag && ShortFlag != NoEmailFlag && FormattingFlag != NoEmailFlag by {
      assert ShortFlag[0] == 'R' && FormattingFlag[0] == 'P' && NoEmailFlag[0] == 'N';
    }
  }

  const KeywordAdvice := "Add missing required " + "keywords naturally in Skills/Experience bullets."
  const CoverageAdvice := "Improve keyword " + "coverage for required skills (aim for 70%+)."

  /** `', '.join(xs)`. */
  function Join(xs: seq<string>, sep: string): string {
    if xs == [] then []
    else if |xs| == 1 then xs[0]
    else xs[0] + sep + Join(xs[1..], sep)
  }

  function HeadingAdvice(sectionsMissing: seq<string>): string {
    "Add clear section headings: " + Join(sectionsMissing, ", ") + "."
  }

  /** `recommendations`. */
  function Recommendations(missingRequired: seq<string>, sectionsMissing: seq<string>, reqCov: real): seq<string> {
    Flag(missingRequired != [], KeywordAdvice)
    + Flag(sectionsMissing != [], HeadingAdvice(sectionsMissing))
    + Flag(reqCov < 60.0, CoverageAdvice)
  }

  /** Each recommendation is given exactly when its condition holds, in the order keywords, headings, coverage. */
  lemma RecommendationsFacts(missingRequired: seq<string>, sectionsMissing: seq<string>, reqCov: real)
    ensures var r := Recommendations(missingRequired, sectionsMissing, reqCov);
      && |r| <= 3
      && (KeywordAdvice in r <==> missingRequired != [])
      && (HeadingAdvice(sectionsMissing) in r <==> sectionsMissing != [])
      && (CoverageAdvice in r <==> reqCov < 60.0)
      && (missingRequired != [] ==> r[0] == KeywordAdvice)
      && (reqCov < 60.0 ==> r[|r| - 1] == CoverageAdvice)
  {
    var h := HeadingAdvice(sectionsMissing);
    assert KeywordAdvice[0] == 'A' && h[0] == 'A' && CoverageAdvice[0] == 'I';
    assert KeywordAdvice[4] == 'm' && h[4] == 'c';
  }

  // ---------------------------------------------------------------------
  // compute_ats_report
  // ---------------------------------------------------------------------

  datatype AtsReport = AtsReport(
    overallScore: real,
    requiredCoveragePct: real,
    preferredCoveragePct: real,
    matchedRequired: seq<string>,
    missingRequired: seq<string>,
    matchedPreferred: seq<string>,
    missingPreferred: seq<string>,
    sectionsPresent: seq<string>,
    sectionsMissing: seq<string>,
    redFlags: seq<string>,
    recommendations: seq<string>)

  /** `compute_ats_report` (no argument is `None` here). */
  method ComputeAtsReport(resumeText: string, resumeSkills: seq<string>, requiredSkills: seq<string>, preferredSkills: seq<string>)
    returns (report: AtsReport)
    ensures var textLower := Lower(resumeText);
      && report.matchedRequired == Matched(resumeSkills, textLower, requiredSkills)
      && report.missingRequired == Missing(resumeSkills, textLower, requiredSkills)
      && report.matchedPreferred == Matched(resumeSkills, textLower, preferredSkills)
      && report.missingPreferred == Missing(resumeSkills, textLower, preferredSkills)
      && report.requiredCoveragePct == RequiredCoverage(resumeSkills, textLower, requiredSkills)
      && report.preferredCoveragePct == RequiredCoverage(resumeSkills, textLower, preferredSkills)
    ensures report.sectionsPresent == SectionNames(resumeText, AllSections, true)
    ensures report.sectionsMissing == SectionNames(resumeText, AllSections, false)
    ensures report.redFlags == RedFlags(resumeText)
    ensures report.recommendations
         == Recommendations(report.missingRequired, report.sectionsMissing, report.requiredCoveragePct)
    ensures report.overallScore == Overall(report.requiredCoveragePct, report.preferredCoveragePct,
                                           Coverage(|report.sectionsPresent|, |AllSections|))
    ensures 0.0 <= report.overallScore <= 100.0
    ensures 0.0 <= report.requiredCoveragePct <= 100.0 && 0.0 <= report.preferredCoveragePct <= 100.0
  {
    var textLower := Lower(resumeText);
    var matchedRequired := Matched(resumeSkills, textLower, requiredSkills);
    var missingRequired := Missing(resumeSkills, textLower, requiredSkills);
    var matchedPreferred := Matched(resumeSkills, textLower, preferredSkills);
    var missingPreferred := Missing(resumeSkills, textLower, preferredSkills);
    var reqCov := RequiredCoverage(resumeSkills, textLower, requiredSkills);
    var prefCov := RequiredCoverage(resumeSkills, textLower, preferredSkills);
    SkillCoverageBounds(resumeSkills, textLower, requiredSkills);
    SkillCoverageBounds(resumeSkills, textLower, preferredSkills);
    var present, missing := DetectSections(resumeText);
    var overall := Overall(reqCov, prefCov, Coverage(|present|, |AllSections|));
    OverallBounds(reqCov, prefCov, Coverage(|present|, |AllSections|));
    report := AtsReport(overall, reqCov, prefCov, matchedRequired, missingRequired, matchedPreferred, missingPreferred,
                        present, missing, RedFlags(resumeText), Recommendations(missingRequired, missing, reqCov));
  }
}
