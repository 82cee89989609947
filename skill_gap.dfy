/**
 * `compute_skill_gap`: which skills of a job description a resume has, which
 * required ones it lacks, and which preferred ones it lacks, compared
 * case-insensitively and reported as sorted lists without repetitions.
 */
module SkillGap {
  import opened Text
  import opened Seqs

  datatype SkillGap = SkillGap(
    matchingSkills: seq<string>,
    missingRequiredSkills: seq<string>,
    niceToHaveSkills: seq<string>)

  /** `x` is the lowercase form of some string of `xs`. */
  predicate InLowered(x: string, xs: seq<string>) {
    x in LowerAll(xs)
  }

  /** `compute_skill_gap`. */
  function ComputeSkillGap(resumeSkills: seq<string>, requiredSkills: seq<string>, preferredSkills: seq<string>)
    : SkillGap
  {
    var rset := LowerAll(resumeSkills);
    var req := LowerAll(requiredSkills);
    var pref := LowerAll(preferredSkills);
    SkillGap(
      SortedSet(Filter(req + pref, (s: string) => s in rset)),
      SortedSet(Filter(req, (s: string) => s !in rset)),
      SortedSet(Filter(pref, (s: string) => s !in rset)))
  }

  /**
   * The three lists are ascending without repetitions, and hold exactly:
   * the skills of the job (required or preferred) the resume has; the
   * required skills it lacks; the preferred skills it lacks — every
   * comparison made on lowercased names.
   */
  lemma SkillGapContents(resumeSkills: seq<string>, requiredSkills: seq<string>, preferredSkills: seq<string>)
    ensures var g := ComputeSkillGap(resumeSkills, requiredSkills, preferredSkills);
      && StrictlySorted(g.matchingSkills)
      && StrictlySorted(g.missingRequiredSkills)
      && StrictlySorted(g.niceToHaveSkills)
      && (forall x :: x in g.matchingSkills <==>
            (InLowered(x, requiredSkills) || InLowered(x, preferredSkills)) && InLowered(x, resumeSkills))
      && (forall x :: x in g.missingRequiredSkills <==> InLowered(x, requiredSkills) && !InLowered(x, resumeSkills))
      && (forall x :: x in g.niceToHaveSkills <==> InLowered(x, preferredSkills) && !InLowered(x, resumeSkills))
  {
    var rset := LowerAll(resumeSkills);
    var req := LowerAll(requiredSkills);
    var pref := LowerAll(preferredSkills);
    assert forall x :: x in req + pref <==> x in req || x in pref;
    FilterKeeps(req + pref, (s: string) => s in rset);
    FilterKeeps(req, (s: string) => s !in rset);
    FilterKeeps(pref, (s: string) => s !in rset);
  }

  /**
   * Every required skill is either matched or missing, never both; a
   * preferred skill is never both matched and nice to have.
   */
  lemma RequiredPartition(resumeSkills: seq<string>, requiredSkills: seq<string>, preferredSkills: seq<string>)
    ensures var g := ComputeSkillGap(resumeSkills, requiredSkills, preferredSkills);
      && (forall x :: InLowered(x, requiredSkills) ==> (x in g.matchingSkills <==> x !in g.missingRequiredSkills))
      && (forall x :: x in g.niceToHaveSkills ==> x !in g.matchingSkills)
      && (forall x :: x in g.missingRequiredSkills + g.matchingSkills ==>
            InLowered(x, requiredSkills) || InLowered(x, preferredSkills))
  {
    SkillGapContents(resumeSkills, requiredSkills, preferredSkills);
  }

  /** Letter case never matters: lowercasing every input first gives the same gap. */
  lemma SkillGapIgnoresCase(resumeSkills: seq<string>, requiredSkills: seq<string>, preferredSkills: seq<string>)
    ensures ComputeSkillGap(LowerAll(resumeSkills), LowerAll(requiredSkills), LowerAll(preferredSkills))
         == ComputeSkillGap(resumeSkills, requiredSkills, preferredSkills)
  {
    LowerAllTwice(resumeSkills);
    LowerAllTwice(requiredSkills);
    LowerAllTwice(preferredSkills);
  }

  /** Every reported skill is lowercase. */
  lemma SkillGapLowercase(resumeSkills: seq<string>, requiredSkills: seq<string>, preferredSkills: seq<string>)
    ensures var g := ComputeSkillGap(resumeSkills, requiredSkills, preferredSkills);
      forall x :: x in g.matchingSkills + g.missingRequiredSkills + g.niceToHaveSkills ==> IsLowercase(x)
  {
    SkillGapContents(resumeSkills, requiredSkills, preferredSkills);
    var g := ComputeSkillGap(resumeSkills, requiredSkills, preferredSkills);
    forall x | x in g.matchingSkills + g.missingRequiredSkills + g.niceToHaveSkills ensures IsLowercase(x) {
      if InLowered(x, requiredSkills) {
        LoweredIsLowercase(x, requiredSkills);
      } else {
        LoweredIsLowercase(x, preferredSkills);
      }
    }
  }

  lemma LoweredIsLowercase(x: string, xs: seq<string>)
    requires InLowered(x, xs)
    ensures IsLowercase(x)
  {
    var i :| 0 <= i < |xs| && LowerAll(xs)[i] == x;
    LowerIsLowercase(xs[i]);
  }

  /** With no preferred skills, matched and missing together are exactly the lowercased required skills. */
  lemma NoPreferredCoversRequired(resumeSkills: seq<string>, requiredSkills: seq<string>)
    ensures var g := ComputeSkillGap(resumeSkills, requiredSkills, []);
      forall x :: x in g.matchingSkills + g.missingRequiredSkills <==> InLowered(x, requiredSkills)
  {
    SkillGapContents(resumeSkills, requiredSkills, []);
  }

  /** The gap is the three ascending, repetition-free lists with the contents `SkillGapContents` names. */
  lemma SkillGapByContents(r: seq<string>, q: seq<string>, p: seq<string>, m: seq<string>, mr: seq<string>, nh: seq<string>)
    requires StrictlySorted(m) && StrictlySorted(mr) && StrictlySorted(nh)
    requires forall x :: x in m <==> (InLowered(x, q) || InLowered(x, p)) && InLowered(x, r)
    requires forall x :: x in mr <==> InLowered(x, q) && !InLowered(x, r)
    requires forall x :: x in nh <==> InLowered(x, p) && !InLowered(x, r)
    ensures ComputeSkillGap(r, q, p) == SkillGap(m, mr, nh)
  {
    SkillGapContents(r, q, p);
    var g := ComputeSkillGap(r, q, p);
    StrictlySortedUnique(g.matchingSkills, m);
    StrictlySortedUnique(g.missingRequiredSkills, mr);
    StrictlySortedUnique(g.niceToHaveSkills, nh);
  }

  /** A resume with python and sql against a job requiring python and aws and preferring docker. */
  lemma SkillGapExample()
    ensures ComputeSkillGap(["python", "sql"], ["python", "aws"], ["docker"])
         == SkillGap(["python"], ["aws"], ["docker"])
  {
    var r, q, p := ["python", "sql"], ["python", "aws"], ["docker"];
    LowerAllFixes(r);
    LowerAllFixes(q);
    LowerAllFixes(p);
    SkillGapByContents(r, q, p, ["python"], ["aws"], ["docker"]);
  }
}
