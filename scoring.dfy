/**
 * Score fusion: the cosine similarity of the two embeddings and the overlap
 * of skill sets, each mapped to [0, 100] with two decimals, blended by two
 * weights that are rescaled to sum to one.
 */
module Scoring {
  import opened Text
  import opened Numeric

  // ---------------------------------------------------------------------
  // _to_pct01 and _to_0_100
  // ---------------------------------------------------------------------

  /** `_to_pct01`: a similarity in [-1, 1] mapped linearly onto [0, 1], anything else clamped. */
  function ToPct01(sim: real): (r: real)
    ensures 0.0 <= r <= 1.0
    ensures -1.0 <= sim <= 1.0 ==> r * 2.0 == sim + 1.0
  {
    Clamp(0.0, 1.0, (sim + 1.0) / 2.0)
  }

  /** `_to_0_100`: a fraction as a percentage in [0, 100], rounded to two places. */
  function To0_100(x01: real): (r: real)
    ensures 0.0 <= r <= 100.0
    ensures OnGrid2(r)
  {
    var c := Clamp(0.0, 100.0, x01 * 100.0);
    Round2Within(c, 0, 10000);
    Round2OnGrid(c);
    Round2(c)
  }

  lemma ToPct01Monotone(x: real, y: real)
    requires x <= y
    ensures ToPct01(x) <= ToPct01(y)
  {
    ClampMonotone(0.0, 1.0, (x + 1.0) / 2.0, (y + 1.0) / 2.0);
  }

  lemma To0_100Monotone(x: real, y: real)
    requires x <= y
    ensures To0_100(x) <= To0_100(y)
  {
    ClampMonotone(0.0, 100.0, x * 100.0, y * 100.0);
    Round2Monotone(Clamp(0.0, 100.0, x * 100.0), Clamp(0.0, 100.0, y * 100.0));
  }

  /** Fractions at or beyond the ends of [0, 1] give exactly 0 and 100. */
  lemma To0_100Ends(x: real)
    ensures x <= 0.0 ==> To0_100(x) == 0.0
    ensures x >= 1.0 ==> To0_100(x) == 100.0
  {
    if x <= 0.0 {
      assert OnGrid2(0.0);
      Round2FixesGrid(0.0);
    } else if x >= 1.0 {
      assert (100.0 * 100.0).Floor == 10000;
      Round2FixesGrid(100.0);
    }
  }

  /** A percentage already on the grid of 0.01 comes back unchanged from `_to_0_100(p / 100)`. */
  lemma To0_100OfPercentage(p: real)
    requires 0.0 <= p <= 100.0 && OnGrid2(p)
    ensures To0_100(p / 100.0) == p
  {
    assert p / 100.0 * 100.0 == p;
    Round2FixesGrid(p);
  }

  // ---------------------------------------------------------------------
  // skill_overlap_score
  // ---------------------------------------------------------------------

  /** The set of the lowercased strings of `xs`. */
  function LowerSet(xs: seq<string>): set<string> {
    set s | s in xs :: Lower(s)
  }

  /** The share of `part` that `have` covers, 1.0 for an empty `part`. */
  function Share(have: set<string>, part: set<string>): real {
    if part == {} then 1.0 else |have * part| as real / Max1(|part|) as real
  }

  /** `skill_overlap_score`. */
  function SkillOverlapScore(
    resumeSkills: seq<string>, requiredSkills: seq<string>, preferredSkills: seq<string>,
    requiredWeight: real, preferredWeight: real): (r: real)
    ensures 0.0 <= r <= 100.0
  {
    OverlapOfSets(LowerSet(resumeSkills), LowerSet(requiredSkills), LowerSet(preferredSkills),
                  requiredWeight, preferredWeight)
  }

  /** The score once the three lists are lowercased sets. */
  function OverlapOfSets(rset: set<string>, req: set<string>, pref: set<string>,
                         requiredWeight: real, preferredWeight: real): (r: real)
    ensures 0.0 <= r <= 100.0
  {
    To0_100(Mix(requiredWeight, Share(rset, req), preferredWeight, Share(rset, pref)))
  }

  /** The weights `compute_match_score` leaves at their defaults. */
  const DefaultRequiredWeight: real := 0.8
  const DefaultPreferredWeight: real := 0.2

  lemma {:induction false} SubsetCard<T>(a: set<T>, b: set<T>)
    requires a <= b
    ensures |a| <= |b|
    decreases |b|
  {
    if a != {} {
      var x :| x in a;
      SubsetCard(a - {x}, b - {x});
    }
  }

  lemma RatioBounds(a: nat, b: nat, d: nat)
    requires a <= b <= d && d > 0
    ensures 0.0 <= a as real / d as real <= b as real / d as real <= 1.0
    ensures b == d ==> b as real / d as real == 1.0
  {
    var x, y := a as real / d as real, b as real / d as real;
    assert x * d as real == a as real && y * d as real == b as real;
  }

  /** A share lies in [0, 1], and equals 1 when `have` holds all of `part`. */
  lemma ShareBounds(have: set<string>, part: set<string>)
    ensures 0.0 <= Share(have, part) <= 1.0
    ensures part <= have ==> Share(have, part) == 1.0
  {
    if part != {} {
      SubsetCard(have * part, part);
      if part <= have {
        assert have * part == part;
      }
      RatioBounds(|have * part|, |have * part|, |part|);
    }
  }

  /** More of the resume never lowers a share. */
  lemma ShareMonotone(have: set<string>, more: set<string>, part: set<string>)
    requires have <= more
    ensures Share(have, part) <= Share(more, part)
  {
    if part != {} {
      SubsetCard(have * part, more * part);
      SubsetCard(more * part, part);
      RatioBounds(|have * part|, |more * part|, |part|);
    }
  }

  /**
   * An empty required list, or an empty preferred list, gets full credit for
   * its term; with both empty and the default weights the score is 100.
   */
  lemma OverlapEmptyLists(resumeSkills: seq<string>, requiredSkills: seq<string>, preferredSkills: seq<string>,
                          requiredWeight: real, preferredWeight: real)
    ensures requiredSkills == [] ==> Share(LowerSet(resumeSkills), LowerSet(requiredSkills)) == 1.0
    ensures preferredSkills == [] ==> Share(LowerSet(resumeSkills), LowerSet(preferredSkills)) == 1.0
    ensures requiredSkills == [] && preferredSkills == [] ==>
      SkillOverlapScore(resumeSkills, [], [], DefaultRequiredWeight, DefaultPreferredWeight) == 100.0
  {
    assert LowerSet([]) == {};
    To0_100Ends(DefaultRequiredWeight * 1.0 + DefaultPreferredWeight * 1.0);
  }

  /** A resume holding every required and preferred skill scores 100 with the default weights. */
  lemma OverlapFullMatch(resumeSkills: seq<string>, requiredSkills: seq<string>, preferredSkills: seq<string>)
    requires LowerSet(requiredSkills) <= LowerSet(resumeSkills)
    requires LowerSet(preferredSkills) <= LowerSet(resumeSkills)
    ensures SkillOverlapScore(resumeSkills, requiredSkills, preferredSkills,
                              DefaultRequiredWeight, DefaultPreferredWeight) == 100.0
  {
    var rset := LowerSet(resumeSkills);
    ShareBounds(rset, LowerSet(requiredSkills));
    ShareBounds(rset, LowerSet(preferredSkills));
    To0_100Ends(DefaultRequiredWeight * 1.0 + DefaultPreferredWeight * 1.0);
  }

  /** Letter case never matters: lowercasing every list first gives the same score. */
  lemma OverlapIgnoresCase(resumeSkills: seq<string>, requiredSkills: seq<string>, preferredSkills: seq<string>,
                           requiredWeight: real, preferredWeight: real)
    ensures SkillOverlapScore(LowerAll(resumeSkills), LowerAll(requiredSkills), LowerAll(preferredSkills),
                              requiredWeight, preferredWeight)
         == SkillOverlapScore(resumeSkills, requiredSkills, preferredSkills, requiredWeight, preferredWeight)
  {
    LowerSetOfLowerAll(resumeSkills);
    LowerSetOfLowerAll(requiredSkills);
    LowerSetOfLowerAll(preferredSkills);
  }

  lemma LowerSetOfLowerAll(xs: seq<string>)
    ensures LowerSet(LowerAll(xs)) == LowerSet(xs)
  {
    forall s | s in LowerSet(xs) ensures s in LowerSet(LowerAll(xs)) {
      var t :| t in xs && Lower(t) == s;
      var i :| 0 <= i < |xs| && xs[i] == t;
      LowerIsLowercase(t);
      LowercaseFixed(s);
      assert LowerAll(xs)[i] == s;
    }
    forall s | s in LowerSet(LowerAll(xs)) ensures s in LowerSet(xs) {
      var t :| t in LowerAll(xs) && Lower(t) == s;
      var i :| 0 <= i < |xs| && LowerAll(xs)[i] == t;
      LowerIsLowercase(xs[i]);
      LowercaseFixed(t);
    }
  }

  /** Adding skills to the resume never lowers the score, for weights that are not negative. */
  lemma OverlapMonotone(resumeSkills: seq<string>, moreSkills: seq<string>,
                        requiredSkills: seq<string>, preferredSkills: seq<string>,
                        requiredWeight: real, preferredWeight: real)
    requires forall s :: s in resumeSkills ==> s in moreSkills
    requires requiredWeight >= 0.0 && preferredWeight >= 0.0
    ensures SkillOverlapScore(resumeSkills, requiredSkills, preferredSkills, requiredWeight, preferredWeight)
         <= SkillOverlapScore(moreSkills, requiredSkills, preferredSkills, requiredWeight, preferredWeight)
  {
    var a, b := LowerSet(resumeSkills), LowerSet(moreSkills);
    assert a <= b;
    OverlapOfSetsMonotone(a, b, LowerSet(requiredSkills), LowerSet(preferredSkills), requiredWeight, preferredWeight);
  }

  lemma OverlapOfSetsMonotone(a: set<string>, b: set<string>, req: set<string>, pref: set<string>,
                              requiredWeight: real, preferredWeight: real)
    requires a <= b
    requires requiredWeight >= 0.0 && preferredWeight >= 0.0
    ensures OverlapOfSets(a, req, pref, requiredWeight, preferredWeight)
         <= OverlapOfSets(b, req, pref, requiredWeight, preferredWeight)
  {
    ShareMonotone(a, b, req);
    ShareMonotone(a, b, pref);
    MixMonotone(requiredWeight, preferredWeight, Share(a, req), Share(b, req), Share(a, pref), Share(b, pref));
    To0_100Monotone(Mix(requiredWeight, Share(a, req), preferredWeight, Share(a, pref)),
                    Mix(requiredWeight, Share(b, req), preferredWeight, Share(b, pref)));
  }

  /** The weighted sum of two parts. */
  function Mix(v: real, x: real, w: real, y: real): real {
    v * x + w * y
  }

  /** A weighted sum with weights that are not negative rises with each part. */
  lemma MixMonotone(v: real, w: real, x1: real, x2: real, y1: real, y2: real)
    requires v >= 0.0 && w >= 0.0 && x1 <= x2 && y1 <= y2
    ensures Mix(v, x1, w, y1) <= Mix(v, x2, w, y2)
  {
    ScaleMonotone(v, x1, x2);
    ScaleMonotone(w, y1, y2);
  }

  /** Multiplying by a factor that is not negative preserves order. */
  lemma ScaleMonotone(v: real, x1: real, x2: real)
    requires v >= 0.0 && x1 <= x2
    ensures v * x1 <= v * x2
  {
    var d := x2 - x1;
    assert v * x2 == v * x1 + v * d;
    if v > 0.0 && d > 0.0 {
      assert v * d > 0.0;
    }
  }

  // ---------------------------------------------------------------------
  // compute_match_score
  // ---------------------------------------------------------------------

  /** The `weights` dict of the result, with its keys `semantic` and `skill`. */
  datatype Weights = Weights(semantic: real, skill: real)

  datatype ScoreResult = ScoreResult(
    semanticSimilarityScore: real,
    skillOverlapScore: real,
    finalMatchScore: real,
    weights: Weights)

  /** The weights after the defensive normalization: 0.65 and 0.35 when their sum is not positive. */
  function NormalizeWeights(semanticWeight: real, skillWeight: real): (w: Weights)
    ensures w.semantic + w.skill == 1.0
    ensures semanticWeight + skillWeight > 0.0 ==>
      && w.semantic * (semanticWeight + skillWeight) == semanticWeight
      && w.skill * (semanticWeight + skillWeight) == skillWeight
    ensures semanticWeight + skillWeight <= 0.0 ==> w == Weights(0.65, 0.35)
    ensures semanticWeight >= 0.0 && skillWeight >= 0.0 ==> w.semantic >= 0.0 && w.skill >= 0.0
  {
    var wsum := semanticWeight + skillWeight;
    if wsum <= 0.0 then Weights(0.65, 0.35)
    else
      assert semanticWeight / wsum + skillWeight / wsum == (semanticWeight + skillWeight) / wsum;
      Weights(semanticWeight / wsum, skillWeight / wsum)
  }

  /**
   * `compute_match_score`, given the cosine similarity of the two vectors
   * (`cosine_similarity` is not part of this model).
   */
  function ComputeMatchScore(
    cosine: real, resumeSkills: seq<string>, requiredSkills: seq<string>, preferredSkills: seq<string>,
    semanticWeight: real, skillWeight: real): (r: ScoreResult)
    ensures 0.0 <= r.semanticSimilarityScore <= 100.0
    ensures 0.0 <= r.skillOverlapScore <= 100.0
    ensures 0.0 <= r.finalMatchScore <= 100.0
  {
    var sem := To0_100(ToPct01(cosine));
    var skills := SkillOverlapScore(resumeSkills, requiredSkills, preferredSkills,
                                    DefaultRequiredWeight, DefaultPreferredWeight);
    Fuse(sem, skills, NormalizeWeights(semanticWeight, skillWeight))
  }

  /** The blend of the two percentages under normalized weights, and the echoed weights. */
  function Fuse(sem: real, skills: real, w: Weights): (r: ScoreResult)
    ensures r.semanticSimilarityScore == sem && r.skillOverlapScore == skills
    ensures 0.0 <= r.finalMatchScore <= 100.0
    ensures r.weights == Weights(Round4(w.semantic), Round4(w.skill))
  {
    ScoreResult(sem, skills, To0_100(Blend(w, sem, skills)), Weights(Round4(w.semantic), Round4(w.skill)))
  }

  /** `semantic_weight * (sem / 100) + skill_weight * (skills / 100)`. */
  function Blend(w: Weights, sem: real, skills: real): real {
    Mix(w.semantic, sem / 100.0, w.skill, skills / 100.0)
  }

  /** Weights whose sum is not positive behave exactly like 0.65 and 0.35. */
  lemma WeightFallback(cosine: real, resumeSkills: seq<string>, requiredSkills: seq<string>,
                       preferredSkills: seq<string>, semanticWeight: real, skillWeight: real)
    requires semanticWeight + skillWeight <= 0.0
    ensures ComputeMatchScore(cosine, resumeSkills, requiredSkills, preferredSkills, semanticWeight, skillWeight)
         == ComputeMatchScore(cosine, resumeSkills, requiredSkills, preferredSkills, 0.65, 0.35)
  {
  }

  /**
   * Positive weights are rescaled to sum to one, so only their ratio
   * matters, and they are echoed rounded to four places.
   */
  lemma WeightsRescaled(cosine: real, resumeSkills: seq<string>, requiredSkills: seq<string>,
                        preferredSkills: seq<string>, semanticWeight: real, skillWeight: real, k: real)
    requires semanticWeight + skillWeight > 0.0 && k > 0.0
    ensures var r := ComputeMatchScore(cosine, resumeSkills, requiredSkills, preferredSkills, semanticWeight, skillWeight);
      var w := NormalizeWeights(semanticWeight, skillWeight);
      && w.semantic + w.skill == 1.0
      && r.weights == Weights(Round4(w.semantic), Round4(w.skill))
    ensures ComputeMatchScore(cosine, resumeSkills, requiredSkills, preferredSkills, k * semanticWeight, k * skillWeight)
         == ComputeMatchScore(cosine, resumeSkills, requiredSkills, preferredSkills, semanticWeight, skillWeight)
  {
    NormalizeScaled(semanticWeight, skillWeight, k);
  }

  lemma NormalizeScaled(a: real, b: real, k: real)
    requires a + b > 0.0 && k > 0.0
    ensures NormalizeWeights(k * a, k * b) == NormalizeWeights(a, b)
  {
    var s := a + b;
    assert k * a + k * b == k * s;
    assert k * s > 0.0;
    ScaledQuotient(a, s, k);
    ScaledQuotient(b, s, k);
  }

  lemma ScaledQuotient(a: real, s: real, k: real)
    requires s > 0.0 && k > 0.0
    ensures (k * a) / (k * s) == a / s
  {
    var q := a / s;
    assert q * s == a;
    assert q * (k * s) == k * a;
  }

  /** The semantic score rises with the cosine similarity, and is 0 and 100 at -1 and 1. */
  lemma SemanticScoreFacts(c1: real, c2: real)
    requires c1 <= c2
    ensures To0_100(ToPct01(c1)) <= To0_100(ToPct01(c2))
    ensures To0_100(ToPct01(-1.0)) == 0.0 && To0_100(ToPct01(1.0)) == 100.0
  {
    ToPct01Monotone(c1, c2);
    To0_100Monotone(ToPct01(c1), ToPct01(c2));
    To0_100Ends(ToPct01(-1.0));
    To0_100Ends(ToPct01(1.0));
  }

  /** With weights that are not negative, a higher cosine similarity never lowers the final score. */
  lemma FinalMonotoneInCosine(c1: real, c2: real, resumeSkills: seq<string>, requiredSkills: seq<string>,
                              preferredSkills: seq<string>, semanticWeight: real, skillWeight: real)
    requires c1 <= c2 && semanticWeight >= 0.0 && skillWeight >= 0.0
    ensures ComputeMatchScore(c1, resumeSkills, requiredSkills, preferredSkills, semanticWeight, skillWeight).finalMatchScore
         <= ComputeMatchScore(c2, resumeSkills, requiredSkills, preferredSkills, semanticWeight, skillWeight).finalMatchScore
  {
    SemanticScoreFacts(c1, c2);
    FuseMonotone(To0_100(ToPct01(c1)), To0_100(ToPct01(c2)),
                 SkillOverlapScore(resumeSkills, requiredSkills, preferredSkills,
                                   DefaultRequiredWeight, DefaultPreferredWeight),
                 NormalizeWeights(semanticWeight, skillWeight));
  }

  lemma FuseMonotone(s1: real, s2: real, skills: real, w: Weights)
    requires s1 <= s2 && w.semantic >= 0.0 && w.skill >= 0.0
    ensures Fuse(s1, skills, w).finalMatchScore <= Fuse(s2, skills, w).finalMatchScore
  {
    MixMonotone(w.semantic, w.skill, s1 / 100.0, s2 / 100.0, skills / 100.0, skills / 100.0);
    To0_100Monotone(Blend(w, s1, skills), Blend(w, s2, skills));
  }

  /** With weights that are not negative, full marks on both parts give a final score of 100. */
  lemma FinalFullMarks(cosine: real, resumeSkills: seq<string>, requiredSkills: seq<string>,
                       preferredSkills: seq<string>, semanticWeight: real, skillWeight: real)
    requires cosine >= 1.0 && semanticWeight >= 0.0 && skillWeight >= 0.0
    requires LowerSet(requiredSkills) <= LowerSet(resumeSkills)
    requires LowerSet(preferredSkills) <= LowerSet(resumeSkills)
    ensures ComputeMatchScore(cosine, resumeSkills, requiredSkills, preferredSkills, semanticWeight, skillWeight).finalMatchScore == 100.0
  {
    var w := NormalizeWeights(semanticWeight, skillWeight);
    To0_100Ends(ToPct01(cosine));
    OverlapFullMatch(resumeSkills, requiredSkills, preferredSkills);
    assert Blend(w, 100.0, 100.0) == 1.0;
    To0_100Ends(1.0);
  }
}
