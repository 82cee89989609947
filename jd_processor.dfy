/**
 * The job-description processor: the split into a "required" and a
 * "preferred" part at the first section marker of each kind, the role
 * keywords, the experience level read off the first "N years" phrase, and
 * `process_job_description`, which ties them to skill extraction.
 */
module JdProcessor {
  import opened Wrappers
  import opened Text
  import opened Seqs
  import opened Cleaning
  import opened SkillTaxonomy
  import opened SkillExtraction

  // ---------------------------------------------------------------------
  // Required / preferred split
  // ---------------------------------------------------------------------

  /** `_REQUIRED_SECTION`: every alternative begins and ends with a word character. */
  const RequiredMarkers: seq<string> := ["required", "requirements", "must have", "minimum qualifications"]

  /** `_PREFERRED_SECTION`. */
  const PreferredMarkers: seq<string> := ["preferred", "good to have", "nice to have", "bonus", "desired"]

  /** Some alternative of `markers` matches at `i` of the lowercased text `s`. */
  ghost predicate MarkerAt(s: string, i: nat, markers: seq<string>) {
    exists k :: 0 <= k < |markers| && MatchesAt(s, i, markers[k], Word)
  }

  /** `i` is where `re.search` finds the first marker. */
  ghost predicate FirstMarker(s: string, i: nat, markers: seq<string>) {
    MarkerAt(s, i, markers) && forall j :: 0 <= j < i ==> !MarkerAt(s, j, markers)
  }

  ghost predicate NoMarker(s: string, markers: seq<string>) {
    forall i :: !MarkerAt(s, i, markers)
  }

  /** A marker found at `i` lies inside the text. */
  lemma MarkerInside(s: string, i: nat, markers: seq<string>)
    requires MarkerAt(s, i, markers)
    ensures i <= |s|
  {
  }

  /** The start of the leftmost marker, if any (`m.start()` of `re.search`). */
  function MarkerIndex(s: string, markers: seq<string>): (r: Option<nat>)
    ensures r.Some? ==> r.value <= |s|
  {
    var r := FirstMatchAny(s, markers, Word);
    if r.Some? then
      assert MarkerAt(s, r.value, markers);
      MarkerInside(s, r.value, markers);
      r
    else r
  }

  /** No marker is found exactly when none occurs anywhere. */
  lemma MarkerIndexNone(s: string, markers: seq<string>)
    ensures MarkerIndex(s, markers).None? <==> NoMarker(s, markers)
  {
    var r := FirstMatchAny(s, markers, Word);
    if r.Some? {
      assert MarkerAt(s, r.value, markers);
    }
  }

  /** The index found is the first position where a marker occurs. */
  lemma MarkerIndexSome(s: string, markers: seq<string>, i: nat)
    ensures FirstMarker(s, i, markers) <==> MarkerIndex(s, markers) == Some(i)
  {
    var r := FirstMatchAny(s, markers, Word);
    if r.Some? {
      assert MarkerAt(s, r.value, markers);
      if i < r.value {
        NoMarkerAt(s, markers, i);
      }
    } else {
      NoMarkerAt(s, markers, i);
    }
  }

  /** No marker starts before the index found, nor anywhere when none is found. */
  lemma NoMarkerAt(s: string, markers: seq<string>, i: nat)
    requires FirstMatchAny(s, markers, Word).None? || i < FirstMatchAny(s, markers, Word).value
    ensures !MarkerAt(s, i, markers)
  {
    forall k | 0 <= k < |markers| ensures !MatchesAt(s, i, markers[k], Word) {
    }
  }

  /** The slicing of `_split_required_preferred`, given the two marker positions. */
  function SplitAt(text: string, req: Option<nat>, pref: Option<nat>): (string, string)
    requires req.Some? ==> req.value <= |text|
    requires pref.Some? ==> pref.value <= |text|
  {
    if req.None? && pref.None? then (text, [])
    else if req.None? then (text, text[pref.value..])
    else if pref.None? then (text[req.value..], [])
    else if req.value < pref.value then (text[req.value..pref.value], text[pref.value..])
    else (text[req.value..], text[pref.value..req.value])
  }

  /** `_split_required_preferred`. */
  function SplitRequiredPreferred(text: string): (string, string) {
    var lower := Lower(text);
    SplitAt(text, MarkerIndex(lower, RequiredMarkers), MarkerIndex(lower, PreferredMarkers))
  }

  /** Neither marker: the whole text is the required part and the preferred part is empty. */
  lemma SplitNoMarkers(text: string)
    requires NoMarker(Lower(text), RequiredMarkers) && NoMarker(Lower(text), PreferredMarkers)
    ensures SplitRequiredPreferred(text) == (text, [])
  {
    MarkerIndexNone(Lower(text), RequiredMarkers);
    MarkerIndexNone(Lower(text), PreferredMarkers);
  }

  /** Only a preferred marker: the whole text stays required context, the preferred part runs from the marker. */
  lemma SplitOnlyPreferred(text: string, p: nat)
    requires NoMarker(Lower(text), RequiredMarkers) && FirstMarker(Lower(text), p, PreferredMarkers)
    ensures p <= |text| && SplitRequiredPreferred(text) == (text, text[p..])
  {
    MarkerIndexNone(Lower(text), RequiredMarkers);
    MarkerIndexSome(Lower(text), PreferredMarkers, p);
  }

  /** Only a required marker: the required part runs from the marker, the preferred part is empty. */
  lemma SplitOnlyRequired(text: string, q: nat)
    requires FirstMarker(Lower(text), q, RequiredMarkers) && NoMarker(Lower(text), PreferredMarkers)
    ensures q <= |text| && SplitRequiredPreferred(text) == (text[q..], [])
  {
    MarkerIndexSome(Lower(text), RequiredMarkers, q);
    MarkerIndexNone(Lower(text), PreferredMarkers);
  }

  /**
   * A required marker before the first preferred one: the required part runs
   * up to the preferred marker and the preferred part to the end, so the two
   * together are the text from the required marker on.
   */
  lemma SplitRequiredFirst(text: string, q: nat, p: nat)
    requires FirstMarker(Lower(text), q, RequiredMarkers) && FirstMarker(Lower(text), p, PreferredMarkers)
    requires q < p
    ensures p <= |text|
    ensures SplitRequiredPreferred(text) == (text[q..p], text[p..])
    ensures SplitRequiredPreferred(text).0 + SplitRequiredPreferred(text).1 == text[q..]
  {
    MarkerIndexSome(Lower(text), RequiredMarkers, q);
    MarkerIndexSome(Lower(text), PreferredMarkers, p);
    SplitAtBoth(text, q, p);
    SliceJoin(text, q, p);
  }

  /**
   * A preferred marker before the first required one: the preferred part
   * runs up to the required marker and the required part to the end.
   */
  lemma SplitPreferredFirst(text: string, q: nat, p: nat)
    requires FirstMarker(Lower(text), q, RequiredMarkers) && FirstMarker(Lower(text), p, PreferredMarkers)
    requires p < q
    ensures q <= |text|
    ensures SplitRequiredPreferred(text) == (text[q..], text[p..q])
    ensures SplitRequiredPreferred(text).1 + SplitRequiredPreferred(text).0 == text[p..]
  {
    MarkerIndexSome(Lower(text), RequiredMarkers, q);
    MarkerIndexSome(Lower(text), PreferredMarkers, p);
    SplitAtBoth(text, q, p);
    SliceJoin(text, p, q);
  }

  lemma SplitAtBoth(text: string, q: nat, p: nat)
    requires MarkerIndex(Lower(text), RequiredMarkers) == Some(q)
    requires MarkerIndex(Lower(text), PreferredMarkers) == Some(p)
    ensures q <= |text| && p <= |text|
    ensures SplitRequiredPreferred(text) == SplitAt(text, Some(q), Some(p))
  {
    assert |Lower(text)| == |text|;
  }

  lemma SliceJoin(s: string, a: nat, b: nat)
    requires a <= b <= |s|
    ensures s[a..b] + s[b..] == s[a..]
  {
  }

  /** No required marker and no preferred marker can start at the same place. */
  lemma MarkersApart(s: string, i: nat)
    ensures !(MarkerAt(s, i, RequiredMarkers) && MarkerAt(s, i, PreferredMarkers))
  {
    if MarkerAt(s, i, RequiredMarkers) {
      var k :| 0 <= k < |RequiredMarkers| && MatchesAt(s, i, RequiredMarkers[k], Word);
      var c := Lower(s[i..i + |RequiredMarkers[k]|])[0];
      assert c == 'r' || c == 'm';
      forall l | 0 <= l < |PreferredMarkers| ensures !MatchesAt(s, i, PreferredMarkers[l], Word) {
        if i + |PreferredMarkers[l]| <= |s| {
          var w := PreferredMarkers[l];
          assert Lower(s[i..i + |w|])[0] == LowerChar(s[i]) == c;
        }
      }
    }
  }

  // ---------------------------------------------------------------------
  // Role keywords
  // ---------------------------------------------------------------------

  /** The characters `[a-zA-Z0-9+\- ]` that survive the substitution. */
  predicate IsKeptChar(c: char) {
    IsLowerLetter(c) || IsUpper(c) || IsDigit(c) || c == '+' || c == '-' || c == ' '
  }

  /** Length of the run of characters outside the kept class at the start of `s`. */
  function DroppedRun(s: string): (n: nat)
    ensures n <= |s|
    ensures forall i :: 0 <= i < n ==> !IsKeptChar(s[i])
    ensures n < |s| ==> IsKeptChar(s[n])
  {
    if |s| > 0 && !IsKeptChar(s[0]) then 1 + DroppedRun(s[1..]) else 0
  }

  /** Each maximal run of characters outside the kept class becomes one space. */
  function ScrubRole(s: string): (r: string)
    ensures forall c :: c in r ==> IsKeptChar(c) && (c in s || c == ' ')
    decreases |s|
  {
    if s == [] then []
    else if IsKeptChar(s[0]) then
      var rest := ScrubRole(s[1..]);
      assert forall c :: c in rest ==> c in s || c == ' ';
      [s[0]] + rest
    else
      var n := DroppedRun(s);
      var rest := ScrubRole(s[n..]);
      assert forall c :: c in rest ==> c in s || c == ' ';
      [' '] + rest
  }

  /** Text made only of kept characters passes through the substitution unchanged. */
  lemma {:induction false} ScrubRoleFixes(s: string)
    requires forall i :: 0 <= i < |s| ==> IsKeptChar(s[i])
    ensures ScrubRole(s) == s
    decreases |s|
  {
    if s != [] {
      ScrubRoleFixes(s[1..]);
      assert [s[0]] + s[1..] == s;
    }
  }

  predicate IsDropped(c: char) { !IsKeptChar(c) }

  /** Helper: the substitution is `SpaceRuns` at the class `[^a-zA-Z0-9+\- ]`, so the generic run facts apply to it. */
  lemma {:induction false} ScrubRoleRuns(s: string)
    ensures ScrubRole(s) == SpaceRuns(s, IsDropped)
    decreases |s|
  {
    if s != [] {
      if IsKeptChar(s[0]) {
        ScrubRoleRuns(s[1..]);
      } else {
        assert DroppedRun(s) == RunLen(s, IsDropped);
        ScrubRoleRuns(s[DroppedRun(s)..]);
      }
    }
  }

  /** Cut anywhere except inside a run of dropped characters, and each side is scrubbed on its own. */
  lemma ScrubRoleSplits(a: string, b: string)
    requires a == [] || b == [] || IsKeptChar(a[|a| - 1]) || IsKeptChar(b[0])
    ensures ScrubRole(a + b) == ScrubRole(a) + ScrubRole(b)
  {
    ScrubRoleRuns(a + b);
    ScrubRoleRuns(a);
    ScrubRoleRuns(b);
    SpaceRunsAppend(a, b, IsDropped);
  }

  /** A whole run of dropped characters becomes one space. */
  lemma ScrubRoleOfRun(u: string)
    requires u != [] && forall i :: 0 <= i < |u| ==> !IsKeptChar(u[i])
    ensures ScrubRole(u) == " "
  {
    ScrubRoleRuns(u);
    SpaceRunsOfRun(u, IsDropped);
  }

  /** Every kept character other than a space survives, in order. */
  lemma ScrubRoleKeeps(s: string)
    ensures Filter(ScrubRole(s), Outside(IsDropped)) == Filter(s, Outside(IsDropped))
  {
    ScrubRoleRuns(s);
    SpaceRunsKeeps(s, IsDropped);
  }

  /** The 23 words of the `stop` set. */
  const StopWords: set<string> := {
    "and", "or", "the", "a", "to", "of", "in", "for", "with", "on", "we", "you",
    "will", "be", "is", "are", "as", "an", "at", "from", "by", "this", "that"
  }

  predicate LengthOk(t: string) { 2 <= |t| <= 24 }

  predicate NotStop(t: string) { t !in StopWords }

  /** `keywords`: the tokens of the scrubbed, lowercased text of length 2 to 24 that are not stop words. */
  function Keywords(text: string): seq<string> {
    Filter(Filter(SplitWs(ScrubRole(Lower(text))), LengthOk), NotStop)
  }

  /** What `_extract_role_keywords` returns: the first 25 distinct keywords, in order of first appearance. */
  function RoleKeywords(text: string): seq<string> {
    Take(FirstSeen(Keywords(text)), 25)
  }

  /** A keyword character: a lowercase ASCII letter, a digit, `+` or `-`. */
  predicate IsKeywordChar(c: char) {
    IsLowerLetter(c) || IsDigit(c) || c == '+' || c == '-'
  }

  /** Every keyword is 2 to 24 keyword characters long and is not a stop word. */
  lemma KeywordsShape(text: string)
    ensures forall k :: 0 <= k < |Keywords(text)| ==>
      var w := Keywords(text)[k];
      LengthOk(w) && NotStop(w) && forall c :: c in w ==> IsKeywordChar(c)
  {
    var lower := Lower(text);
    LowerIsLowercase(text);
    var t := ScrubRole(lower);
    var tokens := SplitWs(t);
    var long := Filter(tokens, LengthOk);
    forall k | 0 <= k < |Keywords(text)|
      ensures forall c :: c in Keywords(text)[k] ==> IsKeywordChar(c)
    {
      var w := Keywords(text)[k];
      assert w in long;
      assert w in tokens;
      var j :| 0 <= j < |tokens| && tokens[j] == w;
      assert IsTokenOf(w, t);
      forall c | c in w ensures IsKeywordChar(c) {
        assert c in t && c != ' ';
        assert c in lower;
        var i :| 0 <= i < |lower| && lower[i] == c;
        assert LowerChar(lower[i]) == lower[i];
      }
    }
  }

  /** The first-seen list of a prefix is a prefix of the first-seen list of the whole. */
  lemma {:induction false} FirstSeenPrefix<T>(s: seq<T>, n: nat)
    requires n <= |s|
    ensures FirstSeen(s[..n]) <= FirstSeen(s)
    decreases |s| - n
  {
    if n < |s| {
      var init := s[..|s| - 1];
      assert init[..n] == s[..n];
      FirstSeenPrefix(init, n);
    } else {
      assert s[..n] == s;
    }
  }

  /** The loop of `_extract_role_keywords`: the `seen` set and the early `break` at 25. */
  method FirstDistinct(keywords: seq<string>) returns (out: seq<string>)
    ensures out == Take(FirstSeen(keywords), 25)
  {
    var seen: set<string> := {};
    out := [];
    var i := 0;
    while i < |keywords|
      invariant 0 <= i <= |keywords|
      invariant out == FirstSeen(keywords[..i])
      invariant forall x :: x in seen <==> x in out
      invariant |out| < 25
    {
      var kw := keywords[i];
      assert keywords[..i + 1][..i] == keywords[..i];
      if kw !in seen {
        seen := seen + {kw};
        out := out + [kw];
      }
      i := i + 1;
      if |out| >= 25 {
        FirstSeenPrefix(keywords, i);
        return;
      }
    }
    assert keywords[..i] == keywords;
  }

  /** `_extract_role_keywords`. */
  method ExtractRoleKeywords(text: string) returns (out: seq<string>)
    ensures out == RoleKeywords(text)
  {
    out := FirstDistinct(Keywords(text));
  }

  /** The role keywords are distinct, at most 25, and each is a keyword of the text. */
  lemma RoleKeywordsFacts(text: string)
    ensures var r := RoleKeywords(text);
      && NoDup(r) && |r| <= 25
      && forall k :: 0 <= k < |r| ==>
        var w := r[k];
        w in Keywords(text) && LengthOk(w) && NotStop(w) && forall c :: c in w ==> IsKeywordChar(c)
  {
    var f := FirstSeen(Keywords(text));
    FirstSeenFacts(Keywords(text));
    KeywordsShape(text);
    var r := RoleKeywords(text);
    assert forall k :: 0 <= k < |r| ==> r[k] == f[k];
    forall k | 0 <= k < |r| ensures r[k] in Keywords(text) {
      assert f[k] in f;
    }
  }

  // ---------------------------------------------------------------------
  // Experience level
  // ---------------------------------------------------------------------

  /** Length of the run of ASCII digits starting at `i`. */
  function DigitRun(s: string, i: nat): (n: nat)
    requires i <= |s|
    ensures i + n <= |s|
    ensures forall j :: i <= j < i + n ==> IsDigit(s[j])
    ensures i + n < |s| ==> !IsDigit(s[i + n])
    decreases |s| - i
  {
    if i < |s| && IsDigit(s[i]) then 1 + DigitRun(s, i + 1) else 0
  }

  /** Length of the run of whitespace starting at `i`. */
  function SpaceRun(s: string, i: nat): (n: nat)
    requires i <= |s|
    ensures i + n <= |s|
    ensures forall j :: i <= j < i + n ==> IsSpace(s[j])
    ensures i + n < |s| ==> !IsSpace(s[i + n])
    decreases |s| - i
  {
    if i < |s| && IsSpace(s[i]) then 1 + SpaceRun(s, i + 1) else 0
  }

  /** The value of a string of decimal digits (`int(...)`). */
  function DigitsValue(d: string): nat
    requires forall i :: 0 <= i < |d| ==> IsDigit(d[i])
  {
    if d == [] then 0
    else
      assert IsDigit(d[|d| - 1]);
      10 * DigitsValue(d[..|d| - 1]) + (d[|d| - 1] as int - '0' as int)
  }

  /** No word character at `i` (the `\b` after a word character). */
  predicate EndsWord(s: string, i: nat) {
    i >= |s| || !IsWordChar(s[i])
  }

  /**
   * `\b(\d+)\+?\s+years?\b` matches at `i`. Backtracking cannot help
   * any quantifier: fewer digits leave a digit where `+` or whitespace is
   * needed, skipping a present `+` leaves it where whitespace is needed,
   * fewer spaces leave one where `y` is needed, and dropping a present `s`
   * leaves a word character right after `year`.
   */
  predicate YearsMatchAt(s: string, i: nat) {
    && i < |s|
    && (i == 0 || !IsWordChar(s[i - 1]))
    && var d := DigitRun(s, i);
    && d > 0
    && var j := if i + d < |s| && s[i + d] == '+' then i + d + 1 else i + d;
    && var w := SpaceRun(s, j);
    && w > 0
    && var k := j + w;
    && k + 4 <= |s| && s[k..k + 4] == "year"
    && ((k + 4 < |s| && s[k + 4] == 's' && EndsWord(s, k + 5)) || EndsWord(s, k + 4))
  }

  /** The number captured by `(\d+)` in a match at `i`. */
  function YearsAt(s: string, i: nat): nat
    requires i <= |s|
  {
    DigitsValue(s[i..i + DigitRun(s, i)])
  }

  /** `re.search`: the start of the leftmost match at or after `from`. */
  function FirstYearsMatch(s: string, from: nat): (r: Option<nat>)
    ensures r.Some? ==> from <= r.value < |s|
    decreases |s| - from
  {
    if from >= |s| then None
    else if YearsMatchAt(s, from) then Some(from)
    else FirstYearsMatch(s, from + 1)
  }

  /** The search finds the leftmost match at or after `from`, and none when there is none. */
  lemma {:induction false} FirstYearsMatchLeftmost(s: string, from: nat)
    ensures var r := FirstYearsMatch(s, from);
      && (r.Some? ==> YearsMatchAt(s, r.value) && forall j :: from <= j < r.value ==> !YearsMatchAt(s, j))
      && (r.None? ==> forall j :: from <= j ==> !YearsMatchAt(s, j))
    decreases |s| - from
  {
    if from < |s| && !YearsMatchAt(s, from) {
      FirstYearsMatchLeftmost(s, from + 1);
      var r := FirstYearsMatch(s, from + 1);
      assert FirstYearsMatch(s, from) == r;
      forall j | from <= j && (r.None? || j < r.value) ensures !YearsMatchAt(s, j) {
        if j == from {
          assert !YearsMatchAt(s, from);
        } else {
          assert from + 1 <= j;
        }
      }
    }
  }

  /** `"entry"`, `"mid"` and `"senior"`. */
  datatype Level = EntryLevel | MidLevel | SeniorLevel

  function LevelOf(years: nat): Level {
    if years <= 2 then EntryLevel else if years <= 5 then MidLevel else SeniorLevel
  }

  function Rank(l: Level): nat {
    match l
    case EntryLevel => 0
    case MidLevel => 1
    case SeniorLevel => 2
  }

  /** `_extract_experience_level`. */
  function ExperienceLevel(text: string): Option<Level> {
    var s := Lower(text);
    match FirstYearsMatch(s, 0)
    case None => None
    case Some(i) => Some(LevelOf(YearsAt(s, i)))
  }

  /** More years never give a lower level, and the thresholds sit at 2 and 5. */
  lemma LevelMonotone(a: nat, b: nat)
    requires a <= b
    ensures Rank(LevelOf(a)) <= Rank(LevelOf(b))
    ensures LevelOf(a) == EntryLevel <==> a <= 2
    ensures LevelOf(b) == SeniorLevel <==> b > 5
  {
  }

  /**
   * There is a level exactly when some "N years" phrase occurs, and it is
   * the level of the number in the leftmost such phrase.
   */
  lemma ExperienceLevelOfFirstPhrase(text: string)
    ensures var s := Lower(text);
      && (ExperienceLevel(text).None? <==> forall i :: !YearsMatchAt(s, i))
      && (ExperienceLevel(text).Some? ==>
            exists i: nat :: YearsMatchAt(s, i) && (forall j :: 0 <= j < i ==> !YearsMatchAt(s, j))
              && ExperienceLevel(text) == Some(LevelOf(YearsAt(s, i))))
  {
    FirstYearsMatchLeftmost(Lower(text), 0);
  }

  /** "5+ years" reads as five years: a mid-level role. */
  lemma FiveYearsIsMid()
    ensures ExperienceLevel("5+ years") == Some(MidLevel)
  {
    var s := "5+ years";
    assert IsLowercase(s) by {
      forall i | 0 <= i < |s| ensures LowerChar(s[i]) == s[i] {
        assert !IsUpper(s[i]);
      }
    }
    LowercaseFixed(s);
    FiveYearsPhrase();
    assert FirstYearsMatch(s, 0) == Some(0);
  }

  lemma FiveYearsPhrase()
    ensures YearsMatchAt("5+ years", 0) && YearsAt("5+ years", 0) == 5
  {
    var s := "5+ years";
    assert DigitRun(s, 1) == 0;
    assert DigitRun(s, 0) == 1;
    assert YearsAt(s, 0) == 5 by {
      assert s[0..1] == "5";
      assert "5"[..0] == "";
    }
    assert s[1] == '+' && s[2] == ' ' && s[3] != ' ';
    assert SpaceRun(s, 3) == 0;
    assert SpaceRun(s, 2) == 1;
    assert s[3..7] == "year";
    assert s[7] == 's' && EndsWord(s, 8);
  }

  /** "10 years" reads as ten years: a senior role. */
  lemma TenYearsIsSenior()
    ensures ExperienceLevel("10 years") == Some(SeniorLevel)
  {
    var s := "10 years";
    assert IsLowercase(s) by {
      forall i | 0 <= i < |s| ensures LowerChar(s[i]) == s[i] {
        assert !IsUpper(s[i]);
      }
    }
    LowercaseFixed(s);
    TenYearsPhrase();
    assert FirstYearsMatch(s, 0) == Some(0);
  }

  lemma TenYearsPhrase()
    ensures YearsMatchAt("10 years", 0) && YearsAt("10 years", 0) == 10
  {
    var s := "10 years";
    assert DigitRun(s, 2) == 0;
    assert DigitRun(s, 1) == 1;
    assert DigitRun(s, 0) == 2;
    assert YearsAt(s, 0) == 10 by {
      assert s[0..2] == "10";
      assert "10"[..1] == "1";
      assert "1"[..0] == "";
    }
    assert s[2] == ' ' && s[3] != ' ';
    assert SpaceRun(s, 3) == 0;
    assert SpaceRun(s, 2) == 1;
    assert s[3..7] == "year";
    assert s[7] == 's' && EndsWord(s, 8);
  }

  // ---------------------------------------------------------------------
  // process_job_description
  // ---------------------------------------------------------------------

  datatype JobDescriptionSignals = JobDescriptionSignals(
    rawText: string,
    cleanedText: string,
    requiredSkills: seq<string>,
    preferredSkills: seq<string>,
    roleKeywords: seq<string>,
    experienceLevel: Option<Level>)

  /** `extract_skills` applied to `text` produced exactly `skills`. */
  ghost predicate SkillsOf(skills: seq<string>, text: string, tax: Taxonomy, order: TaxonomyOrder)
    requires Enumerates(tax, order)
  {
    StrictlySorted(skills) && forall s :: s in skills <==> s in SkillNames(SkillsWithConfidence(text, tax, order, 2))
  }

  /** `process_job_description` (the text is never `None` here). */
  method ProcessJobDescription(jdText: string, tax: Taxonomy, order: TaxonomyOrder) returns (sig: JobDescriptionSignals)
    requires Enumerates(tax, order)
    ensures sig.rawText == jdText && sig.cleanedText == CleanText(jdText)
    ensures SkillsOf(sig.requiredSkills, CleanText(SplitRequiredPreferred(jdText).0), tax, order)
    ensures SkillsOf(sig.preferredSkills, CleanText(SplitRequiredPreferred(jdText).1), tax, order)
    ensures NoMarker(Lower(jdText), PreferredMarkers) ==> sig.preferredSkills == []
    ensures sig.roleKeywords == RoleKeywords(jdText)
    ensures sig.experienceLevel == ExperienceLevel(jdText)
  {
    var cleaned := CleanText(jdText);
    var (requiredSlice, preferredSlice) := SplitRequiredPreferred(jdText);
    MarkerIndexNone(Lower(jdText), PreferredMarkers);
    var required := ExtractSkills(CleanText(requiredSlice), tax, order);
    var preferred := ExtractSkills(CleanText(preferredSlice), tax, order);
    var roles := ExtractRoleKeywords(jdText);
    sig := JobDescriptionSignals(jdText, cleaned, required, preferred, roles, ExperienceLevel(jdText));
  }
}
