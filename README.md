# Resume/job matcher core in Dafny

This project models the matching and scoring engine of a resume/job matcher and proves properties of it. The engine is a chain of deterministic text-and-set computations:

- **Text normalizer** (`clean_text`). It turns raw extracted text into a stable form:
  - CR LF and lone CR become newlines;
  - control characters are dropped;
  - hyphenated line breaks are joined;
  - a lone newline becomes a space;
  - runs of blanks and runs of newlines are collapsed;
  - both ends are trimmed.
- **Skill taxonomy and extractor**:
  - `SkillTaxonomy.normalize`;
  - the pattern table built from canonical names, aliases and variations;
  - case-insensitive whole-word matching, grouped by skill;
  - a bounded confidence formula;
  - the sort by confidence and name;
  - `extract_skills`;
  - the education and experience line filters.
- **Job-description signals**. They consist of:
  - the required/preferred section split;
  - role keywords;
  - the years-to-seniority map;
  - `process_job_description`.
- **Skill gap**: matching, missing-required and nice-to-have skills, lowercased and sorted.
- **ATS heuristics**. They consist of:
  - matched/missing partitions;
  - coverage percentages;
  - four section headings;
  - red flags and recommendations;
  - a weighted overall score.
- **Evidence extraction**: sentence splitting, and for each skill a bounded list of the sentences that mention it.
- **Score fusion**:
  - the similarity-to-percentage maps;
  - the weighted skill-overlap score;
  - weight normalization with its 0.65/0.35 fallback;
  - the final blended score.
- **Vector store**. It is an id list and a row-aligned list of vectors:
  - `add` updates them in place (append or overwrite);
  - `search` is the linear-scan top-k of the numpy path.

## How it is modelled

Each core source file has one module, except app/services/nlp/skill_extraction.py, which is split into three: `SkillTaxonomy` (its taxonomy class at skill_extraction.py:9-34 and the default data at skill_extraction.py:44-121), `SkillExtraction` (pattern table, matching, confidence and sorting) and `ResumeLines` (the education and experience line filters at skill_extraction.py:239-261). The other modules are `Cleaning`, `JdProcessor`, `SkillGap`, `AtsChecks`, `Evidence`, `Scoring` and `VectorStore`, one per file. Four helper modules support them:

- `Text`: character classes, lowercasing, strip, whitespace collapse, split, and literal pattern search with boundary classes.
- `Seqs`: slicing with Python's negative-index rule, order-preserving de-duplication, filtering, string order and sorting.
- `Numeric`: `max(1, n)`, clamping, and rounding half to even.
- `Wrappers`: `Option` and `Result`.

Pure code (the cleaning stages, normalization, the gap, the scores) is modelled as functions and lemmas. Code that fills lists and dicts in loops is modelled as methods proved equal to a specification function:

- the pattern table, the match groups, the context boost and the result list;
- the line filters;
- the role-keyword loop with its early `break`;
- the section loop;
- sentence splitting and the evidence loops.

The vector store is a class whose `add` method changes its fields.

Regular expressions are modelled as scans over character-class predicates. `\b` next to an alternation whose alternatives all begin and end with a word character is read as "no word character on that side". Python float arithmetic is modelled over exact reals. `round(x, n)` is exact rounding half to even.

## Model

| member | source | states |
|---|---|---|
| Text.Lower | app/services/ats/ats_checks.py:44 | lowercasing keeps the length of the string |
| Text.LowerIsLowercase | app/services/gap/skill_gap.py:18-20 | a lowercased string has no uppercase letter |
| Text.LowerAllTwice | app/services/gap/skill_gap.py:18-20 | lowercasing a list twice is the same as lowercasing it once |
| Text.Strip | resume_job_matcher/app/services/nlp/cleaning.py:33 | the stripped string has no whitespace at either end and is the slice between the leading and trailing whitespace runs |
| Text.StripIdempotent | resume_job_matcher/app/services/nlp/cleaning.py:33 | stripping twice is stripping once |
| Text.StripEmpty | app/services/ats/ats_checks.py:49 | stripping gives the empty string exactly for empty or all-whitespace input |
| Text.CollapseWsSplits | app/services/explainability/evidence.py:16 | collapsing distributes over a concatenation whose cut does not fall inside a whitespace run |
| Text.CollapseWsOfRun | app/services/explainability/evidence.py:16 | a non-empty whitespace run collapses to exactly one space |
| Text.CollapseWsKeeps | app/services/explainability/evidence.py:16 | the non-whitespace characters come out unchanged, none added or dropped, in their order |
| Text.NormShape | app/services/ats/ats_checks.py:7-8 | `_norm` gives a stripped, lowercase string whose only whitespace is single spaces |
| Text.NormIdempotent | app/services/ats/ats_checks.py:7-8 | `_norm` applied twice is `_norm` applied once |
| Text.NormBlank | app/services/ats/ats_checks.py:12-14 | `_norm` is empty exactly for empty or all-whitespace input, which `_contains_term` and `is_present` reject |
| Text.SplitWsReassembles | app/services/ats/ats_checks.py:80 | `split()` cuts the text into tokens and gaps: interleaving the gaps with the tokens gives the text back, every gap is whitespace, every gap between two tokens is non-empty, and every token is a non-empty whitespace-free piece of the input |
| Text.SplitLinesReassembles | app/services/nlp/skill_extraction.py:242 | `splitlines()` gives no line exactly for the empty text; each line followed by its terminator gives the text back; every terminator but the last is a line break or CR LF, and the last is one too or empty after a non-empty final line; a CR is never followed by an empty line ended by LF (that pair is one CR LF terminator); no line holds a line-break character |
| Text.FirstMatch | resume_job_matcher/app/services/jd/jd_processor.py:32-33 | the search returns the leftmost boundary-respecting case-insensitive match at or after the start, or none exactly when nothing matches |
| Text.MentionsIff | app/services/ats/ats_checks.py:18-19 | a search succeeds exactly when a match exists somewhere |
| Text.FirstMatchAny | resume_job_matcher/app/services/jd/jd_processor.py:20-21 | the search of an alternation returns the leftmost position where some alternative matches, or none when none does |
| Text.FindAllMatches | app/services/nlp/skill_extraction.py:178 | every position `finditer` yields for a literal is a case-insensitive, word-bounded match at or after the start |
| Text.FindAllOrdered | app/services/nlp/skill_extraction.py:178 | the matches come in ascending order and do not overlap |
| Text.FindAllFirst | app/services/nlp/skill_extraction.py:178 | `finditer` yields nothing exactly when `re.search` finds nothing; otherwise its first match is the leftmost one |
| Text.FindAllComplete | app/services/nlp/skill_extraction.py:178 | no match is skipped: every match at or after the start is yielded or lies inside a yielded match |
| Seqs.FirstSeenFacts | app/services/nlp/skill_extraction.py:194 | `dict.fromkeys` de-duplication: no repetitions, the same elements, first-occurrence order |
| Seqs.Take | app/services/nlp/skill_extraction.py:194 | `s[:n]` is a prefix of `s`; its length is `min(n, len(s))` for `n >= 0` and `max(0, len(s) + n)` for negative `n` |
| Seqs.StrictlySortedUnique | app/services/gap/skill_gap.py:22-24 | `sorted(set)` is well defined: two ascending repetition-free lists with the same elements are equal |
| Seqs.SortStrings | app/services/nlp/skill_extraction.py:134 | `sorted` returns an ascending permutation of its input |
| Seqs.SortedSet | app/services/gap/skill_gap.py:22-24 | `sorted({...})` is strictly ascending with exactly the set's elements |
| Numeric.Max1 | app/services/ats/ats_checks.py:60-61 | `max(1, n)` is at least 1 and at least `n`, and is `n` when `n` is positive |
| Numeric.Clamp | resume_job_matcher/app/services/scoring/scoring.py:19 | `max(lo, min(hi, x))` lies in `[lo, hi]`, is `x` inside it and the nearer end outside it |
| Numeric.ClampMonotone | resume_job_matcher/app/services/scoring/scoring.py:19 | clamping preserves order |
| Numeric.RoundToInt | resume_job_matcher/app/services/scoring/scoring.py:23 | the rounded integer is within one half of its argument |
| Numeric.Round2Within | resume_job_matcher/app/services/scoring/scoring.py:23 | `round(x, 2)` keeps a value inside bounds that are multiples of 0.01 |
| Numeric.Round2Monotone | resume_job_matcher/app/services/scoring/scoring.py:23 | `round(x, 2)` preserves order |
| Numeric.Round2OnGrid | resume_job_matcher/app/services/scoring/scoring.py:23 | `round(x, 2)` is a multiple of 0.01 |
| Numeric.Round2FixesGrid | resume_job_matcher/app/services/scoring/scoring.py:23 | a multiple of 0.01 is unchanged by `round(x, 2)` |
| Numeric.Round1Within | app/services/nlp/skill_extraction.py:228 | `round(x, 1)` keeps a value inside bounds that are multiples of 0.1 |
| Cleaning.ReplaceCrLfAppend | resume_job_matcher/app/services/nlp/cleaning.py:22 | replacing CR LF distributes over a concatenation whose cut does not split a CR LF pair |
| Cleaning.ReplaceCrLfNoPair | resume_job_matcher/app/services/nlp/cleaning.py:22 | text without a CR LF pair is unchanged |
| Cleaning.ReplaceCr | resume_job_matcher/app/services/nlp/cleaning.py:22 | after replacing CR the text has the same length, no carriage return, and only newlines are new |
| Cleaning.RemoveControlFilters | resume_job_matcher/app/services/nlp/cleaning.py:23 | removing control characters is the filter that keeps exactly the characters outside 0x00-0x08, 0x0B, 0x0C, 0x0E-0x1F, in order |
| Cleaning.DehyphenateChars | resume_job_matcher/app/services/nlp/cleaning.py:26 | dehyphenation introduces no new character |
| Cleaning.DehyphenateJoins | resume_job_matcher/app/services/nlp/cleaning.py:26 | at any position, a word character, `-`, newline, word character becomes the two word characters joined, and the text before and after is dehyphenated on its own, provided no earlier hyphen break ends right before it |
| Cleaning.DehyphenateAppend | resume_job_matcher/app/services/nlp/cleaning.py:26 | dehyphenation distributes over a concatenation with no hyphen break across the cut |
| Cleaning.DehyphenateFixes | resume_job_matcher/app/services/nlp/cleaning.py:26 | text with no word character, `-`, newline, word character sequence is unchanged |
| Cleaning.LoneNewlinesToSpaces | resume_job_matcher/app/services/nlp/cleaning.py:29 | a lone newline becomes a space; the length is kept and no other character is introduced |
| Cleaning.LoneNewlinesPointwise | resume_job_matcher/app/services/nlp/cleaning.py:29 | character by character, exactly the newlines with no newline on either side become spaces and everything else is kept |
| Cleaning.LoneNewlinesRuns | resume_job_matcher/app/services/nlp/cleaning.py:29 | after that stage every newline sits in a run of at least two |
| Cleaning.CollapseBlanksSplits | resume_job_matcher/app/services/nlp/cleaning.py:31 | collapsing blanks distributes over a concatenation whose cut does not fall inside a run of spaces and tabs |
| Cleaning.CollapseBlanksOfRun | resume_job_matcher/app/services/nlp/cleaning.py:31 | a non-empty run of spaces and tabs becomes one space |
| Cleaning.CollapseBlanksKeeps | resume_job_matcher/app/services/nlp/cleaning.py:31 | the characters other than spaces and tabs come out unchanged, in order |
| Cleaning.CollapseBlanksSpacing | resume_job_matcher/app/services/nlp/cleaning.py:31 | after collapsing there are never two spaces in a row |
| Cleaning.CollapseNewlinesAppend | resume_job_matcher/app/services/nlp/cleaning.py:32 | collapsing newline runs distributes over a concatenation whose cut does not fall inside a newline run |
| Cleaning.CollapseNewlinesOfRun | resume_job_matcher/app/services/nlp/cleaning.py:32 | a run of three or more newlines becomes two; a run of one or two is kept |
| Cleaning.CollapseNewlinesKeeps | resume_job_matcher/app/services/nlp/cleaning.py:32 | the characters other than newlines come out unchanged, in order |
| Cleaning.CollapseNewlinesChars | resume_job_matcher/app/services/nlp/cleaning.py:32 | collapsing newline runs introduces no new character |
| Cleaning.CollapseNewlinesShape | resume_job_matcher/app/services/nlp/cleaning.py:32 | runs of at least two newlines become runs of exactly two, with the spacing kept |
| Cleaning.CarriageReturnsBecomeNewlines | resume_job_matcher/app/services/nlp/cleaning.py:22 | at any position, the line-ending stage turns a CR LF pair into one newline and a CR not followed by LF into one newline, treating the text on each side on its own; text without a CR is unchanged |
| Cleaning.PrepareCharacters | resume_job_matcher/app/services/nlp/cleaning.py:22-26 | after the first three stages there is no carriage return and no control character |
| Cleaning.ReflowShape | resume_job_matcher/app/services/nlp/cleaning.py:29-32 | the last three stages leave no tab, no double space, and newlines only in pairs |
| Cleaning.CleanTextIsClean | resume_job_matcher/app/services/nlp/cleaning.py:19-33 | the output has no carriage return, control character or tab, no two spaces in a row, every newline in a run of exactly two, and nothing to strip |
| Cleaning.CleanTextFixesClean | resume_job_matcher/app/services/nlp/cleaning.py:19-33 | text already in the stable form, the empty text included, comes back unchanged |
| Cleaning.CleanTextIdempotent | resume_job_matcher/app/services/nlp/cleaning.py:19-33 | cleaning twice is cleaning once |
| SkillTaxonomy.FindVariation | app/services/nlp/skill_extraction.py:26-29 | returns the first variation key, in iteration order, whose name or variation equals the lowercased input, and none exactly when no key matches |
| SkillTaxonomy.NormalizeCases | app/services/nlp/skill_extraction.py:20-33 | `normalize` gives the alias target when the trimmed lowercased input is an alias, otherwise the first matching variation key, otherwise the trimmed lowercased input itself |
| SkillTaxonomy.NormalizeCanonical | app/services/nlp/skill_extraction.py:20-33 | under a well-formed taxonomy the result is canonical exactly when the input is a canonical name, an alias or a variation |
| SkillTaxonomy.NormalizeLowercase | app/services/nlp/skill_extraction.py:20-33 | the result is lowercase when the taxonomy's targets are |
| SkillTaxonomy.DefaultWellFormed | app/services/nlp/skill_extraction.py:44-121 | every alias and variation list of `DEFAULT_TAXONOMY` points at a canonical name |
| SkillExtraction.TableOfLastWins | app/services/nlp/skill_extraction.py:155-172 | when several patterns share a key, the last assignment decides its entry |
| SkillExtraction.BuildPatternTable | app/services/nlp/skill_extraction.py:155-172 | the three loops fill the table with canonical names, then aliases, then variations, in iteration order |
| SkillExtraction.TableTargets | app/services/nlp/skill_extraction.py:155-172 | every table entry targets a canonical name, an alias target or a variation key |
| SkillExtraction.Snippet | app/services/nlp/skill_extraction.py:181-183 | a snippet is stripped and at most `(end - start) + 100` characters long |
| SkillExtraction.HitsFor | app/services/nlp/skill_extraction.py:177-187 | a pattern gives one record per `finditer` match, each under its entry's target and literal |
| SkillExtraction.CollectMatches | app/services/nlp/skill_extraction.py:175-187 | the matching loops group every record under its skill, in table order |
| SkillExtraction.GroupOfValid | app/services/nlp/skill_extraction.py:185-187 | `matches` lists each skill once with a non-empty list, and holds exactly the recorded skills |
| SkillExtraction.GroupOfLists | app/services/nlp/skill_extraction.py:187 | each skill's list holds all of its records in order, one per match even when several patterns match the same span |
| SkillExtraction.ComputeContextBoost | app/services/nlp/skill_extraction.py:216-222 | the loop adds two points per snippet among the first two that contains a technical indicator |
| SkillExtraction.ContextBoostBounds | app/services/nlp/skill_extraction.py:216-222 | the context boost is 0, 2 or 4 |
| SkillExtraction.ConfidenceBounds | app/services/nlp/skill_extraction.py:205-228 | the confidence of a found skill lies in [87, 100] (base 85 at least, one match adds 2, capped at 100) |
| SkillExtraction.SnippetsFacts | app/services/nlp/skill_extraction.py:194 | `source_snippets` has no repetitions, at most `max_snippets` of them when that is not negative, each from a record |
| SkillExtraction.SummarizeGroup | app/services/nlp/skill_extraction.py:192-231 | one result from a group: confidence from base, occurrence and context boosts, deduplicated snippets, first literal |
| SkillExtraction.SummarizeAll | app/services/nlp/skill_extraction.py:190-231 | the loop appends one result per group of `matches`, in order |
| SkillExtraction.SortResults | app/services/nlp/skill_extraction.py:234 | the sorted results are a permutation ordered by descending confidence, then ascending skill |
| SkillExtraction.MatchGroupsFrom | app/services/nlp/skill_extraction.py:175-187 | every grouped skill is the target of a pattern whose literal occurs in the text as a whole word |
| SkillExtraction.ExtractSkillsWithConfidence | app/services/nlp/skill_extraction.py:137-236 | the method computes the specified results, the empty text giving none |
| SkillExtraction.SkillsSorted | app/services/nlp/skill_extraction.py:151-236 | empty text gives no results; otherwise they are sorted by confidence, then name |
| SkillExtraction.SkillsDistinct | app/services/nlp/skill_extraction.py:175-192 | there is at most one result per skill |
| SkillExtraction.SkillsBounded | app/services/nlp/skill_extraction.py:194-228 | every confidence lies in [87, 100]; snippet lists are repetition-free and within `max_snippets` |
| SkillExtraction.MentionedGroup | app/services/nlp/skill_extraction.py:175-187 | a pattern whose literal occurs in the text as a whole word puts its skill among the groups |
| SkillExtraction.SkillsComplete | app/services/nlp/skill_extraction.py:151-236 | for a non-empty text, every pattern whose literal occurs as a whole word has its skill among the results |
| SkillExtraction.AliasEntry | app/services/nlp/skill_extraction.py:163-172 | an alias that no variation list repeats keeps its own entry: its canonical name, with the alias as the matched literal |
| SkillExtraction.AliasFound | app/services/nlp/skill_extraction.py:163-165 | an alias that no variation list repeats, found as a whole word in a non-empty text, brings its canonical name into the results |
| SkillExtraction.AliasAlone | app/services/nlp/skill_extraction.py:163-165 | for every non-empty alias that no variation list repeats, the results for the alias itself as the text include its canonical name |
| SkillExtraction.SkillsMatched | app/services/nlp/skill_extraction.py:175-192 | every result's skill is the target of a pattern whose literal occurs in the text, so it is canonical when the taxonomy is well formed |
| SkillExtraction.ExtractSkills | app/services/nlp/skill_extraction.py:124-134 | `extract_skills` is strictly ascending with exactly the skills of the results; empty text gives `[]` |
| ResumeLines.NonBlankLines | app/services/nlp/skill_extraction.py:242 | the candidate lines are non-empty and stripped |
| ResumeLines.KeepLines | app/services/nlp/skill_extraction.py:244-248 | the loop keeps the lines that pass the test, in order, then cuts to the cap |
| ResumeLines.LinesKept | app/services/nlp/skill_extraction.py:245-248 | the kept lines are at most the cap, each an input line that passes the test |
| ResumeLines.ExtractEducationLines | app/services/nlp/skill_extraction.py:239-248 | at most 20 stripped non-empty lines with an education keyword, in input order; empty text gives `[]` |
| ResumeLines.ExtractExperienceLines | app/services/nlp/skill_extraction.py:251-261 | at most 25 stripped non-empty lines with an experience keyword or year, in input order; empty text gives `[]` |
| ResumeLines.YearLineIsExperience | app/services/nlp/skill_extraction.py:256-259 | a year 19xx or 20xx between word boundaries keeps a line as experience |
| JdProcessor.MarkerIndex | resume_job_matcher/app/services/jd/jd_processor.py:32-37 | the marker index, when found, lies within the text |
| JdProcessor.MarkerIndexNone | resume_job_matcher/app/services/jd/jd_processor.py:32-37 | no index is found exactly when no marker occurs |
| JdProcessor.MarkerIndexSome | resume_job_matcher/app/services/jd/jd_processor.py:32-37 | the index found is exactly the first position where a marker occurs |
| JdProcessor.SplitNoMarkers | resume_job_matcher/app/services/jd/jd_processor.py:39-40 | with neither marker the split is `(text, "")` |
| JdProcessor.SplitOnlyPreferred | resume_job_matcher/app/services/jd/jd_processor.py:41-43 | with only a preferred marker the required part is the whole text and the preferred part runs from the marker |
| JdProcessor.SplitOnlyRequired | resume_job_matcher/app/services/jd/jd_processor.py:44-45 | with only a required marker the split is `(text[req:], "")` |
| JdProcessor.SplitRequiredFirst | resume_job_matcher/app/services/jd/jd_processor.py:47-48 | required before preferred: adjacent slices that together are `text[req:]` |
| JdProcessor.SplitPreferredFirst | resume_job_matcher/app/services/jd/jd_processor.py:47-49 | preferred before required: adjacent slices that together are `text[pref:]` |
| JdProcessor.MarkersApart | resume_job_matcher/app/services/jd/jd_processor.py:20-21 | no required and preferred marker start at the same place, so both-found splits are one of the two orders |
| JdProcessor.ScrubRoleSplits | resume_job_matcher/app/services/jd/jd_processor.py:55 | the substitution distributes over a concatenation with a kept character on one side of the cut |
| JdProcessor.ScrubRoleOfRun | resume_job_matcher/app/services/jd/jd_processor.py:55 | a non-empty run of dropped characters becomes one space |
| JdProcessor.ScrubRoleKeeps | resume_job_matcher/app/services/jd/jd_processor.py:55 | the kept characters other than spaces come out unchanged, in order |
| JdProcessor.ScrubRoleFixes | resume_job_matcher/app/services/jd/jd_processor.py:55 | text made only of kept characters passes through unchanged |
| JdProcessor.KeywordsShape | resume_job_matcher/app/services/jd/jd_processor.py:55-82 | every keyword is 2 to 24 characters from `[a-z0-9+-]` and not a stop word |
| JdProcessor.FirstDistinct | resume_job_matcher/app/services/jd/jd_processor.py:84-91 | the loop with its `seen` set and early `break` keeps the first 25 distinct keywords in first-seen order |
| JdProcessor.ExtractRoleKeywords | resume_job_matcher/app/services/jd/jd_processor.py:52-92 | the method computes the specified role keywords |
| JdProcessor.RoleKeywordsFacts | resume_job_matcher/app/services/jd/jd_processor.py:55-92 | at most 25 role keywords without repetitions, each a keyword of 2 to 24 kept characters that is not a stop word |
| JdProcessor.FirstYearsMatchLeftmost | resume_job_matcher/app/services/jd/jd_processor.py:97 | the search returns the leftmost "N years" match at or after the start, or none when there is none |
| JdProcessor.LevelMonotone | resume_job_matcher/app/services/jd/jd_processor.py:101-105 | more years never give a lower level; entry is exactly up to 2 years, senior exactly above 5 |
| JdProcessor.ExperienceLevelOfFirstPhrase | resume_job_matcher/app/services/jd/jd_processor.py:95-105 | there is a level exactly when some "N years" phrase occurs, and it is the level of the leftmost one |
| JdProcessor.FiveYearsIsMid | resume_job_matcher/app/services/jd/jd_processor.py:97-104 | "5+ years" gives mid |
| JdProcessor.TenYearsIsSenior | resume_job_matcher/app/services/jd/jd_processor.py:97-105 | "10 years" gives senior |
| JdProcessor.ProcessJobDescription | resume_job_matcher/app/services/jd/jd_processor.py:108-132 | the signals: the raw and cleaned text, the sorted skills of the cleaned required and preferred slices (none preferred without a preferred marker), role keywords and level |
| SkillGap.SkillGapContents | app/services/gap/skill_gap.py:18-24 | three strictly ascending lists: matching = (required ∪ preferred) ∩ resume, missing = required − resume, nice-to-have = preferred − resume, all lowercased |
| SkillGap.RequiredPartition | app/services/gap/skill_gap.py:22-24 | each required skill is matched or missing and never both; nothing is both matched and nice-to-have |
| SkillGap.SkillGapIgnoresCase | app/services/gap/skill_gap.py:18-20 | lowercasing the inputs first changes nothing |
| SkillGap.SkillGapLowercase | app/services/gap/skill_gap.py:18-24 | every reported skill is lowercase |
| SkillGap.NoPreferredCoversRequired | app/services/gap/skill_gap.py:22-23 | with no preferred skills, matching and missing together are exactly the lowercased required skills |
| SkillGap.SkillGapByContents | app/services/gap/skill_gap.py:22-24 | the gap is determined by its contents: any three strictly ascending lists with those contents are it |
| SkillGap.SkillGapExample | app/services/gap/skill_gap.py:13-30 | resume [python, sql], required [python, aws], preferred [docker] gives [python], [aws], [docker] |
| AtsChecks.PresentCases | app/services/ats/ats_checks.py:45-53 | a blank skill is never present; one whose normalized form is a normalized resume skill always is |
| AtsChecks.PresentMonotone | app/services/ats/ats_checks.py:45-53 | listing one more resume skill never makes a present skill absent |
| AtsChecks.MatchedMissingPartition | app/services/ats/ats_checks.py:55-58 | matched and missing split the list, keeping order and repetitions; matched skills are present and missing ones are not |
| AtsChecks.CoverageBounds | app/services/ats/ats_checks.py:60-61 | a coverage lies in [0, 100], is 0 for an empty list and 100 when everything matches |
| AtsChecks.CoverageMonotoneInCount | app/services/ats/ats_checks.py:60-61 | more matches never lower a coverage |
| AtsChecks.SkillCoverageBounds | app/services/ats/ats_checks.py:55-61 | a list's coverage lies in [0, 100] and is 0 for an empty list |
| AtsChecks.CoverageMonotone | app/services/ats/ats_checks.py:47-61 | listing one more resume skill never lowers a coverage |
| AtsChecks.DetectSections | app/services/ats/ats_checks.py:64-76 | the loop puts each section's name into the present or the missing list, in the fixed order |
| AtsChecks.SectionNamesCount | app/services/ats/ats_checks.py:72-76 | present and missing together have one name per section |
| AtsChecks.SectionNamesMember | app/services/ats/ats_checks.py:72-76 | a section is listed as present exactly when its heading is found, and as missing exactly when it is not |
| AtsChecks.SectionsPartition | app/services/ats/ats_checks.py:64-76 | present and missing partition experience, education, skills and projects |
| AtsChecks.RedFlagsFacts | app/services/ats/ats_checks.py:79-85 | at most three flags; each is raised exactly when its own condition holds, the short-text flag first |
| AtsChecks.RecommendationsFacts | app/services/ats/ats_checks.py:88-94 | each recommendation is given exactly when its condition holds, in the order keywords, headings, coverage |
| AtsChecks.OverallBounds | app/services/ats/ats_checks.py:97-99 | the overall score lies in [0, 100], and for coverages in [0, 100] the clamp leaves the weighted sum alone |
| AtsChecks.OverallMonotone | app/services/ats/ats_checks.py:98-99 | a higher required coverage never lowers the overall score |
| AtsChecks.ComputeAtsReport | app/services/ats/ats_checks.py:37-113 | the report's lists, coverages, sections, flags, recommendations and overall score, with every score in [0, 100] |
| Evidence.PiecesReassemble | app/services/explainability/evidence.py:13 | `re.split` cuts the text at separators and nowhere else: interleaving the pieces with the separators gives the text back, every separator is a newline run, a whitespace run, a bullet or `- `, and no piece holds a newline or a bullet |
| Evidence.SplitSentences | app/services/explainability/evidence.py:10-21 | the loop keeps the tidied pieces of 15 to 700 characters, in order |
| Evidence.SentencesShape | app/services/explainability/evidence.py:13-20 | every sentence is 15 to 700 characters, stripped, with only single spaces, and has no newline or bullet |
| Evidence.SkillHitsFacts | app/services/explainability/evidence.py:48-53 | the hits for a skill are at most `max` (at most one when `max` is below 1), each a sentence that mentions the skill, in sentence order |
| Evidence.CollectHits | app/services/explainability/evidence.py:48-53 | the inner loop with its early `break` computes the specified hits |
| Evidence.AddSkill | app/services/explainability/evidence.py:40-56 | one outer step skips a blank skill, one absent from the text or one with no hits, and otherwise stores its hits under the original string |
| Evidence.ExtractSkillEvidence | app/services/explainability/evidence.py:24-58 | the method computes the specified evidence |
| Evidence.EvidenceKeys | app/services/explainability/evidence.py:38-56 | keys are distinct, each from the examined skills, no more keys than skills |
| Evidence.EvidenceEntries | app/services/explainability/evidence.py:40-56 | an entry exists exactly for a skill whose normalized form is non-blank, occurs in the lowercased text and has hits, and it holds those hits |
| Evidence.SkillEvidenceFacts | app/services/explainability/evidence.py:35-58 | at most `max_skills` keys from `skills[:max_skills]`; each list is non-empty, bounded, made of split sentences that mention the skill, in order |
| Scoring.ToPct01 | resume_job_matcher/app/services/scoring/scoring.py:16-19 | the result lies in [0, 1] and maps [-1, 1] linearly onto it |
| Scoring.To0_100 | resume_job_matcher/app/services/scoring/scoring.py:22-23 | the result lies in [0, 100] and is a multiple of 0.01 |
| Scoring.ToPct01Monotone | resume_job_matcher/app/services/scoring/scoring.py:16-19 | the map to [0, 1] preserves order |
| Scoring.To0_100Monotone | resume_job_matcher/app/services/scoring/scoring.py:22-23 | the map to [0, 100] preserves order |
| Scoring.To0_100Ends | resume_job_matcher/app/services/scoring/scoring.py:22-23 | fractions at or below 0 give 0 and at or above 1 give 100 |
| Scoring.To0_100OfPercentage | resume_job_matcher/app/services/scoring/scoring.py:22-23 | a percentage on the 0.01 grid comes back unchanged from `_to_0_100(p / 100)` |
| Scoring.ShareBounds | resume_job_matcher/app/services/scoring/scoring.py:37-38 | a share lies in [0, 1] and is 1 when the resume covers the whole list |
| Scoring.ShareMonotone | resume_job_matcher/app/services/scoring/scoring.py:37-38 | more resume skills never lower a share |
| Scoring.SkillOverlapScore | resume_job_matcher/app/services/scoring/scoring.py:26-41 | the overlap score lies in [0, 100] |
| Scoring.OverlapEmptyLists | resume_job_matcher/app/services/scoring/scoring.py:37-41 | an empty required or preferred list gets full credit; with both empty the default weights give 100 |
| Scoring.OverlapFullMatch | resume_job_matcher/app/services/scoring/scoring.py:37-41 | a resume with every required and preferred skill scores 100 with the default weights |
| Scoring.OverlapIgnoresCase | resume_job_matcher/app/services/scoring/scoring.py:33-35 | lowercasing the lists first changes nothing |
| Scoring.OverlapMonotone | resume_job_matcher/app/services/scoring/scoring.py:33-40 | adding resume skills never lowers the score when the weights are not negative |
| Scoring.NormalizeWeights | resume_job_matcher/app/services/scoring/scoring.py:62-67 | the weights sum to 1, are proportional to the inputs when their sum is positive, are 0.65 and 0.35 otherwise, and stay non-negative |
| Scoring.Fuse | resume_job_matcher/app/services/scoring/scoring.py:74-80 | the result echoes the two part scores and the weights rounded to 4 places, with the final score in [0, 100] |
| Scoring.ComputeMatchScore | resume_job_matcher/app/services/scoring/scoring.py:52-80 | the semantic, overlap and final scores all lie in [0, 100] |
| Scoring.WeightFallback | resume_job_matcher/app/services/scoring/scoring.py:62-65 | weights whose sum is not positive give exactly the result of 0.65 and 0.35 |
| Scoring.WeightsRescaled | resume_job_matcher/app/services/scoring/scoring.py:66-79 | with a positive sum the echoed weights are the rounded rescaled ones, and scaling both weights by k > 0 changes nothing |
| Scoring.SemanticScoreFacts | resume_job_matcher/app/services/scoring/scoring.py:69-70 | the semantic score rises with the cosine, and is 0 at -1 and 100 at 1 |
| Scoring.FinalMonotoneInCosine | resume_job_matcher/app/services/scoring/scoring.py:69-74 | with non-negative weights a higher cosine never lowers the final score |
| Scoring.FinalFullMarks | resume_job_matcher/app/services/scoring/scoring.py:62-74 | with non-negative weights, cosine 1 and a full skill match, the final score is 100 |
| VectorStore.L2Normalize | resume_job_matcher/app/services/vector/faiss_store.py:15-20 | the dimension is kept and a zero vector is returned unchanged |
| VectorStore.NormalizeScales | resume_job_matcher/app/services/vector/faiss_store.py:15-20 | for a vector that is not zero the norm is positive and every normalized entry times the norm gives back the input entry |
| VectorStore.Rank | resume_job_matcher/app/services/vector/faiss_store.py:115 | the ranking lists every row index exactly once |
| VectorStore.RankFacts | resume_job_matcher/app/services/vector/faiss_store.py:115 | the ranking lists every row once, by non-increasing score, ties by row |
| VectorStore.Store.constructor | resume_job_matcher/app/services/vector/faiss_store.py:35-41 | a new store has no ids and no rows |
| VectorStore.Store.Add | resume_job_matcher/app/services/vector/faiss_store.py:71-87 | wrong dimension: an error and nothing changes; new id: id and normalized row appended; existing id: only its row replaced; ids stay distinct and aligned with rows |
| VectorStore.Store.Top | resume_job_matcher/app/services/vector/faiss_store.py:115 | the top rows are row indices of the store |
| VectorStore.Store.Search | resume_job_matcher/app/services/vector/faiss_store.py:96-116 | an empty store gives `[]` before any check; otherwise a wrong dimension is an error and a right one succeeds with ids of the store |
| VectorStore.Store.SearchFacts | resume_job_matcher/app/services/vector/faiss_store.py:113-116 | `min(top_k, n)` hits for a non-negative `top_k`, distinct ids, each scored with its own row, scores non-increasing, no row left out scoring above the last hit |
| VectorStore.TopFacts | resume_job_matcher/app/services/vector/faiss_store.py:115 | the first `top_k` ranked rows are distinct, by non-increasing score, and no other row scores above the last |
| VectorStore.HitsOfFacts | resume_job_matcher/app/services/vector/faiss_store.py:116 | hits from distinct rows carry distinct ids, each with its own row's score |

## Left out

- The HTTP routes, the LLM clients, the PDF/DOCX parsers and exporters, file storage, configuration and the evaluation script are not part of this model. They are I/O around the engine.
- `cosine_similarity` (scoring.py:10-13): its float32 dot product of normalized numpy vectors is not modelled. `Scoring.ComputeMatchScore` takes the cosine as an input real.
- Float arithmetic is modelled over exact reals. This covers float32 casts, binary rounding of `round(x, n)`, and any FAISS/numpy difference.
- VectorStore.L2Normalize: the Euclidean norm is a parameter, because square roots of reals are not available here. The model assumes only that the norm is non-negative and is zero exactly for the zero vector. The unit length of the result is not claimed.
- VectorStore.Store.Search: only the numpy path is modelled. The FAISS index (faiss_store.py:89-92, 104-111), `_load`, `_persist` and the directory creation are left out.
- VectorStore.Rank: ties are broken by row, lowest first. `np.argsort` uses an unstable quicksort, so its order among equal scores is not specified.
- VectorStore.Store.Add: the internal error at faiss_store.py:79-80 cannot arise in the model, which starts empty and leaves `_load`/`_persist` out; the store invariant then keeps one row per id. In the program it can arise: `_load` (faiss_store.py:54-59) can read ids from meta.json while vectors.npy is absent, a state that `_persist` (faiss_store.py:66-69) leaves behind if it stops between writing meta.json and the vectors. An empty `_vecs` stands for `None`.
- VectorStore.Store.Add: the error message text is modelled as the two dimensions of `DimMismatch`.
- Text.Lower: lowercasing is ASCII only and keeps the length. `str.lower` on non-ASCII text, which can change letters or the length, is not modelled.
- `\w` and `\b` are modelled for ASCII word characters only. Python's Unicode word characters are not modelled.
- Case-insensitive regex matching (`re.IGNORECASE`) is modelled as equality after ASCII lowercasing (Text.FirstMatch, Text.FindAll, Text.IsAlnum). Python also matches the non-ASCII case variants U+0130 İ, U+0131 ı, U+017F ſ and U+212A K (Kelvin sign) against `i`, `s` and `k`, so "ſql" is a match for `sql` in the program. The model does not treat it as one.
- `\d` is modelled as the ASCII digits `0`-`9` (ResumeLines.YearAt, JdProcessor.DigitRun and JdProcessor.YearsMatchAt). Python's `\d` also matches other Unicode decimal digits, which are not modelled.
- `None` inputs (the `or ""` and `or []` guards) are not modelled. Every input is a string or a list.
- SkillTaxonomy.Normalize and SkillExtraction.BuildPatternTable: Python's iteration order over the canonical set and the alias and variation dicts is a parameter (`TaxonomyOrder`). `DEFAULT_TAXONOMY` is given as data without an order.
- Evidence.SplitSentences: the separator alternation lists the bullet character twice, once literally and once as an escape. The model keeps one alternative, which matches the same text.
- Scoring.Fuse: the `weights` dict is modelled as a two-field datatype.
- Scoring.To0_100 and Numeric rounding: Python rounds the nearest binary double to the decimal grid. The model rounds the exact real half to even.
