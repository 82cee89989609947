/**
 * `extract_skills_with_confidence` and `extract_skills`: every canonical
 * name, alias and variation of the taxonomy becomes a whole-word,
 * case-insensitive literal pattern; every match is recorded under the
 * skill its pattern stands for; every skill found is scored and the
 * results are sorted by confidence, then name.
 *
 * Each step is a method that fills its dict or list in a loop, proved equal
 * to a function of its inputs; the properties are lemmas about the functions.
 */
module SkillExtraction {
  import opened Wrappers
  import opened Text
  import opened Seqs
  import opened Numeric
  import opened SkillTaxonomy

  // ---------------------------------------------------------------------
  // The pattern table
  // ---------------------------------------------------------------------

  /** `(normalized_name, original)`: what a pattern stands for. */
  datatype Entry = Entry(target: string, original: string)

  /** One assignment `skill_patterns[pat] = entry`; `key` is the literal the pattern escapes. */
  datatype Write = Write(key: string, entry: Entry)

  /** The dict `skill_patterns`: its keys in insertion order and its contents. */
  datatype PatternTable = PatternTable(keys: seq<string>, entries: map<string, Entry>)

  /** A dict assignment: a new key goes last, an existing key keeps its place and takes the new value. */
  function Put(t: PatternTable, w: Write): PatternTable {
    PatternTable(
      if w.key in t.entries then t.keys else t.keys + [w.key],
      t.entries[w.key := w.entry])
  }

  /** The dict after the assignments `ws`, in order, starting from `{}`. */
  function TableOf(ws: seq<Write>): PatternTable {
    if ws == [] then PatternTable([], map[])
    else Put(TableOf(ws[..|ws| - 1]), ws[|ws| - 1])
  }

  function CanonicalWrites(cs: seq<string>): seq<Write> {
    seq(|cs|, i requires 0 <= i < |cs| => Write(cs[i], Entry(cs[i], cs[i])))
  }

  function AliasWrites(tax: Taxonomy, names: seq<string>): seq<Write>
    requires forall a :: a in names ==> a in tax.aliases
  {
    seq(|names|, i requires 0 <= i < |names| => Write(names[i], Entry(tax.aliases[names[i]], names[i])))
  }

  function VariantWrites(c: string, vs: seq<string>): seq<Write> {
    seq(|vs|, i requires 0 <= i < |vs| => Write(vs[i], Entry(c, vs[i])))
  }

  function VariationWrites(tax: Taxonomy, cs: seq<string>): seq<Write>
    requires forall c :: c in cs ==> c in tax.variations
  {
    if cs == [] then []
    else VariationWrites(tax, cs[..|cs| - 1]) + VariantWrites(cs[|cs| - 1], tax.variations[cs[|cs| - 1]])
  }

  /** Every assignment the three loops make, in order: canonical names, aliases, variations. */
  function Writes(tax: Taxonomy, order: TaxonomyOrder): seq<Write>
    requires Enumerates(tax, order)
  {
    CanonicalWrites(order.canonical) + AliasWrites(tax, order.aliases) + VariationWrites(tax, order.variations)
  }

  lemma TableOfSnoc(ws: seq<Write>, w: Write)
    ensures TableOf(ws + [w]) == Put(TableOf(ws), w)
  {
    assert (ws + [w])[..|ws|] == ws;
  }

  /** The keys of `skill_patterns` are distinct and are exactly the keys of its contents. */
  lemma {:induction false} TableOfKeys(ws: seq<Write>)
    ensures NoDup(TableOf(ws).keys)
    ensures forall k :: k in TableOf(ws).keys <==> k in TableOf(ws).entries
  {
    if ws != [] {
      TableOfKeys(ws[..|ws| - 1]);
    }
  }

  /** Every stored entry was written under its key. */
  lemma {:induction false} TableOfFrom(ws: seq<Write>)
    ensures forall k :: k in TableOf(ws).entries ==>
      exists i :: 0 <= i < |ws| && ws[i] == Write(k, TableOf(ws).entries[k])
  {
    if ws != [] {
      var p := ws[..|ws| - 1];
      TableOfFrom(p);
      var t := TableOf(ws);
      forall k | k in t.entries ensures exists i :: 0 <= i < |ws| && ws[i] == Write(k, t.entries[k]) {
        if k != ws[|ws| - 1].key {
          var i :| 0 <= i < |p| && p[i] == Write(k, TableOf(p).entries[k]);
          assert ws[i] == p[i];
        } else {
          assert ws[|ws| - 1] == Write(k, t.entries[k]);
        }
      }
    }
  }

  /** The last assignment to a key decides its entry. */
  lemma {:induction false} TableOfLastWins(ws: seq<Write>, i: nat)
    requires i < |ws| && forall j :: i < j < |ws| ==> ws[j].key != ws[i].key
    ensures ws[i].key in TableOf(ws).entries && TableOf(ws).entries[ws[i].key] == ws[i].entry
  {
    if i < |ws| - 1 {
      var p := ws[..|ws| - 1];
      assert p[i] == ws[i];
      TableOfLastWins(p, i);
    }
  }

  /** The entry a write stores names a canonical name, an alias target or a variation key. */
  predicate TargetOf(tax: Taxonomy, target: string) {
    target in tax.canonical || (exists a :: a in tax.aliases && tax.aliases[a] == target) || target in tax.variations
  }

  lemma WritesTargets(tax: Taxonomy, order: TaxonomyOrder)
    requires Enumerates(tax, order)
    ensures forall i :: 0 <= i < |Writes(tax, order)| ==> TargetOf(tax, Writes(tax, order)[i].entry.target)
  {
    VariationWritesTargets(tax, order.variations);
    var cw, aw := CanonicalWrites(order.canonical), AliasWrites(tax, order.aliases);
    var ws := Writes(tax, order);
    forall i | 0 <= i < |ws| ensures TargetOf(tax, ws[i].entry.target) {
      if i < |cw| {
        assert ws[i] == cw[i];
      } else if i < |cw| + |aw| {
        assert ws[i] == aw[i - |cw|];
        var a := order.aliases[i - |cw|];
        assert tax.aliases[a] == ws[i].entry.target;
      } else {
        assert ws[i] == VariationWrites(tax, order.variations)[i - |cw| - |aw|];
      }
    }
  }

  lemma {:induction false} VariationWritesTargets(tax: Taxonomy, cs: seq<string>)
    requires forall c :: c in cs ==> c in tax.variations
    ensures forall i :: 0 <= i < |VariationWrites(tax, cs)| ==> VariationWrites(tax, cs)[i].entry.target in tax.variations
  {
    if cs != [] {
      VariationWritesTargets(tax, cs[..|cs| - 1]);
    }
  }

  /**
   * The three loops that fill `skill_patterns`: canonical names first, then
   * aliases, then every variation of every variation key.
   */
  method BuildPatternTable(tax: Taxonomy, order: TaxonomyOrder) returns (t: PatternTable)
    requires Enumerates(tax, order)
    ensures t == TableOf(Writes(tax, order))
  {
    t := PatternTable([], map[]);
    t := PutCanonical(t, [], order.canonical);
    assert [] + CanonicalWrites(order.canonical) == CanonicalWrites(order.canonical);
    t := PutAliases(t, CanonicalWrites(order.canonical), tax, order.aliases);
    t := PutVariations(t, CanonicalWrites(order.canonical) + AliasWrites(tax, order.aliases), tax, order.variations);
  }

  /** The loop that registers every canonical name under itself. */
  method PutCanonical(t0: PatternTable, ghost done: seq<Write>, cs: seq<string>) returns (t: PatternTable)
    requires t0 == TableOf(done)
    ensures t == TableOf(done + CanonicalWrites(cs))
  {
    t := t0;
    assert done + CanonicalWrites(cs[..0]) == done;
    for i := 0 to |cs|
      invariant t == TableOf(done + CanonicalWrites(cs[..i]))
    {
      var w := Write(cs[i], Entry(cs[i], cs[i]));
      TableOfSnoc(done + CanonicalWrites(cs[..i]), w);
      CanonicalWritesSnoc(cs, i);
      assert done + CanonicalWrites(cs[..i + 1]) == (done + CanonicalWrites(cs[..i])) + [w];
      t := Put(t, w);
    }
    assert cs[..|cs|] == cs;
  }

  /** The loop that registers every alias under its canonical name. */
  method PutAliases(t0: PatternTable, ghost done: seq<Write>, tax: Taxonomy, names: seq<string>)
    returns (t: PatternTable)
    requires forall a :: a in names ==> a in tax.aliases
    requires t0 == TableOf(done)
    ensures t == TableOf(done + AliasWrites(tax, names))
  {
    t := t0;
    assert done + AliasWrites(tax, names[..0]) == done;
    for i := 0 to |names|
      invariant t == TableOf(done + AliasWrites(tax, names[..i]))
    {
      var w := Write(names[i], Entry(tax.aliases[names[i]], names[i]));
      ghost var before := done + AliasWrites(tax, names[..i]);
      TableOfSnoc(before, w);
      AliasWritesSnoc(tax, names, i);
      assert done + AliasWrites(tax, names[..i + 1]) == before + [w];
      t := Put(t, w);
    }
    assert names[..|names|] == names;
  }

  /** The nested loops that register every variation under its variation key. */
  method PutVariations(t0: PatternTable, ghost done: seq<Write>, tax: Taxonomy, cs: seq<string>)
    returns (t: PatternTable)
    requires forall c :: c in cs ==> c in tax.variations
    requires t0 == TableOf(done)
    ensures t == TableOf(done + VariationWrites(tax, cs))
  {
    t := t0;
    assert done + VariationWrites(tax, cs[..0]) == done;
    for i := 0 to |cs|
      invariant t == TableOf(done + VariationWrites(tax, cs[..i]))
    {
      var canonical := cs[i];
      var variants := tax.variations[canonical];
      ghost var before := VariationWrites(tax, cs[..i]);
      VariationWritesSnoc(tax, cs, i);
      assert VariationWrites(tax, cs[..i + 1]) == before + VariantWrites(canonical, variants);
      assert done + (before + VariantWrites(canonical, variants)) == (done + before) + VariantWrites(canonical, variants);
      t := PutVariants(t, done + before, canonical, variants);
    }
    assert cs[..|cs|] == cs;
  }

  /** `for variant in variants: skill_patterns[pat(variant)] = (canonical, variant)`. */
  method PutVariants(t0: PatternTable, ghost done: seq<Write>, canonical: string, variants: seq<string>)
    returns (t: PatternTable)
    requires t0 == TableOf(done)
    ensures t == TableOf(done + VariantWrites(canonical, variants))
  {
    t := t0;
    assert done + VariantWrites(canonical, variants[..0]) == done;
    for j := 0 to |variants|
      invariant t == TableOf(done + VariantWrites(canonical, variants[..j]))
    {
      var w := Write(variants[j], Entry(canonical, variants[j]));
      TableOfSnoc(done + VariantWrites(canonical, variants[..j]), w);
      VariantWritesSnoc(canonical, variants, j);
      assert done + VariantWrites(canonical, variants[..j + 1]) ==
        (done + VariantWrites(canonical, variants[..j])) + [w];
      t := Put(t, w);
    }
    assert variants[..|variants|] == variants;
  }

  lemma CanonicalWritesSnoc(cs: seq<string>, i: nat)
    requires i < |cs|
    ensures CanonicalWrites(cs[..i + 1]) == CanonicalWrites(cs[..i]) + [Write(cs[i], Entry(cs[i], cs[i]))]
  {
  }

  lemma AliasWritesSnoc(tax: Taxonomy, names: seq<string>, i: nat)
    requires i < |names| && forall a :: a in names ==> a in tax.aliases
    ensures AliasWrites(tax, names[..i + 1]) ==
      AliasWrites(tax, names[..i]) + [Write(names[i], Entry(tax.aliases[names[i]], names[i]))]
  {
  }

  lemma VariantWritesSnoc(c: string, vs: seq<string>, j: nat)
    requires j < |vs|
    ensures VariantWrites(c, vs[..j + 1]) == VariantWrites(c, vs[..j]) + [Write(vs[j], Entry(c, vs[j]))]
  {
  }

  lemma VariationWritesSnoc(tax: Taxonomy, cs: seq<string>, i: nat)
    requires i < |cs| && forall c :: c in cs ==> c in tax.variations
    ensures VariationWrites(tax, cs[..i + 1]) ==
      VariationWrites(tax, cs[..i]) + VariantWrites(cs[i], tax.variations[cs[i]])
  {
    assert cs[..i + 1][..i] == cs[..i];
  }

  // ---------------------------------------------------------------------
  // Matches, grouped by skill
  // ---------------------------------------------------------------------

  /** `(start, end, original, snippet)`. */
  datatype Occurrence = Occurrence(start: nat, end: nat, original: string, snippet: string)

  /** One append to `matches[skill]`. */
  datatype Hit = Hit(skill: string, occ: Occurrence)

  /** The match with up to 50 characters of context on each side, stripped. */
  function Snippet(text: string, start: nat, end: nat): (r: string)
    requires start <= end <= |text|
    ensures IsStripped(r)
    ensures |r| <= end - start + 100
  {
    var a := if start >= 50 then start - 50 else 0;
    var b := if end + 50 <= |text| then end + 50 else |text|;
    Strip(text[a..b])
  }

  /** The records one pattern contributes: one per `re.finditer` match. */
  function HitsFor(text: string, key: string, e: Entry): (r: seq<Hit>)
    ensures |r| == |FindAll(text, key, Word, 0)|
    ensures forall k :: 0 <= k < |r| ==> r[k].skill == e.target && r[k].occ.original == e.original
  {
    var ps := FindAll(text, key, Word, 0);
    FindAllMatches(text, key, Word, 0);
    seq(|ps|, k requires 0 <= k < |ps| => HitAt(text, key, e, ps[k]))
  }

  /** The record of the match of `key` at `p`. */
  function HitAt(text: string, key: string, e: Entry, p: nat): Hit
    requires p + |key| <= |text|
  {
    Hit(e.target, Occurrence(p, p + |key|, e.original, Snippet(text, p, p + |key|)))
  }

  predicate ValidTable(t: PatternTable) {
    forall k :: k in t.keys ==> k in t.entries
  }

  /** The records of the first `n` patterns, in table order. */
  function AllHits(text: string, t: PatternTable, n: nat): seq<Hit>
    requires ValidTable(t) && n <= |t.keys|
  {
    if n == 0 then []
    else AllHits(text, t, n - 1) + HitsFor(text, t.keys[n - 1], t.entries[t.keys[n - 1]])
  }

  /** The dict `matches`: skills in first-match order, and each skill's records. */
  datatype Groups = Groups(names: seq<string>, lists: map<string, seq<Occurrence>>)

  ghost predicate ValidGroups(g: Groups) {
    && NoDup(g.names)
    && (forall n :: n in g.names <==> n in g.lists)
    && (forall n :: n in g.lists ==> g.lists[n] != [])
  }

  function AddHit(g: Groups, h: Hit): Groups {
    if h.skill in g.lists then Groups(g.names, g.lists[h.skill := g.lists[h.skill] + [h.occ]])
    else Groups(g.names + [h.skill], g.lists[h.skill := [h.occ]])
  }

  function GroupOf(hs: seq<Hit>): Groups {
    if hs == [] then Groups([], map[])
    else AddHit(GroupOf(hs[..|hs| - 1]), hs[|hs| - 1])
  }

  /** `matches` lists each skill once, keeps a non-empty list per skill, and holds exactly the recorded skills. */
  lemma {:induction false} GroupOfValid(hs: seq<Hit>)
    ensures ValidGroups(GroupOf(hs))
    ensures forall n :: n in GroupOf(hs).lists <==> exists i :: 0 <= i < |hs| && hs[i].skill == n
  {
    if hs != [] {
      var p := hs[..|hs| - 1];
      GroupOfValid(p);
      assert forall i :: 0 <= i < |p| ==> hs[i] == p[i];
    }
  }

  /** The records of `hs` that belong to skill `n`, in order. */
  function OccurrencesOf(hs: seq<Hit>, n: string): seq<Occurrence> {
    if hs == [] then []
    else
      var rest := OccurrencesOf(hs[..|hs| - 1], n);
      if hs[|hs| - 1].skill == n then rest + [hs[|hs| - 1].occ] else rest
  }

  /** Each skill's list holds exactly its records, in order: one per match, even on the same span. */
  lemma {:induction false} GroupOfLists(hs: seq<Hit>)
    ensures forall n :: n in GroupOf(hs).lists ==> GroupOf(hs).lists[n] == OccurrencesOf(hs, n)
  {
    if hs != [] {
      var p := hs[..|hs| - 1];
      GroupOfLists(p);
      GroupOfValid(p);
      var g := GroupOf(hs);
      forall n | n in g.lists ensures g.lists[n] == OccurrencesOf(hs, n) {
        if n != hs[|hs| - 1].skill {
          assert n in GroupOf(p).lists;
        } else if n !in GroupOf(p).lists {
          assert OccurrencesOf(p, n) == [] by { NoOccurrences(p, n); }
        }
      }
    }
  }

  lemma {:induction false} NoOccurrences(hs: seq<Hit>, n: string)
    requires forall i :: 0 <= i < |hs| ==> hs[i].skill != n
    ensures OccurrencesOf(hs, n) == []
  {
    if hs != [] {
      NoOccurrences(hs[..|hs| - 1], n);
    }
  }

  /**
   * The loop over `skill_patterns.items()` and the `re.finditer` matches of
   * each: every match appends one record to the list of its pattern's skill.
   */
  method CollectMatches(text: string, t: PatternTable) returns (g: Groups)
    requires ValidTable(t)
    ensures g == GroupOf(AllHits(text, t, |t.keys|))
  {
    g := Groups([], map[]);
    for i := 0 to |t.keys|
      invariant g == GroupOf(AllHits(text, t, i))
    {
      var key := t.keys[i];
      g := RecordMatches(g, AllHits(text, t, i), text, key, t.entries[key]);
    }
  }

  /** The inner loop: one append to `matches[normalized]` per match of one pattern. */
  method RecordMatches(g0: Groups, ghost done: seq<Hit>, text: string, key: string, e: Entry)
    returns (g: Groups)
    requires g0 == GroupOf(done)
    ensures g == GroupOf(done + HitsFor(text, key, e))
  {
    g := g0;
    var ps := FindAll(text, key, Word, 0);
    ghost var hits := HitsFor(text, key, e);
    assert done + hits[..0] == done;
    for j := 0 to |ps|
      invariant g == GroupOf(done + hits[..j])
    {
      HitsForAt(text, key, e, j);
      var h := HitAt(text, key, e, ps[j]);
      GroupOfSnoc(done + hits[..j], h);
      PrefixSnoc(done, hits, j);
      g := AddHit(g, h);
    }
    assert hits[..|ps|] == hits;
  }

  lemma HitsForAt(text: string, key: string, e: Entry, j: nat)
    requires j < |FindAll(text, key, Word, 0)|
    ensures var p := FindAll(text, key, Word, 0)[j];
      p + |key| <= |text| &&
      HitsFor(text, key, e)[j] == HitAt(text, key, e, p)
  {
    var ps := FindAll(text, key, Word, 0);
    FindAllMatches(text, key, Word, 0);
    assert MatchesAt(text, ps[j], key, Word);
  }

  lemma PrefixSnoc<T>(done: seq<T>, xs: seq<T>, j: nat)
    requires j < |xs|
    ensures done + xs[..j + 1] == (done + xs[..j]) + [xs[j]]
  {
    assert xs[..j + 1] == xs[..j] + [xs[j]];
  }

  lemma GroupOfSnoc(hs: seq<Hit>, h: Hit)
    ensures GroupOf(hs + [h]) == AddHit(GroupOf(hs), h)
  {
    assert (hs + [h])[..|hs|] == hs;
  }

  /** Every recorded skill is the target of a table entry whose literal occurs in the text. */
  lemma {:induction false} AllHitsFrom(text: string, t: PatternTable, n: nat)
    requires ValidTable(t) && n <= |t.keys|
    ensures forall h :: h in AllHits(text, t, n) ==>
      exists i :: 0 <= i < n && t.entries[t.keys[i]].target == h.skill && Mentions(text, t.keys[i], Word)
  {
    if n > 0 {
      AllHitsFrom(text, t, n - 1);
      var key := t.keys[n - 1];
      var hs := HitsFor(text, key, t.entries[key]);
      forall h | h in AllHits(text, t, n)
        ensures exists i :: 0 <= i < n && t.entries[t.keys[i]].target == h.skill && Mentions(text, t.keys[i], Word)
      {
        if h !in AllHits(text, t, n - 1) {
          assert h in hs;
          assert FindAll(text, key, Word, 0) != [];
          FindAllFirst(text, key, Word, 0);
          assert t.entries[t.keys[n - 1]].target == h.skill;
        }
      }
    }
  }

  // ---------------------------------------------------------------------
  // Scoring one skill
  // ---------------------------------------------------------------------

  /** `SkillWithConfidence`. */
  datatype SkillWithConfidence = SkillWithConfidence(
    skill: string,
    confidence: real,
    sourceSnippets: seq<string>,
    originalText: string)

  const Indicators: seq<string> :=
    ["experience", "proficient", "expert", "skilled", "developed", "built", "implemented", "using", "with"]

  /** Some technical indicator occurs in the lowercased snippet (plain substring tests). */
  predicate HasIndicator(snippet: string) {
    exists k :: 0 <= k < |Indicators| && IsSubstring(Indicators[k], Lower(snippet))
  }

  function Snippets(occs: seq<Occurrence>): (r: seq<string>)
    ensures |r| == |occs|
    ensures forall i :: 0 <= i < |occs| ==> r[i] == occs[i].snippet
  {
    seq(|occs|, i requires 0 <= i < |occs| => occs[i].snippet)
  }

  /** 100 when the first record's literal is the skill itself, 90 for an alias, 85 otherwise. */
  function BaseConfidence(tax: Taxonomy, skill: string, original: string): real {
    if Lower(original) == Lower(skill) then 100.0
    else if Lower(original) in tax.aliases then 90.0
    else 85.0
  }

  /** Two points per record, capped at five. */
  function OccurrenceBoost(count: nat): real {
    if 2.0 * count as real < 5.0 then 2.0 * count as real else 5.0
  }

  /** Two points for each of the first two records whose snippet shows a technical indicator. */
  function ContextBoost(occs: seq<Occurrence>): real {
    2.0 * |Filter(Snippets(Take(occs, 2)), HasIndicator)| as real
  }

  /** Base plus both boosts, capped at 100 and rounded to one decimal. */
  function Confidence(tax: Taxonomy, skill: string, occs: seq<Occurrence>): real
    requires occs != []
  {
    var total := BaseConfidence(tax, skill, occs[0].original) + OccurrenceBoost(|occs|) + ContextBoost(occs);
    Round1(if total < 100.0 then total else 100.0)
  }

  function Summarize(tax: Taxonomy, skill: string, occs: seq<Occurrence>, maxSnippets: int): SkillWithConfidence
    requires occs != []
  {
    SkillWithConfidence(
      skill,
      Confidence(tax, skill, occs),
      Take(FirstSeen(Snippets(occs)), maxSnippets),
      occs[0].original)
  }

  /** The context boost is 0, 2 or 4. */
  lemma ContextBoostBounds(occs: seq<Occurrence>)
    ensures ContextBoost(occs) in {0.0, 2.0, 4.0}
  {
    assert |Filter(Snippets(Take(occs, 2)), HasIndicator)| <= 2;
  }

  /** A skill found at least once scores between 87 and 100: base 85 at least, one match adds 2. */
  lemma ConfidenceBounds(tax: Taxonomy, skill: string, occs: seq<Occurrence>)
    requires occs != []
    ensures 87.0 <= Confidence(tax, skill, occs) <= 100.0
  {
    ContextBoostBounds(occs);
    var total := BaseConfidence(tax, skill, occs[0].original) + OccurrenceBoost(|occs|) + ContextBoost(occs);
    var capped := if total < 100.0 then total else 100.0;
    assert 87.0 <= capped <= 100.0;
    Round1Within(capped, 870, 1000);
  }

  /**
   * `source_snippets`: distinct, at most `max_snippets` of them when that is
   * not negative, each the snippet of some record (a prefix of the distinct
   * snippets in first-occurrence order, by `FirstSeenFacts`).
   */
  lemma SnippetsFacts(occs: seq<Occurrence>, maxSnippets: int)
    ensures var r := Take(FirstSeen(Snippets(occs)), maxSnippets);
      && NoDup(r)
      && (maxSnippets >= 0 ==> |r| <= maxSnippets)
      && (forall s :: s in r ==> exists i :: 0 <= i < |occs| && occs[i].snippet == s)
  {
    var all := FirstSeen(Snippets(occs));
    FirstSeenFacts(Snippets(occs));
    var r := Take(all, maxSnippets);
    assert forall i :: 0 <= i < |r| ==> r[i] == all[i];
    forall s | s in r ensures exists i :: 0 <= i < |occs| && occs[i].snippet == s {
      assert s in Snippets(occs);
    }
  }

  /** The loop that adds two points per indicator-bearing snippet among the first two records. */
  method ComputeContextBoost(occs: seq<Occurrence>) returns (boost: real)
    ensures boost == ContextBoost(occs)
  {
    var first := Snippets(Take(occs, 2));
    boost := 0.0;
    for i := 0 to |first|
      invariant boost == 2.0 * |Filter(first[..i], HasIndicator)| as real
    {
      assert first[..i + 1] == first[..i] + [first[i]];
      FilterAppend(first[..i], first[i], HasIndicator);
      if HasIndicator(first[i]) {
        boost := boost + 2.0;
      }
    }
    assert first[..|first|] == first;
  }

  method SummarizeGroup(tax: Taxonomy, skill: string, occs: seq<Occurrence>, maxSnippets: int)
    returns (r: SkillWithConfidence)
    requires occs != []
    ensures r == Summarize(tax, skill, occs, maxSnippets)
  {
    var unique := Take(FirstSeen(Snippets(occs)), maxSnippets);
    var original := occs[0].original;
    var base := BaseConfidence(tax, skill, original);
    var occurrenceBoost := OccurrenceBoost(|occs|);
    var contextBoost := ComputeContextBoost(occs);
    var total := base + occurrenceBoost + contextBoost;
    var confidence := if total < 100.0 then total else 100.0;
    r := SkillWithConfidence(skill, Round1(confidence), unique, original);
  }

  /** One result per group, in the order of `matches`. */
  function Summaries(tax: Taxonomy, g: Groups, maxSnippets: int): (r: seq<SkillWithConfidence>)
    requires ValidGroups(g)
    ensures |r| == |g.names|
  {
    seq(|g.names|, i requires 0 <= i < |g.names| =>
      Summarize(tax, g.names[i], g.lists[g.names[i]], maxSnippets))
  }

  // ---------------------------------------------------------------------
  // Sorting by (-confidence, skill)
  // ---------------------------------------------------------------------

  /** `(-a.confidence, a.skill) < (-b.confidence, b.skill)`. */
  predicate Before(a: SkillWithConfidence, b: SkillWithConfidence) {
    a.confidence > b.confidence || (a.confidence == b.confidence && LexLess(a.skill, b.skill))
  }

  lemma BeforeTransitive(a: SkillWithConfidence, b: SkillWithConfidence, c: SkillWithConfidence)
    requires Before(a, b) && Before(b, c)
    ensures Before(a, c)
  {
    if a.confidence == b.confidence && b.confidence == c.confidence {
      LexLessTransitive(a.skill, b.skill, c.skill);
    }
  }

  lemma BeforeThrough(z: SkillWithConfidence, x: SkillWithConfidence, y: SkillWithConfidence)
    requires Before(x, y)
    ensures Before(z, x) ==> Before(z, y)
  {
    if Before(z, x) {
      BeforeTransitive(z, x, y);
    }
  }

  lemma BeforeAsymmetric(a: SkillWithConfidence, b: SkillWithConfidence)
    ensures Before(a, b) ==> !Before(b, a)
  {
    if a.confidence == b.confidence && LexLess(a.skill, b.skill) {
      LexLessAsymmetric(a.skill, b.skill);
    }
  }

  predicate ResultsSorted(rs: seq<SkillWithConfidence>) {
    forall i, j :: 0 <= i < j < |rs| ==> !Before(rs[j], rs[i])
  }

  /** Insert `x` after every element it does not come before: a later equal key goes last (stability). */
  function InsertResult(x: SkillWithConfidence, rs: seq<SkillWithConfidence>): seq<SkillWithConfidence> {
    if rs == [] then [x]
    else if Before(x, rs[0]) then [x] + rs
    else [rs[0]] + InsertResult(x, rs[1..])
  }

  lemma {:induction false} InsertResultMultiset(x: SkillWithConfidence, rs: seq<SkillWithConfidence>)
    ensures multiset(InsertResult(x, rs)) == multiset(rs) + multiset{x}
  {
    if rs != [] && !Before(x, rs[0]) {
      InsertResultMultiset(x, rs[1..]);
      assert InsertResult(x, rs) == [rs[0]] + InsertResult(x, rs[1..]);
      assert rs == [rs[0]] + rs[1..];
      ConsMultiset(rs[0], InsertResult(x, rs[1..]), rs[1..], x);
    }
  }

  lemma {:induction false} InsertResultElements(x: SkillWithConfidence, rs: seq<SkillWithConfidence>)
    ensures forall y :: y in InsertResult(x, rs) ==> y == x || y in rs
  {
    if rs != [] && !Before(x, rs[0]) {
      InsertResultElements(x, rs[1..]);
    }
  }

  lemma {:induction false} InsertResultSorted(x: SkillWithConfidence, rs: seq<SkillWithConfidence>)
    requires ResultsSorted(rs)
    ensures ResultsSorted(InsertResult(x, rs))
  {
    if rs != [] && !Before(x, rs[0]) {
      var tail := rs[1..];
      assert ResultsSorted(tail) by {
        forall i, j | 0 <= i < j < |tail| ensures !Before(tail[j], tail[i]) {
          assert tail[i] == rs[i + 1] && tail[j] == rs[j + 1];
        }
      }
      InsertResultSorted(x, tail);
      InsertResultElements(x, tail);
      var r := InsertResult(x, tail);
      forall k | 0 <= k < |r| ensures !Before(r[k], rs[0]) {
        assert r[k] in r;
        if r[k] != x {
          var m :| 0 <= m < |tail| && tail[m] == r[k];
          assert rs[m + 1] == r[k];
        }
      }
      var out := [rs[0]] + r;
      assert InsertResult(x, rs) == out;
      forall i, j | 0 <= i < j < |out| ensures !Before(out[j], out[i]) {
        if i > 0 {
          assert out[i] == r[i - 1] && out[j] == r[j - 1];
        } else {
          assert out[j] == r[j - 1];
        }
      }
    } else if rs != [] {
      forall j | 0 <= j < |rs| ensures !Before(rs[j], x) {
        if j > 0 {
          BeforeThrough(rs[j], x, rs[0]);
        } else {
          BeforeAsymmetric(x, rs[0]);
        }
      }
      var out := [x] + rs;
      forall i, j | 0 <= i < j < |out| ensures !Before(out[j], out[i]) {
        if i > 0 {
          assert out[i] == rs[i - 1] && out[j] == rs[j - 1];
        } else {
          assert out[j] == rs[j - 1];
        }
      }
    }
  }

  /** The results sorted by descending confidence, then ascending skill name. */
  function SortResults(rs: seq<SkillWithConfidence>): (r: seq<SkillWithConfidence>)
    ensures ResultsSorted(r)
    ensures multiset(r) == multiset(rs)
  {
    if rs == [] then []
    else
      var p := SortResults(rs[..|rs| - 1]);
      InsertResultSorted(rs[|rs| - 1], p);
      InsertResultMultiset(rs[|rs| - 1], p);
      assert rs == rs[..|rs| - 1] + [rs[|rs| - 1]];
      InsertResult(rs[|rs| - 1], p)
  }

  // ---------------------------------------------------------------------
  // extract_skills_with_confidence and extract_skills
  // ---------------------------------------------------------------------

  /** The loop that appends one result per entry of `matches`. */
  method SummarizeAll(tax: Taxonomy, g: Groups, maxSnippets: int) returns (results: seq<SkillWithConfidence>)
    requires ValidGroups(g)
    ensures results == Summaries(tax, g, maxSnippets)
  {
    results := [];
    for i := 0 to |g.names|
      invariant results == Summaries(tax, g, maxSnippets)[..i]
    {
      var r := SummarizeGroup(tax, g.names[i], g.lists[g.names[i]], maxSnippets);
      assert Summaries(tax, g, maxSnippets)[..i + 1] == Summaries(tax, g, maxSnippets)[..i] + [r];
      results := results + [r];
    }
  }

  /** The matches of every pattern of the table, grouped by skill. */
  function MatchGroups(text: string, t: PatternTable): (g: Groups)
    requires ValidTable(t)
    ensures ValidGroups(g)
  {
    GroupOfValid(AllHits(text, t, |t.keys|));
    GroupOf(AllHits(text, t, |t.keys|))
  }

  lemma TableValid(tax: Taxonomy, order: TaxonomyOrder)
    requires Enumerates(tax, order)
    ensures ValidTable(TableOf(Writes(tax, order)))
  {
    TableOfKeys(Writes(tax, order));
  }

  /** What `extract_skills_with_confidence` returns. */
  function SkillsWithConfidence(text: string, tax: Taxonomy, order: TaxonomyOrder, maxSnippets: int)
    : seq<SkillWithConfidence>
    requires Enumerates(tax, order)
  {
    if text == [] then [] else SortResults(Unsorted(text, tax, order, maxSnippets))
  }

  /** The results of a non-empty text, before sorting: one per skill, in the order of `matches`. */
  function Unsorted(text: string, tax: Taxonomy, order: TaxonomyOrder, maxSnippets: int): seq<SkillWithConfidence>
    requires Enumerates(tax, order)
  {
    TableValid(tax, order);
    Summaries(tax, MatchGroups(text, TableOf(Writes(tax, order))), maxSnippets)
  }

  method ExtractSkillsWithConfidence(text: string, tax: Taxonomy, order: TaxonomyOrder, maxSnippets: int)
    returns (results: seq<SkillWithConfidence>)
    requires Enumerates(tax, order)
    ensures results == SkillsWithConfidence(text, tax, order, maxSnippets)
  {
    if text == [] {
      return [];
    }
    var t := BuildPatternTable(tax, order);
    TableValid(tax, order);
    var g := CollectMatches(text, t);
    GroupOfValid(AllHits(text, t, |t.keys|));
    results := SummarizeAll(tax, g, maxSnippets);
    results := SortResults(results);
  }

  function SkillNames(rs: seq<SkillWithConfidence>): (r: seq<string>)
    ensures |r| == |rs|
    ensures forall i :: 0 <= i < |rs| ==> r[i] == rs[i].skill
  {
    seq(|rs|, i requires 0 <= i < |rs| => rs[i].skill)
  }

  /** Each summary: one per group, its confidence in [87, 100], its snippets distinct and within bounds. */
  lemma SummariesFacts(tax: Taxonomy, g: Groups, maxSnippets: int)
    requires ValidGroups(g)
    ensures NoDup(SkillNames(Summaries(tax, g, maxSnippets)))
    ensures forall r :: r in Summaries(tax, g, maxSnippets) ==>
      && r.skill in g.lists
      && 87.0 <= r.confidence <= 100.0
      && NoDup(r.sourceSnippets) && (maxSnippets >= 0 ==> |r.sourceSnippets| <= maxSnippets)
  {
    var rs := Summaries(tax, g, maxSnippets);
    forall r | r in rs
      ensures r.skill in g.lists
      ensures 87.0 <= r.confidence <= 100.0
      ensures NoDup(r.sourceSnippets) && (maxSnippets >= 0 ==> |r.sourceSnippets| <= maxSnippets)
    {
      var i :| 0 <= i < |rs| && rs[i] == r;
      var n := g.names[i];
      ConfidenceBounds(tax, n, g.lists[n]);
      SnippetsFacts(g.lists[n], maxSnippets);
    }
  }

  /** Every grouped skill is the target of a table entry whose literal occurs in the text. */
  lemma MatchGroupsFrom(text: string, t: PatternTable)
    requires ValidTable(t)
    ensures forall n :: n in MatchGroups(text, t).lists ==>
      exists i :: 0 <= i < |t.keys| && t.entries[t.keys[i]].target == n && Mentions(text, t.keys[i], Word)
  {
    var hs := AllHits(text, t, |t.keys|);
    AllHitsFrom(text, t, |t.keys|);
    GroupOfValid(hs);
    forall n | n in MatchGroups(text, t).lists
      ensures exists i :: 0 <= i < |t.keys| && t.entries[t.keys[i]].target == n && Mentions(text, t.keys[i], Word)
    {
      var k :| 0 <= k < |hs| && hs[k].skill == n;
      assert hs[k] in hs;
    }
  }

  /** Every entry of the table targets a canonical name, an alias target or a variation key. */
  lemma TableTargets(tax: Taxonomy, order: TaxonomyOrder)
    requires Enumerates(tax, order)
    ensures forall k :: k in TableOf(Writes(tax, order)).entries ==>
      TargetOf(tax, TableOf(Writes(tax, order)).entries[k].target)
  {
    var ws := Writes(tax, order);
    TableOfFrom(ws);
    WritesTargets(tax, order);
    forall k | k in TableOf(ws).entries ensures TargetOf(tax, TableOf(ws).entries[k].target) {
      var i :| 0 <= i < |ws| && ws[i] == Write(k, TableOf(ws).entries[k]);
    }
  }

  lemma SortedFrom(rs: seq<SkillWithConfidence>)
    ensures forall r :: r in SortResults(rs) ==> r in rs
  {
    forall r | r in SortResults(rs) ensures r in rs {
      assert r in multiset(SortResults(rs));
    }
  }

  /** Empty text gives no results; otherwise they are sorted by confidence, then name. */
  lemma SkillsSorted(text: string, tax: Taxonomy, order: TaxonomyOrder, maxSnippets: int)
    requires Enumerates(tax, order)
    ensures ResultsSorted(SkillsWithConfidence(text, tax, order, maxSnippets))
    ensures text == [] ==> SkillsWithConfidence(text, tax, order, maxSnippets) == []
  {
  }

  /** At most one result per skill. */
  lemma SkillsDistinct(text: string, tax: Taxonomy, order: TaxonomyOrder, maxSnippets: int)
    requires Enumerates(tax, order)
    ensures NoDup(SkillNames(SkillsWithConfidence(text, tax, order, maxSnippets)))
  {
    if text != [] {
      TableValid(tax, order);
      var g := MatchGroups(text, TableOf(Writes(tax, order)));
      SummariesFacts(tax, g, maxSnippets);
      var u := Unsorted(text, tax, order, maxSnippets);
      SortedDistinct(u, SortResults(u));
    }
  }

  /** Every confidence lies in [87, 100]; every snippet list is distinct and within `max_snippets`. */
  lemma SkillsBounded(text: string, tax: Taxonomy, order: TaxonomyOrder, maxSnippets: int)
    requires Enumerates(tax, order)
    ensures forall r :: r in SkillsWithConfidence(text, tax, order, maxSnippets) ==>
      && 87.0 <= r.confidence <= 100.0
      && NoDup(r.sourceSnippets) && (maxSnippets >= 0 ==> |r.sourceSnippets| <= maxSnippets)
  {
    if text != [] {
      TableValid(tax, order);
      var g := MatchGroups(text, TableOf(Writes(tax, order)));
      SummariesFacts(tax, g, maxSnippets);
      SortedFrom(Unsorted(text, tax, order, maxSnippets));
    }
  }

  /**
   * Every result's skill is the target of a pattern whose literal occurs in
   * the text, and so a canonical name when the taxonomy is well formed.
   */
  lemma SkillsMatched(text: string, tax: Taxonomy, order: TaxonomyOrder, maxSnippets: int)
    requires Enumerates(tax, order)
    ensures forall r :: r in SkillsWithConfidence(text, tax, order, maxSnippets) ==>
      exists k :: k in TableOf(Writes(tax, order)).entries
        && TableOf(Writes(tax, order)).entries[k].target == r.skill && Mentions(text, k, Word)
    ensures forall r :: r in SkillsWithConfidence(text, tax, order, maxSnippets) ==> TargetOf(tax, r.skill)
    ensures WellFormed(tax) ==> forall r :: r in SkillsWithConfidence(text, tax, order, maxSnippets) ==>
      r.skill in tax.canonical
  {
    forall r | r in SkillsWithConfidence(text, tax, order, maxSnippets)
      ensures exists k ::
        k in TableOf(Writes(tax, order)).entries &&
        TableOf(Writes(tax, order)).entries[k].target == r.skill && Mentions(text, k, Word)
      ensures TargetOf(tax, r.skill)
      ensures WellFormed(tax) ==> r.skill in tax.canonical
    {
      var k := MatchedKey(text, tax, order, maxSnippets, r);
    }
  }

  /** The pattern behind one result: a table key whose literal occurs in the text. */
  lemma MatchedKey(text: string, tax: Taxonomy, order: TaxonomyOrder, maxSnippets: int, r: SkillWithConfidence)
    returns (k: string)
    requires Enumerates(tax, order)
    requires r in SkillsWithConfidence(text, tax, order, maxSnippets)
    ensures k in TableOf(Writes(tax, order)).entries
    ensures TableOf(Writes(tax, order)).entries[k].target == r.skill && Mentions(text, k, Word)
    ensures TargetOf(tax, r.skill)
  {
    TableValid(tax, order);
    var t := TableOf(Writes(tax, order));
    var g := MatchGroups(text, t);
    var u := Unsorted(text, tax, order, maxSnippets);
    assert u == Summaries(tax, g, maxSnippets);
    SortedFrom(u);
    assert r in u;
    SummaryInGroups(tax, g, maxSnippets, r);
    k := GroupKey(text, t, r.skill);
    TableTargets(tax, order);
  }

  lemma SummaryInGroups(tax: Taxonomy, g: Groups, maxSnippets: int, r: SkillWithConfidence)
    requires ValidGroups(g) && r in Summaries(tax, g, maxSnippets)
    ensures r.skill in g.lists
  {
    SummariesFacts(tax, g, maxSnippets);
  }

  lemma GroupKey(text: string, t: PatternTable, n: string) returns (k: string)
    requires ValidTable(t) && n in MatchGroups(text, t).lists
    ensures k in t.entries && t.entries[k].target == n && Mentions(text, k, Word)
  {
    MatchGroupsFrom(text, t);
    var i :| 0 <= i < |t.keys| && t.entries[t.keys[i]].target == n && Mentions(text, t.keys[i], Word);
    k := t.keys[i];
  }

  /** The records of the first `m` patterns begin the records of the first `n`. */
  lemma {:induction false} AllHitsPrefix(text: string, t: PatternTable, m: nat, n: nat)
    requires ValidTable(t) && m <= n <= |t.keys|
    ensures |AllHits(text, t, m)| <= |AllHits(text, t, n)|
    ensures AllHits(text, t, n)[..|AllHits(text, t, m)|] == AllHits(text, t, m)
  {
    if m < n {
      AllHitsPrefix(text, t, m, n - 1);
      var a, b := AllHits(text, t, n - 1), AllHits(text, t, m);
      assert t.keys[n - 1] in t.keys;
      assert AllHits(text, t, n) == a + HitsFor(text, t.keys[n - 1], t.entries[t.keys[n - 1]]);
      assert (a + HitsFor(text, t.keys[n - 1], t.entries[t.keys[n - 1]]))[..|b|] == a[..|b|];
    }
  }

  /** The records of pattern `i` are among the records of the first `n` patterns. */
  lemma AllHitsHas(text: string, t: PatternTable, n: nat, i: nat, k: nat)
    requires ValidTable(t) && i < n <= |t.keys|
    requires t.keys[i] in t.entries && k < |HitsFor(text, t.keys[i], t.entries[t.keys[i]])|
    ensures HitsFor(text, t.keys[i], t.entries[t.keys[i]])[k] in AllHits(text, t, n)
  {
    var hs := HitsFor(text, t.keys[i], t.entries[t.keys[i]]);
    var a := AllHits(text, t, i);
    assert AllHits(text, t, i + 1) == a + hs;
    assert AllHits(text, t, i + 1)[|a| + k] == hs[k];
    AllHitsPrefix(text, t, i + 1, n);
    assert AllHits(text, t, n)[|a| + k] == hs[k];
  }

  /** A pattern whose literal occurs in the text puts its skill among the groups. */
  lemma MentionedGroup(text: string, t: PatternTable, k: string)
    requires ValidTable(t) && k in t.keys && Mentions(text, k, Word)
    ensures k in t.entries && t.entries[k].target in MatchGroups(text, t).lists
  {
    var i :| 0 <= i < |t.keys| && t.keys[i] == k;
    FindAllFirst(text, k, Word, 0);
    var hs := HitsFor(text, k, t.entries[k]);
    assert hs[0].skill == t.entries[k].target;
    AllHitsHas(text, t, |t.keys|, i, 0);
    var all := AllHits(text, t, |t.keys|);
    assert hs[0] in all;
    var j :| 0 <= j < |all| && all[j] == hs[0];
    GroupOfValid(all);
  }

  /**
   * Nothing mentioned is lost: for a non-empty text, every pattern of the
   * table whose literal occurs in the text has its skill among the results.
   */
  lemma SkillsComplete(text: string, tax: Taxonomy, order: TaxonomyOrder, maxSnippets: int)
    requires Enumerates(tax, order)
    ensures text != [] ==> forall k :: k in TableOf(Writes(tax, order)).entries && Mentions(text, k, Word) ==>
      TableOf(Writes(tax, order)).entries[k].target in SkillNames(SkillsWithConfidence(text, tax, order, maxSnippets))
  {
    if text != [] {
      var t := TableOf(Writes(tax, order));
      forall k | k in t.entries && Mentions(text, k, Word)
        ensures t.entries[k].target in SkillNames(SkillsWithConfidence(text, tax, order, maxSnippets))
      {
        SkillOfKey(text, tax, order, maxSnippets, k);
      }
    }
  }

  lemma SkillOfKey(text: string, tax: Taxonomy, order: TaxonomyOrder, maxSnippets: int, k: string)
    requires Enumerates(tax, order) && text != []
    requires k in TableOf(Writes(tax, order)).entries && Mentions(text, k, Word)
    ensures TableOf(Writes(tax, order)).entries[k].target in SkillNames(SkillsWithConfidence(text, tax, order, maxSnippets))
  {
    TableValid(tax, order);
    TableOfKeys(Writes(tax, order));
    var t := TableOf(Writes(tax, order));
    MentionedGroup(text, t, k);
    GroupInResults(text, tax, order, maxSnippets, t.entries[k].target);
  }

  /** Every grouped skill gets a result. */
  lemma GroupInResults(text: string, tax: Taxonomy, order: TaxonomyOrder, maxSnippets: int, n: string)
    requires Enumerates(tax, order) && text != []
    requires ValidTable(TableOf(Writes(tax, order)))
    requires n in MatchGroups(text, TableOf(Writes(tax, order))).lists
    ensures n in SkillNames(SkillsWithConfidence(text, tax, order, maxSnippets))
  {
    var g := MatchGroups(text, TableOf(Writes(tax, order)));
    assert n in g.names;
    var i :| 0 <= i < |g.names| && g.names[i] == n;
    var u := Unsorted(text, tax, order, maxSnippets);
    assert u[i].skill == n;
    SortedNames(u, i);
  }

  /** Sorting loses no skill. */
  lemma SortedNames(u: seq<SkillWithConfidence>, i: nat)
    requires i < |u|
    ensures u[i].skill in SkillNames(SortResults(u))
  {
    var r := SortResults(u);
    assert u[i] in multiset(r);
    var j :| 0 <= j < |r| && r[j] == u[i];
    assert SkillNames(r)[j] == u[i].skill;
  }

  /** No variation list of the taxonomy spells `a`. */
  predicate NotAVariation(tax: Taxonomy, a: string) {
    forall c :: c in tax.variations ==> a !in tax.variations[c]
  }

  lemma {:induction false} VariationWritesAvoid(tax: Taxonomy, cs: seq<string>, a: string)
    requires forall c :: c in cs ==> c in tax.variations
    requires NotAVariation(tax, a)
    ensures forall i :: 0 <= i < |VariationWrites(tax, cs)| ==> VariationWrites(tax, cs)[i].key != a
  {
    if cs != [] {
      VariationWritesAvoid(tax, cs[..|cs| - 1], a);
      var c := cs[|cs| - 1];
      assert c in cs;
      var vw := VariantWrites(c, tax.variations[c]);
      forall i | 0 <= i < |vw| ensures vw[i].key != a {
        assert vw[i].key == tax.variations[c][i];
      }
    }
  }

  /** An alias that no variation list repeats keeps its own entry in the table. */
  lemma AliasEntry(tax: Taxonomy, order: TaxonomyOrder, a: string)
    requires Enumerates(tax, order) && a in tax.aliases && NotAVariation(tax, a)
    ensures a in TableOf(Writes(tax, order)).entries
    ensures TableOf(Writes(tax, order)).entries[a] == Entry(tax.aliases[a], a)
  {
    var ws := Writes(tax, order);
    var cw, aw, vw := CanonicalWrites(order.canonical), AliasWrites(tax, order.aliases), VariationWrites(tax, order.variations);
    var p :| 0 <= p < |order.aliases| && order.aliases[p] == a;
    var i := |cw| + p;
    assert ws[i] == aw[p];
    VariationWritesAvoid(tax, order.variations, a);
    forall j | i < j < |ws| ensures ws[j].key != a {
      if j < |cw| + |aw| {
        assert ws[j] == aw[j - |cw|];
        assert order.aliases[j - |cw|] != a;
      } else {
        assert ws[j] == vw[j - |cw| - |aw|];
      }
    }
    TableOfLastWins(ws, i);
  }

  /**
   * An alias that no variation list repeats keeps its canonical name: when
   * it occurs as a word of a non-empty text, that name is among the results.
   */
  lemma AliasFound(text: string, tax: Taxonomy, order: TaxonomyOrder, maxSnippets: int, a: string)
    requires Enumerates(tax, order) && text != []
    requires a in tax.aliases && NotAVariation(tax, a) && Mentions(text, a, Word)
    ensures tax.aliases[a] in SkillNames(SkillsWithConfidence(text, tax, order, maxSnippets))
  {
    AliasEntry(tax, order, a);
    SkillOfKey(text, tax, order, maxSnippets, a);
  }

  /** The alias on its own, as the whole text, brings in its canonical name. */
  lemma AliasAlone(tax: Taxonomy, order: TaxonomyOrder, maxSnippets: int, a: string)
    requires Enumerates(tax, order) && a != []
    requires a in tax.aliases && NotAVariation(tax, a)
    ensures tax.aliases[a] in SkillNames(SkillsWithConfidence(a, tax, order, maxSnippets))
  {
    assert a[0..|a|] == a;
    assert MatchesAt(a, 0, a, Word);
    MentionsIff(a, a, Word);
    AliasFound(a, tax, order, maxSnippets, a);
  }

  /** Sorting permutes records, so distinct skills stay distinct. */
  lemma SortedDistinct(a: seq<SkillWithConfidence>, b: seq<SkillWithConfidence>)
    requires NoDup(SkillNames(a)) && multiset(a) == multiset(b)
    ensures NoDup(SkillNames(b))
  {
    assert NoDup(a) by {
      forall i, j | 0 <= i < j < |a| ensures a[i] != a[j] {
        assert SkillNames(a)[i] != SkillNames(a)[j];
      }
    }
    MultisetNoDup(a, b);
    forall i, j | 0 <= i < j < |b| ensures b[i].skill != b[j].skill {
      assert b[i] in multiset(a) && b[j] in multiset(a);
      var p :| 0 <= p < |a| && a[p] == b[i];
      var q :| 0 <= q < |a| && a[q] == b[j];
      assert SkillNames(a)[p] == b[i].skill;
      assert SkillNames(a)[q] == b[j].skill;
    }
  }

  /** `extract_skills`: the skills of the results, ascending. */
  method ExtractSkills(text: string, tax: Taxonomy, order: TaxonomyOrder) returns (skills: seq<string>)
    requires Enumerates(tax, order)
    ensures StrictlySorted(skills)
    ensures forall s :: s in skills <==> s in SkillNames(SkillsWithConfidence(text, tax, order, 2))
    ensures text == [] ==> skills == []
  {
    if text == [] {
      return [];
    }
    var results := ExtractSkillsWithConfidence(text, tax, order, 2);
    SkillsDistinct(text, tax, order, 2);
    var names := SkillNames(results);
    skills := SortStrings(names);
    MultisetNoDup(names, skills);
    SortedNoDupIsStrict(skills);
    assert forall s :: s in skills <==> s in multiset(skills);
    assert forall s :: s in names <==> s in multiset(names);
  }
}
