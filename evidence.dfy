/**
 * Evidence for explainability: the resume text cut into sentences and
 * bullets, and for each of the first skills the sentences that mention it.
 */
module Evidence {
  import opened Text
  import opened Seqs
  import Cleaning

  // ---------------------------------------------------------------------
  // _split_sentences
  // ---------------------------------------------------------------------

  const Bullet: char := '•'

  predicate EndsSentence(c: char) { c == '.' || c == '!' || c == '?' }

  /** Length of the run of `c` starting at `i`. */
  function RunOf(s: string, i: nat, c: char): (n: nat)
    requires i <= |s|
    ensures i + n <= |s|
    ensures forall j :: i <= j < i + n ==> s[j] == c
    ensures i + n < |s| ==> s[i + n] != c
    decreases |s| - i
  {
    if i < |s| && s[i] == c then 1 + RunOf(s, i + 1, c) else 0
  }

  /** Length of the run of whitespace starting at `i`. */
  function WsRun(s: string, i: nat): (n: nat)
    requires i <= |s|
    ensures i + n <= |s|
    ensures forall j :: i <= j < i + n ==> IsSpace(s[j])
    ensures i + n < |s| ==> !IsSpace(s[i + n])
    decreases |s| - i
  {
    if i < |s| && IsSpace(s[i]) then 1 + WsRun(s, i + 1) else 0
  }

  /**
   * Length of the separator `\n+|(?<=[.!?])\s+|•|- ` matching at `i`, the
   * alternatives tried in that order, or 0 when none matches. The
   * look-behind sees the character before `i` in the whole string.
   */
  function SepLen(s: string, i: nat): (n: nat)
    requires i < |s|
    ensures i + n <= |s|
    ensures n == 0 ==> s[i] != '\n' && s[i] != Bullet
  {
    if s[i] == '\n' then RunOf(s, i, '\n')
    else if i > 0 && EndsSentence(s[i - 1]) && IsSpace(s[i]) then WsRun(s, i)
    else if s[i] == Bullet then 1
    else if s[i] == '-' && i + 1 < |s| && s[i + 1] == ' ' then 2
    else 0
  }

  /**
   * `re.split` with that separator, scanning from `i` while the current
   * piece began at `start`: no separator starts in `s[start..i]`.
   */
  function Pieces(s: string, start: nat, i: nat): (r: seq<string>)
    requires start <= i <= |s|
    requires forall j :: start <= j < i ==> s[j] != '\n' && s[j] != Bullet
    ensures r != []
    ensures forall k :: 0 <= k < |r| ==> '\n' !in r[k] && Bullet !in r[k]
    decreases |s| - i
  {
    if i == |s| then
      assert forall c :: c in s[start..] ==> exists j :: start <= j < |s| && s[j] == c;
      [s[start..]]
    else
      var n := SepLen(s, i);
      if n > 0 then
        assert forall c :: c in s[start..i] ==> exists j :: start <= j < i && s[j] == c;
        [s[start..i]] + Pieces(s, i + n, i + n)
      else Pieces(s, start, i + 1)
  }

  /** The separators `Pieces` cuts at, in order: one fewer than the pieces. */
  function Seps(s: string, start: nat, i: nat): seq<string>
    requires start <= i <= |s|
    decreases |s| - i
  {
    if i == |s| then []
    else
      var n := SepLen(s, i);
      if n > 0 then [s[i..i + n]] + Seps(s, i + n, i + n)
      else Seps(s, start, i + 1)
  }

  /** What the separator can match: a run of newlines, a run of whitespace, a bullet, or `- `. */
  predicate IsSeparatorText(t: string) {
    || (t != [] && forall j :: 0 <= j < |t| ==> t[j] == '\n')
    || (t != [] && forall j :: 0 <= j < |t| ==> IsSpace(t[j]))
    || t == [Bullet]
    || t == "- "
  }

  lemma SepLenText(s: string, i: nat)
    requires i < |s| && SepLen(s, i) > 0
    ensures IsSeparatorText(s[i..i + SepLen(s, i)])
  {
    var n := SepLen(s, i);
    var t := s[i..i + n];
    assert forall j :: 0 <= j < |t| ==> t[j] == s[i + j];
  }

  /** Every element is separator text. */
  predicate AllSeparators(ss: seq<string>) {
    forall k :: 0 <= k < |ss| ==> IsSeparatorText(ss[k])
  }

  /** No element holds a newline or a bullet. */
  predicate AllPlain(ps: seq<string>) {
    forall k :: 0 <= k < |ps| ==> '\n' !in ps[k] && Bullet !in ps[k]
  }

  /** At a separator, the current piece ends and the separator is cut off. */
  lemma PiecesStep(s: string, start: nat, i: nat)
    requires start <= i < |s| && SepLen(s, i) > 0
    requires forall j :: start <= j < i ==> s[j] != '\n' && s[j] != Bullet
    ensures Pieces(s, start, i) == [s[start..i]] + Pieces(s, i + SepLen(s, i), i + SepLen(s, i))
    ensures Seps(s, start, i) == [s[i..i + SepLen(s, i)]] + Seps(s, i + SepLen(s, i), i + SepLen(s, i))
  {
  }

  /** Away from a separator, the scan moves on within the current piece. */
  lemma PiecesSkip(s: string, start: nat, i: nat)
    requires start <= i < |s| && SepLen(s, i) == 0
    requires forall j :: start <= j < i ==> s[j] != '\n' && s[j] != Bullet
    ensures forall j :: start <= j < i + 1 ==> s[j] != '\n' && s[j] != Bullet
    ensures Pieces(s, start, i) == Pieces(s, start, i + 1)
    ensures Seps(s, start, i) == Seps(s, start, i + 1)
  {
  }

  /** Putting back one cut: the piece before it, the separator, then the rest. */
  lemma JoinAtCut(s: string, start: nat, i: nat, n: nat, ps: seq<string>, ss: seq<string>)
    requires start <= i && i + n <= |s| && |ps| == |ss| + 1
    requires Interleave(ps, ss) == s[i + n..]
    ensures Interleave([s[start..i]] + ps, [s[i..i + n]] + ss) == s[start..]
  {
    InterleaveCons(s[start..i], ps, s[i..i + n], ss);
    CutThrice(s, start, i, i + n);
  }

  lemma SeparatorsCons(sep: string, ss: seq<string>)
    requires IsSeparatorText(sep) && AllSeparators(ss)
    ensures AllSeparators([sep] + ss)
  {
    forall k | 0 < k < |[sep] + ss| ensures IsSeparatorText(([sep] + ss)[k]) {
      assert ([sep] + ss)[k] == ss[k - 1];
    }
  }

  /** No separator can start in `s[start..i]`: the state `Pieces` scans from. */
  predicate InPiece(s: string, start: nat, i: nat) {
    start <= i <= |s| && forall j :: start <= j < i ==> s[j] != '\n' && s[j] != Bullet
  }

  /** The pieces and separators from `start` put back together give `s[start..]`. */
  ghost predicate Reassembled(s: string, start: nat, i: nat)
    requires InPiece(s, start, i)
  {
    && |Pieces(s, start, i)| == |Seps(s, start, i)| + 1
    && Interleave(Pieces(s, start, i), Seps(s, start, i)) == s[start..]
    && AllSeparators(Seps(s, start, i))
    && AllPlain(Pieces(s, start, i))
  }

  lemma {:induction false} ReassembledCut(s: string, start: nat, i: nat, n: nat)
    requires InPiece(s, start, i) && i < |s| && n == SepLen(s, i) && n > 0
    requires InPiece(s, i + n, i + n) && Reassembled(s, i + n, i + n)
    ensures Reassembled(s, start, i)
  {
    var ps, ss := Pieces(s, i + n, i + n), Seps(s, i + n, i + n);
    PiecesStep(s, start, i);
    assert Pieces(s, start, i) == [s[start..i]] + ps && Seps(s, start, i) == [s[i..i + n]] + ss;
    JoinAtCut(s, start, i, n, ps, ss);
    SepLenText(s, i);
    SeparatorsCons(s[i..i + n], ss);
  }

  lemma ReassembledSkip(s: string, start: nat, i: nat)
    requires InPiece(s, start, i) && i < |s| && SepLen(s, i) == 0
    ensures InPiece(s, start, i + 1)
    ensures Reassembled(s, start, i + 1) ==> Reassembled(s, start, i)
  {
    PiecesSkip(s, start, i);
  }

  lemma ReassembledEnd(s: string, start: nat)
    requires InPiece(s, start, |s|)
    ensures Reassembled(s, start, |s|)
  {
    assert Pieces(s, start, |s|) == [s[start..]] && Seps(s, start, |s|) == [];
    assert Interleave([s[start..]], []) == s[start..];
  }

  lemma {:induction false} ReassembledFrom(s: string, start: nat, i: nat)
    requires InPiece(s, start, i)
    ensures Reassembled(s, start, i)
    decreases |s| - i, 1
  {
    if i == |s| {
      ReassembledEnd(s, start);
    } else if SepLen(s, i) > 0 {
      ReassembledAtCut(s, start, i);
    } else {
      ReassembledAtSkip(s, start, i);
    }
  }

  lemma {:induction false} ReassembledAtCut(s: string, start: nat, i: nat)
    requires InPiece(s, start, i) && i < |s| && SepLen(s, i) > 0
    ensures Reassembled(s, start, i)
    decreases |s| - i, 0
  {
    var n := SepLen(s, i);
    assert InPiece(s, i + n, i + n);
    ReassembledFrom(s, i + n, i + n);
    ReassembledCut(s, start, i, n);
  }

  lemma {:induction false} ReassembledAtSkip(s: string, start: nat, i: nat)
    requires InPiece(s, start, i) && i < |s| && SepLen(s, i) == 0
    ensures Reassembled(s, start, i)
    decreases |s| - i, 0
  {
    ReassembledSkip(s, start, i);
    ReassembledFrom(s, start, i + 1);
  }

  /**
   * `re.split` cuts the text at its separators and nowhere else: put back
   * between the pieces, the separators give the text again, and each
   * separator is non-empty text the separator pattern matches; no piece
   * holds a newline or a bullet.
   */
  lemma PiecesReassemble(s: string)
    ensures |Pieces(s, 0, 0)| == |Seps(s, 0, 0)| + 1
    ensures Interleave(Pieces(s, 0, 0), Seps(s, 0, 0)) == s
    ensures AllSeparators(Seps(s, 0, 0))
    ensures AllPlain(Pieces(s, 0, 0))
  {
    assert InPiece(s, 0, 0);
    ReassembledFrom(s, 0, 0);
    assert s[0..] == s;
  }

  /** Every piece with its whitespace runs collapsed to one space and its ends stripped. */
  function Tidy(pieces: seq<string>): (r: seq<string>)
    ensures |r| == |pieces|
  {
    seq(|pieces|, k requires 0 <= k < |pieces| => Strip(CollapseWs(pieces[k])))
  }

  predicate SentenceLength(s: string) { 15 <= |s| <= 700 }

  /** What `_split_sentences` returns. */
  function Sentences(text: string): seq<string> {
    var raw := Cleaning.ReplaceCrLf(text);
    Filter(Tidy(Pieces(raw, 0, 0)), SentenceLength)
  }

  /** The loop of `_split_sentences` over the pieces. */
  method SplitSentences(text: string) returns (out: seq<string>)
    ensures out == Sentences(text)
  {
    var raw := Cleaning.ReplaceCrLf(text);
    var parts := Pieces(raw, 0, 0);
    ghost var tidy := Tidy(parts);
    out := [];
    for k := 0 to |parts|
      invariant out == Filter(tidy[..k], SentenceLength)
    {
      var s := Strip(CollapseWs(parts[k]));
      assert tidy[k] == s;
      FilterPrefixStep(tidy, k, SentenceLength);
      if 15 <= |s| <= 700 {
        out := out + [s];
      }
    }
    assert tidy[..|parts|] == tidy;
  }

  /** A slice of a string with only single spaces has only single spaces. */
  lemma CollapsedSlice(s: string, a: nat, b: nat)
    requires IsCollapsed(s) && a <= b <= |s|
    ensures IsCollapsed(s[a..b])
  {
    var t := s[a..b];
    forall i | 0 <= i < |t| - 1 ensures !(t[i] == ' ' && t[i + 1] == ' ') {
      assert t[i] == s[a + i] && t[i + 1] == s[a + i + 1];
    }
  }

  /**
   * Every sentence is 15 to 700 characters, stripped, has only single
   * spaces for whitespace, and holds no bullet and no newline.
   */
  lemma SentencesShape(text: string)
    ensures forall k :: 0 <= k < |Sentences(text)| ==>
      var s := Sentences(text)[k];
      SentenceLength(s) && IsStripped(s) && IsCollapsed(s) && Bullet !in s && '\n' !in s
  {
    var pieces := Pieces(Cleaning.ReplaceCrLf(text), 0, 0);
    var tidy := Tidy(pieces);
    forall k | 0 <= k < |tidy|
      ensures IsStripped(tidy[k]) && IsCollapsed(tidy[k]) && Bullet !in tidy[k] && '\n' !in tidy[k]
    {
      var c := CollapseWs(pieces[k]);
      assert IsCollapsed(c);
      CollapsedSlice(c, LeadingSpaces(c), StripEnd(c));
      assert Bullet !in c && '\n' !in c;
    }
  }

  // ---------------------------------------------------------------------
  // The hits for one skill
  // ---------------------------------------------------------------------

  /** The search in `extract_skill_evidence`: the term between characters that are not ASCII letters or digits, ignoring case. */
  predicate MentionsSkill(n: string, sentence: string) {
    Mentions(sentence, n, Alnum)
  }

  /** The search for `n` as a filter. */
  function Mentioner(n: string): string -> bool {
    (sent: string) => MentionsSkill(n, sent)
  }

  /**
   * The hits the inner loop collects: it stops once `max` hits are found,
   * and since the test follows every sentence, a `max` below 1 stops it
   * after the first sentence.
   */
  function SkillHits(sentences: seq<string>, n: string, max: int): seq<string> {
    var mentions := Mentioner(n);
    if max >= 1 then Take(Filter(sentences, mentions), max)
    else Filter(Take(sentences, 1), mentions)
  }

  /** The positions in `s` of the elements `Filter` keeps, ascending. */
  function FilterIndices<T>(s: seq<T>, p: T -> bool): (r: seq<nat>)
    ensures |r| == |Filter(s, p)|
    ensures forall k :: 0 <= k < |r| ==> r[k] < |s| && s[r[k]] == Filter(s, p)[k]
    ensures forall k, l :: 0 <= k < l < |r| ==> r[k] < r[l]
  {
    if s == [] then []
    else
      var last := |s| - 1;
      var init := s[..last];
      var r := FilterIndices(init, p);
      assert forall k :: 0 <= k < |r| ==> s[r[k]] == init[r[k]];
      if p(s[last]) then
        assert Filter(s, p) == Filter(init, p) + [s[last]];
        var r' := r + [last];
        assert forall k :: 0 <= k < |r| ==> r'[k] == r[k];
        r'
      else
        assert Filter(s, p) == Filter(init, p);
        r
  }

  /** `a` is `b` with some elements left out: its elements sit at ascending positions of `b`. */
  ghost predicate InOrder<T>(a: seq<T>, b: seq<T>) {
    exists idx: seq<nat> ::
      && |idx| == |a|
      && (forall k :: 0 <= k < |idx| ==> idx[k] < |b| && b[idx[k]] == a[k])
      && (forall k, l :: 0 <= k < l < |idx| ==> idx[k] < idx[l])
  }

  lemma FilterInOrder<T>(s: seq<T>, p: T -> bool, n: nat)
    requires n <= |Filter(s, p)|
    ensures InOrder(Filter(s, p)[..n], s)
  {
    var all, f := FilterIndices(s, p), Filter(s, p);
    var idx := all[..n];
    var a := f[..n];
    assert |idx| == |a|;
    assert forall k :: 0 <= k < |idx| ==> idx[k] < |s| && s[idx[k]] == a[k] by {
      forall k | 0 <= k < |idx| ensures idx[k] < |s| && s[idx[k]] == a[k] {
        assert idx[k] == all[k] && a[k] == f[k];
      }
    }
    assert forall k, l :: 0 <= k < l < |idx| ==> idx[k] < idx[l] by {
      forall k, l | 0 <= k < l < |idx| ensures idx[k] < idx[l] {
        assert idx[k] == all[k] && idx[l] == all[l];
      }
    }
  }

  /**
   * The hits for a skill: at most `max` of them (at most one when `max` is
   * below 1), each a sentence that mentions the skill, in sentence order.
   */
  lemma SkillHitsFacts(sentences: seq<string>, n: string, max: int)
    ensures var h := SkillHits(sentences, n, max);
      && |h| <= (if max >= 1 then max else 1)
      && (forall k :: 0 <= k < |h| ==> h[k] in sentences && MentionsSkill(n, h[k]))
      && InOrder(h, sentences)
  {
    var mentions := Mentioner(n);
    var h := SkillHits(sentences, n, max);
    if max >= 1 {
      var f := Filter(sentences, mentions);
      FilterInOrder(sentences, mentions, |h|);
      assert forall k :: 0 <= k < |h| ==> h[k] == f[k];
    } else {
      var first := Take(sentences, 1);
      FilterInOrder(first, mentions, |h|);
      assert Filter(first, mentions)[..|h|] == h;
      InOrderPrefix(h, first, sentences);
    }
  }

  /** Positions in a prefix are positions in the whole. */
  lemma InOrderPrefix<T>(a: seq<T>, b: seq<T>, c: seq<T>)
    requires InOrder(a, b) && b <= c
    ensures InOrder(a, c)
  {
    var idx: seq<nat> :| && |idx| == |a|
               && (forall k :: 0 <= k < |idx| ==> idx[k] < |b| && b[idx[k]] == a[k])
               && (forall k, l :: 0 <= k < l < |idx| ==> idx[k] < idx[l]);
    assert forall k :: 0 <= k < |idx| ==> idx[k] < |c| && c[idx[k]] == a[k];
  }

  /** A filtered prefix is a prefix of the filtered whole. */
  lemma {:induction false} FilterPrefix<T>(s: seq<T>, p: T -> bool, i: nat)
    requires i <= |s|
    ensures Filter(s[..i], p) <= Filter(s, p)
    decreases |s| - i
  {
    if i < |s| {
      var init := s[..|s| - 1];
      assert init[..i] == s[..i];
      FilterPrefix(init, p, i);
    } else {
      assert s[..i] == s;
    }
  }

  /** The inner loop of `extract_skill_evidence`, with its early `break`. */
  method CollectHits(sentences: seq<string>, n: string, max: int) returns (hits: seq<string>)
    ensures hits == SkillHits(sentences, n, max)
  {
    var mentions := Mentioner(n);
    hits := [];
    var i := 0;
    while i < |sentences|
      invariant 0 <= i <= |sentences|
      invariant hits == Filter(sentences[..i], mentions)
      invariant max >= 1 ==> |hits| < max
      invariant max < 1 ==> i == 0
    {
      var sent := sentences[i];
      FilterPrefixStep(sentences, i, mentions);
      assert mentions(sent) == MentionsSkill(n, sent);
      if MentionsSkill(n, sent) {
        hits := hits + [sent];
      }
      i := i + 1;
      if |hits| >= max {
        HitsWhenStopped(sentences, n, max, i);
        return;
      }
    }
    assert sentences[..i] == sentences;
  }

  /** The hits in `sentences[..i]` once the loop stops there. */
  lemma HitsWhenStopped(sentences: seq<string>, n: string, max: int, i: nat)
    requires 0 < i <= |sentences|
    requires max >= 1 ==> |Filter(sentences[..i], Mentioner(n))| == max
    requires max < 1 ==> i == 1
    ensures Filter(sentences[..i], Mentioner(n)) == SkillHits(sentences, n, max)
  {
    var f := Filter(sentences[..i], Mentioner(n));
    if max >= 1 {
      FilterPrefix(sentences, Mentioner(n), i);
      assert Take(Filter(sentences, Mentioner(n)), max) == f;
    } else {
      assert Take(sentences, 1) == sentences[..i];
    }
  }

  // ---------------------------------------------------------------------
  // extract_skill_evidence
  // ---------------------------------------------------------------------

  /** The `evidence` dict: its keys in insertion order and its entries. */
  datatype Evidence = Evidence(keys: seq<string>, hits: map<string, seq<string>>)

  /** `evidence[skill] = hits`: a new key goes last, an existing key keeps its place. */
  function Put(e: Evidence, skill: string, h: seq<string>): Evidence {
    if skill in e.hits then Evidence(e.keys, e.hits[skill := h])
    else Evidence(e.keys + [skill], e.hits[skill := h])
  }

  /**
   * A skill is stored when its normalized form is non-blank, occurs in the
   * lowercased text and is mentioned by some sentence.
   */
  predicate Kept(sentences: seq<string>, textLower: string, skill: string, maxSnippets: int) {
    && Norm(skill) != []
    && IsSubstring(Norm(skill), textLower)
    && SkillHits(sentences, Norm(skill), maxSnippets) != []
  }

  /** The evidence after the outer loop has seen `skills`. */
  function EvidenceOf(sentences: seq<string>, textLower: string, skills: seq<string>, maxSnippets: int): Evidence {
    if skills == [] then Evidence([], map[])
    else
      var e := EvidenceOf(sentences, textLower, skills[..|skills| - 1], maxSnippets);
      var skill := skills[|skills| - 1];
      if Kept(sentences, textLower, skill, maxSnippets) then Put(e, skill, SkillHits(sentences, Norm(skill), maxSnippets))
      else e
  }

  /** What `extract_skill_evidence` returns. */
  function SkillEvidence(resumeText: string, skills: seq<string>, maxSkills: int, maxSnippets: int): Evidence {
    EvidenceOf(Sentences(resumeText), Lower(resumeText), Take(skills, maxSkills), maxSnippets)
  }

  /** One step of the outer loop. */
  method AddSkill(e: Evidence, sentences: seq<string>, textLower: string, skill: string, maxSnippets: int)
    returns (e': Evidence)
    ensures e' == if Kept(sentences, textLower, skill, maxSnippets)
                  then Put(e, skill, SkillHits(sentences, Norm(skill), maxSnippets)) else e
  {
    var n := Norm(skill);
    if n == [] || !IsSubstring(n, textLower) {
      return e;
    }
    var hits := CollectHits(sentences, n, maxSnippets);
    e' := if hits != [] then Put(e, skill, hits) else e;
  }

  /** `extract_skill_evidence` (the text is never `None` here). */
  method ExtractSkillEvidence(resumeText: string, skills: seq<string>, maxSkills: int, maxSnippets: int)
    returns (e: Evidence)
    ensures e == SkillEvidence(resumeText, skills, maxSkills, maxSnippets)
  {
    var sentences := SplitSentences(resumeText);
    var textLower := Lower(resumeText);
    var first := Take(skills, maxSkills);
    e := Evidence([], map[]);
    for i := 0 to |first|
      invariant e == EvidenceOf(sentences, textLower, first[..i], maxSnippets)
    {
      EvidenceOfStep(sentences, textLower, first, i, maxSnippets);
      e := AddSkill(e, sentences, textLower, first[i], maxSnippets);
    }
    assert first[..|first|] == first;
  }

  lemma EvidenceOfStep(sentences: seq<string>, textLower: string, skills: seq<string>, i: nat, maxSnippets: int)
    requires i < |skills|
    ensures var e, skill := EvidenceOf(sentences, textLower, skills[..i], maxSnippets), skills[i];
      EvidenceOf(sentences, textLower, skills[..i + 1], maxSnippets) ==
        if Kept(sentences, textLower, skill, maxSnippets) then Put(e, skill, SkillHits(sentences, Norm(skill), maxSnippets))
        else e
  {
    assert skills[..i + 1][..i] == skills[..i];
  }

  /**
   * The keys are distinct skills taken from the list, exactly the entries
   * of the dict, so there are at most as many as skills examined.
   */
  lemma {:induction false} EvidenceKeys(sentences: seq<string>, textLower: string, skills: seq<string>, maxSnippets: int)
    ensures var e := EvidenceOf(sentences, textLower, skills, maxSnippets);
      && NoDup(e.keys)
      && (forall k :: k in e.keys <==> k in e.hits)
      && (forall k :: k in e.keys ==> k in skills)
      && |e.keys| <= |skills|
  {
    if skills != [] {
      var init := skills[..|skills| - 1];
      EvidenceKeys(sentences, textLower, init, maxSnippets);
      var e := EvidenceOf(sentences, textLower, init, maxSnippets);
      assert forall k :: k in init ==> k in skills;
      var skill := skills[|skills| - 1];
      if skill !in e.hits {
        assert skill !in e.keys;
      }
    }
  }

  /**
   * An entry is stored exactly for a listed skill whose normalized form is
   * non-blank, occurs in the lowercased text and is mentioned by some
   * sentence; its value is that skill's non-empty hit list.
   */
  lemma {:induction false} EvidenceEntries(sentences: seq<string>, textLower: string, skills: seq<string>, maxSnippets: int)
    ensures var e := EvidenceOf(sentences, textLower, skills, maxSnippets);
      forall k :: k in e.hits <==> k in skills && Kept(sentences, textLower, k, maxSnippets)
    ensures var e := EvidenceOf(sentences, textLower, skills, maxSnippets);
      forall k :: k in e.hits ==> e.hits[k] == SkillHits(sentences, Norm(k), maxSnippets)
  {
    if skills != [] {
      var init, last := skills[..|skills| - 1], skills[|skills| - 1];
      EvidenceEntries(sentences, textLower, init, maxSnippets);
      assert forall k :: k in skills <==> k in init || k == last;
      var e0 := EvidenceOf(sentences, textLower, init, maxSnippets);
      var e := EvidenceOf(sentences, textLower, skills, maxSnippets);
      var kept := Kept(sentences, textLower, last, maxSnippets);
      var h := SkillHits(sentences, Norm(last), maxSnippets);
      assert e.hits == if kept then e0.hits[last := h] else e0.hits;
      forall k
        ensures k in e.hits <==> k in skills && Kept(sentences, textLower, k, maxSnippets)
        ensures k in e.hits ==> e.hits[k] == SkillHits(sentences, Norm(k), maxSnippets)
      {
        if k != last {
          assert k in e.hits <==> k in e0.hits;
          assert k in skills <==> k in init;
        }
      }
    }
  }

  /**
   * Over the whole text: at most `max_skills` keys, each from
   * `skills[:max_skills]`; every stored list is non-empty, bounded by
   * `max_snippets_per_skill` (by 1 when that is below 1), made of
   * sentences that mention the skill, in sentence order.
   */
  lemma SkillEvidenceFacts(resumeText: string, skills: seq<string>, maxSkills: int, maxSnippets: int)
    ensures var e := SkillEvidence(resumeText, skills, maxSkills, maxSnippets);
      && NoDup(e.keys) && |e.keys| <= |Take(skills, maxSkills)|
      && (forall k :: k in e.keys ==> k in Take(skills, maxSkills))
      && forall k :: k in e.hits ==>
        var h := e.hits[k];
        && h != [] && |h| <= (if maxSnippets >= 1 then maxSnippets else 1)
        && (forall j :: 0 <= j < |h| ==> h[j] in Sentences(resumeText) && MentionsSkill(Norm(k), h[j]))
        && InOrder(h, Sentences(resumeText))
  {
    var sentences, textLower, first := Sentences(resumeText), Lower(resumeText), Take(skills, maxSkills);
    EvidenceKeys(sentences, textLower, first, maxSnippets);
    EvidenceEntries(sentences, textLower, first, maxSnippets);
    forall k | k in EvidenceOf(sentences, textLower, first, maxSnippets).hits
      ensures var h := SkillHits(sentences, Norm(k), maxSnippets);
        && |h| <= (if maxSnippets >= 1 then maxSnippets else 1)
        && (forall j :: 0 <= j < |h| ==> h[j] in sentences && MentionsSkill(Norm(k), h[j]))
        && InOrder(h, sentences)
    {
      SkillHitsFacts(sentences, Norm(k), maxSnippets);
    }
  }
}
