/**
 * The curated skill taxonomy: canonical names, aliases that map onto them,
 * and per-skill lists of spelling variations; and `SkillTaxonomy.normalize`,
 * which maps a free-form skill string onto the taxonomy.
 *
 * Python iterates the set and the two dicts in an order the program does not
 * control; a `TaxonomyOrder` spells that order out.
 */
module SkillTaxonomy {
  import opened Wrappers
  import opened Text
  import opened Seqs

  datatype Taxonomy = Taxonomy(
    canonical: set<string>,
    aliases: map<string, string>,
    variations: map<string, seq<string>>)

  /** The iteration order of `canonical`, `aliases` and `variations`. */
  datatype TaxonomyOrder = TaxonomyOrder(
    canonical: seq<string>,
    aliases: seq<string>,
    variations: seq<string>)

  /** `order` lists every canonical name, alias and variation key exactly once. */
  ghost predicate Enumerates(tax: Taxonomy, order: TaxonomyOrder) {
    && NoDup(order.canonical) && (forall c :: c in order.canonical <==> c in tax.canonical)
    && NoDup(order.aliases) && (forall a :: a in order.aliases <==> a in tax.aliases)
    && NoDup(order.variations) && (forall c :: c in order.variations <==> c in tax.variations)
  }

  /** Every alias and every variation list points at a canonical name. */
  predicate WellFormed(tax: Taxonomy) {
    && (forall a :: a in tax.aliases ==> tax.aliases[a] in tax.canonical)
    && (forall c :: c in tax.variations ==> c in tax.canonical)
  }

  /** `s` is `c` itself or one of its listed variations, compared lowercased. */
  predicate IsFormOf(tax: Taxonomy, c: string, s: string) {
    c in tax.variations && (s == Lower(c) || exists v :: v in tax.variations[c] && Lower(v) == s)
  }

  /**
   * The first variation key, in iteration order, of which `s` is a form
   * (the loop over `variations.items()`).
   */
  function FindVariation(tax: Taxonomy, order: seq<string>, s: string): (r: Option<string>)
    requires forall c :: c in order ==> c in tax.variations
    ensures r.Some? ==> r.value in order && IsFormOf(tax, r.value, s)
    ensures r.Some? ==> forall k :: 0 <= k < IndexOf(order, r.value) ==> !IsFormOf(tax, order[k], s)
    ensures r.None? ==> forall c :: c in order ==> !IsFormOf(tax, c, s)
  {
    if order == [] then None
    else if IsFormOf(tax, order[0], s) then Some(order[0])
    else
      var r := FindVariation(tax, order[1..], s);
      assert forall c :: c in order ==> c == order[0] || c in order[1..];
      if r.Some? then
        assert forall k :: 1 <= k < |order| ==> order[k] == order[1..][k - 1];
        r
      else r
  }

  /** `SkillTaxonomy.normalize`. */
  function Normalize(tax: Taxonomy, order: TaxonomyOrder, skill: string): string
    requires Enumerates(tax, order)
  {
    var s := Lower(Strip(skill));
    if s in tax.aliases then tax.aliases[s]
    else match FindVariation(tax, order.variations, s)
      case Some(c) => c
      case None => s
  }

  /**
   * What `normalize` returns, case by case: the alias target when the
   * trimmed, lowercased input is an alias; otherwise the first variation key
   * (in iteration order) of which it is a form; otherwise the trimmed,
   * lowercased input itself, whether or not it is canonical.
   */
  lemma NormalizeCases(tax: Taxonomy, order: TaxonomyOrder, skill: string)
    requires Enumerates(tax, order)
    ensures var s, r := Lower(Strip(skill)), Normalize(tax, order, skill);
      || (s in tax.aliases && r == tax.aliases[s])
      || (&& s !in tax.aliases && IsFormOf(tax, r, s)
          && forall k :: 0 <= k < IndexOf(order.variations, r) ==> !IsFormOf(tax, order.variations[k], s))
      || (&& s !in tax.aliases && (forall c :: c in tax.variations ==> !IsFormOf(tax, c, s))
          && r == s)
  {
  }

  /** The trimmed, lowercased input names something the taxonomy knows. */
  predicate Known(tax: Taxonomy, s: string) {
    s in tax.canonical || s in tax.aliases || exists c :: c in tax.variations && IsFormOf(tax, c, s)
  }

  /** Under a well-formed taxonomy, `normalize` lands on a canonical name exactly for known input. */
  lemma NormalizeCanonical(tax: Taxonomy, order: TaxonomyOrder, skill: string)
    requires Enumerates(tax, order) && WellFormed(tax)
    ensures Normalize(tax, order, skill) in tax.canonical <==> Known(tax, Lower(Strip(skill)))
  {
  }

  /** The result of `normalize` is lowercase whenever the taxonomy's names are. */
  lemma NormalizeLowercase(tax: Taxonomy, order: TaxonomyOrder, skill: string)
    requires Enumerates(tax, order)
    requires forall a :: a in tax.aliases ==> IsLowercase(tax.aliases[a])
    requires forall c :: c in tax.variations ==> IsLowercase(c)
    ensures IsLowercase(Normalize(tax, order, skill))
  {
    LowerIsLowercase(Strip(skill));
  }

  /** `DEFAULT_TAXONOMY`. */
  function DefaultTaxonomy(): Taxonomy {
    Taxonomy(
      {
        "python", "java", "sql", "fastapi", "docker", "kubernetes", "aws", "gcp",
        "azure", "pandas", "numpy", "scikit-learn", "pytorch", "tensorflow", "nlp",
        "llm", "faiss", "rag", "git", "linux", "javascript", "typescript", "react",
        "node.js", "postgresql", "mongodb", "redis", "elasticsearch", "kafka", "spark",
        "hadoop", "flask", "django", "spring", "vue.js", "angular", "terraform",
        "jenkins", "ci/cd", "microservices"
      },
      map[
        "py" := "python",
        "sklearn" := "scikit-learn",
        "scikit learn" := "scikit-learn",
        "torch" := "pytorch",
        "tf" := "tensorflow",
        "js" := "javascript",
        "ts" := "typescript",
        "node" := "node.js",
        "postgres" := "postgresql",
        "mongo" := "mongodb",
        "es" := "elasticsearch",
        "apache spark" := "spark",
        "vue" := "vue.js",
        "vuejs" := "vue.js",
        "angularjs" := "angular"
      ],
      map[
        "pytorch" := ["PyTorch", "pytorch", "PyTorch", "PYTORCH", "torch"],
        "tensorflow" := ["TensorFlow", "tensorflow", "Tensorflow", "TENSORFLOW"],
        "python" := ["Python", "python", "PYTHON"],
        "java" := ["Java", "java", "JAVA"],
        "javascript" := ["JavaScript", "javascript", "JAVASCRIPT", "JS", "js"],
        "typescript" := ["TypeScript", "typescript", "TYPESCRIPT", "TS", "ts"],
        "react" := ["React", "react", "REACT", "React.js", "reactjs"],
        "node.js" := ["Node.js", "node.js", "NodeJS", "nodejs", "NODE.JS"],
        "postgresql" := ["PostgreSQL", "postgresql", "Postgres", "postgres"],
        "mongodb" := ["MongoDB", "mongodb", "Mongo", "mongo"],
        "aws" := ["AWS", "aws", "Amazon Web Services"],
        "docker" := ["Docker", "docker", "DOCKER"],
        "kubernetes" := ["Kubernetes", "kubernetes", "K8s", "k8s"],
        "git" := ["Git", "git", "GIT"],
        "linux" := ["Linux", "linux", "LINUX"]
      ])
  }

  /** Every alias and variation list of the default taxonomy points at one of its canonical names. */
  lemma DefaultWellFormed()
    ensures WellFormed(DefaultTaxonomy())
  {
  }
}
