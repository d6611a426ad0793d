/** `rulesJson` and `syncRules` (src/lib/publicApi.ts): choosing the static
    rules bundle for a language and planning the inserts of its parsed rules.
    Parsing (`Rule.parse`) and the bundles' contents are not part of this
    model: `load` stands for parsing a bundle with a language code, and is
    None when `Rule.parse` throws. */
module Rules {
  import opened Wrappers
  import opened Seqs
  import opened Chunks

  /** A parsed rule; `rules` is its list of sub-rules, undefined for a leaf. */
  datatype Rule = Rule(id: string, rules: Option<seq<Rule>>)

  /** The bundled rules files. */
  datatype Bundle = English | Spanish | Russian | German

  /** `rulesJson(lang)`: Spanish, Russian and German have their own bundle;
      every other language, and no language, falls back to English. */
  function RulesBundle(lang: Option<string>): (b: Bundle)
    ensures b == Spanish <==> lang == Some("es")
    ensures b == Russian <==> lang == Some("ru")
    ensures b == German <==> lang == Some("de")
    ensures b == English <==> lang != Some("es") && lang != Some("ru") && lang != Some("de")
  {
    match lang
    case Some("es") => Spanish
    case Some("ru") => Russian
    case Some("de") => German
    case _ => English
  }

  /** The language code of a bundle, `en` for the default one. */
  function BundleLanguage(b: Bundle): string
  {
    match b
    case English => "en"
    case Spanish => "es"
    case Russian => "ru"
    case German => "de"
  }

  /** Every bundle is the one chosen for its own language code. */
  lemma BundleLanguageRoundTrip(b: Bundle)
    ensures RulesBundle(Some(BundleLanguage(b))) == b
  {
  }

  /** `r.rules || []`. */
  function Children(r: Rule): seq<Rule>
  {
    r.rules.GetOr([])
  }

  /** `partition(allRules, r => !r.rules)`, first half: the leaves. */
  function SimpleRules(rules: seq<Rule>): (r: seq<Rule>)
    ensures forall x :: x in r ==> x.rules.None?
    decreases |rules|
  {
    if rules == [] then []
    else (if rules[0].rules.None? then [rules[0]] else []) + SimpleRules(rules[1..])
  }

  /** Second half of the partition: rules with a (possibly empty) list of
      sub-rules. */
  function ComplexRules(rules: seq<Rule>): (r: seq<Rule>)
    ensures forall x :: x in r ==> x.rules.Some?
    decreases |rules|
  {
    if rules == [] then []
    else (if rules[0].rules.Some? then [rules[0]] else []) + ComplexRules(rules[1..])
  }

  /** Every parsed rule goes to exactly one side of the partition. */
  lemma {:induction false} PartitionCoversRules(rules: seq<Rule>)
    ensures multiset(SimpleRules(rules) + ComplexRules(rules)) == multiset(rules)
    decreases |rules|
  {
    if rules != [] {
      var h, t := rules[0], rules[1..];
      PartitionCoversRules(t);
      PartitionStep(rules);
      assert rules == [h] + t;
    }
  }

  /** Adding one rule in front adds it to exactly one side. */
  lemma PartitionStep(rules: seq<Rule>)
    requires rules != []
    ensures multiset(SimpleRules(rules) + ComplexRules(rules))
         == multiset([rules[0]]) + multiset(SimpleRules(rules[1..]) + ComplexRules(rules[1..]))
  {
    var h, s, c := rules[0], SimpleRules(rules[1..]), ComplexRules(rules[1..]);
    if h.rules.None? {
      assert SimpleRules(rules) == [h] + s;
      assert ComplexRules(rules) == c;
      SeqMultisetFront(h, s, c);
    } else {
      assert SimpleRules(rules) == s;
      assert ComplexRules(rules) == [h] + c;
      SeqMultisetMiddle(h, s, c);
    }
  }

  lemma SeqMultisetFront<T>(h: T, s: seq<T>, c: seq<T>)
    ensures multiset([h] + s + c) == multiset([h]) + multiset(s + c)
  {
    assert [h] + s + c == [h] + (s + c);
  }

  lemma SeqMultisetMiddle<T>(h: T, s: seq<T>, c: seq<T>)
    ensures multiset(s + ([h] + c)) == multiset([h]) + multiset(s + c)
  {
  }

  /** `x` is one of `children` or one of their own children. */
  predicate InTwoLevels(children: seq<Rule>, x: Rule)
  {
    exists c :: c in children && (x == c || x in Children(c))
  }

  /** `flatMap(children, r2 => [r2, ...(r2.rules || [])])`. */
  function TwoLevels(children: seq<Rule>): (r: seq<Rule>)
    ensures forall x :: x in r <==> InTwoLevels(children, x)
    decreases |children|
  {
    if children == [] then []
    else
      var h, rest := children[0], TwoLevels(children[1..]);
      assert forall x :: InTwoLevels(children, x) <==> x == h || x in Children(h) || InTwoLevels(children[1..], x) by {
        forall x ensures InTwoLevels(children, x) <==> x == h || x in Children(h) || InTwoLevels(children[1..], x) {
          TwoLevelsStep(children, x);
        }
      }
      [h] + Children(h) + rest
  }

  lemma TwoLevelsStep(children: seq<Rule>, x: Rule)
    requires children != []
    ensures InTwoLevels(children, x) <==>
              x == children[0] || x in Children(children[0]) || InTwoLevels(children[1..], x)
  {
    var h := children[0];
    if InTwoLevels(children, x) {
      var c :| c in children && (x == c || x in Children(c));
      if c != h {
        assert c in children[1..];
      }
    }
    if InTwoLevels(children[1..], x) {
      var c :| c in children[1..] && (x == c || x in Children(c));
      assert c in children;
    }
    assert h in children;
  }

  /** The rows inserted for one complex rule: the rule itself, then its
      children each followed by its own children. */
  function ComplexBatch(r: Rule): (batch: seq<Rule>)
    ensures |batch| > 0 && batch[0] == r
    ensures forall x :: x in batch <==>
              x == r || x in Children(r) || exists c :: c in Children(r) && x in Children(c)
  {
    [r] + TwoLevels(Children(r))
  }

  /** Nothing below the grandchildren is inserted: a great-grandchild is in
      the batch only when it also sits at depth two or less. */
  lemma ComplexBatchDepth(r: Rule, c: Rule, g: Rule, x: Rule)
    requires c in Children(r) && g in Children(c) && x in Children(g)
    requires x != r && x !in Children(r)
    requires forall c' :: c' in Children(r) ==> x !in Children(c')
    ensures x !in ComplexBatch(r)
  {
  }

  /** The inserts `syncRules` issues: the chosen bundle, the leaf rules in
      batches, and one insert per complex rule. */
  datatype RulesPlan = RulesPlan(bundle: Bundle, simple: seq<seq<Rule>>, complex: seq<seq<Rule>>)

  /** `lang || 'en'`, the language `Rule.parse` receives. */
  function ParseLanguage(lang: Option<string>): (code: string)
    ensures code != ""
    ensures Present(lang) ==> code == lang.value
  {
    if Present(lang) then lang.value else "en"
  }

  /** `syncRules(db, lang)`: None when parsing the bundle throws. */
  function SyncRules(lang: Option<string>, load: (Bundle, string) -> Option<seq<Rule>>, isIos: bool): (plan: Option<RulesPlan>)
    ensures plan.None? <==> load(RulesBundle(lang), ParseLanguage(lang)).None?
    ensures plan.Some? ==> plan.value.bundle == RulesBundle(lang)
    ensures plan.Some? ==>
              var rules := load(RulesBundle(lang), ParseLanguage(lang)).value;
              && Flatten(plan.value.simple) == SimpleRules(rules)
              && (forall k :: 0 <= k < |plan.value.simple| ==> 0 < |plan.value.simple[k]| <= (if isIos then 50 else 8))
              && |plan.value.complex| == |ComplexRules(rules)|
              && forall k :: 0 <= k < |plan.value.complex| ==> plan.value.complex[k] == ComplexBatch(ComplexRules(rules)[k])
  {
    var bundle := RulesBundle(lang);
    match load(bundle, ParseLanguage(lang))
    case None => None
    case Some(rules) =>
      var complex := ComplexRules(rules);
      Some(RulesPlan(bundle, InsertChunk(SimpleRules(rules), isIos, None),
                     seq(|complex|, k requires 0 <= k < |complex| => ComplexBatch(complex[k]))))
  }
}
