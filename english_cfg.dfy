// The hand-written English grammar over Penn Treebank tags (english_cfg.py): the grammar as
// data, order-preserving deduplication of its productions, and its statistics.
module EnglishGrammar {
  import opened Dicts
  import opened Text
  import opened Grammars

  /** Declarative sentences (SVO/SVA) (english_cfg.py:72). */
  const Declaratives: seq<Production> := [
      ["NP", "VP"],
      ["NP", "VP", "PP"],
      ["NP", "VP", "RB"],
      ["NP", "VP", "PP", "RB"],
      ["NP", "VP", "PP", "NP"],
      ["NP", "VP", "NP"]
    ]

  /** Imperative sentences (english_cfg.py:80). */
  const Imperatives: seq<Production> := [
      ["VP"],
      ["VP", "PP"],
      ["RB", "VP"]
    ]

  /** Yes/No questions (english_cfg.py:85). */
  const YesNoQuestions: seq<Production> := [
      ["MD", "NP", "VP"],
      ["VBZ", "NP", "VP"],
      ["VBP", "NP", "VP"],
      ["VBD", "NP", "VP"],
      ["VBZ", "NP", "NP"],
      ["VBP", "NP", "NP"],
      ["VBD", "NP", "NP"],
      ["VBZ", "NP", "JJ"],
      ["VBZ", "NP", "RB", "JJ"],
      ["VBP", "NP", "JJ"],
      ["VBD", "NP", "JJ"]
    ]

  /** Wh-questions (english_cfg.py:98). */
  const WhQuestions: seq<Production> := [
      ["WRB", "VBZ", "NP", "VP"],
      ["WRB", "VBP", "NP", "VP"],
      ["WRB", "VBD", "NP", "VP"],
      ["WRB", "MD", "NP", "VP"],
      ["WP", "VBZ", "NP", "VP"],
      ["WP", "VBP", "NP", "VP"],
      ["WP", "VBD", "NP", "VP"],
      ["WP", "MD", "NP", "VP"],
      ["WDT", "NN", "VBZ", "NP", "VP"],
      ["WDT", "NN", "VBP", "NP", "VP"],
      ["WDT", "NN", "VBD", "NP", "VP"],
      ["WDT", "NNS", "VBZ", "NP", "VP"],
      ["WP", "VP"],
      ["WDT", "NN", "VP"],
      ["WDT", "NNS", "VP"],
      ["WP", "VBZ", "VP"],
      ["WP", "VBP", "VP"],
      ["WP", "VBD", "VP"],
      ["WRB", "VBZ", "NP", "VP", "RB"],
      ["WRB", "VBP", "NP", "VP", "RB"],
      ["WRB", "VBD", "NP", "VP", "RB"],
      ["WRB", "MD", "NP", "VP", "RB"]
    ]

  /** Imperative with negation (VB RB VP) (english_cfg.py:122). */
  const NegatedImperatives: seq<Production> := [
      ["VB", "RB", "VP"],
      ["VBP", "RB", "VP"]
    ]

  /** Interjection + imperative (Please...) (english_cfg.py:126). */
  const InterjectionImperatives: seq<Production> := [
      ["UH", "VP"],
      ["UH", "VP", "PP"]
    ]

  /** COORDINATION (S CC S) (english_cfg.py:131). */
  const SentenceCoordination: seq<Production> := [
      ["S", "CC", "S"]
    ]

  /** Pronouns (simplest) (english_cfg.py:142). */
  const Pronouns: seq<Production> := [
      ["PRP"]
    ]

  /** Proper nouns (english_cfg.py:145). */
  const ProperNouns: seq<Production> := [
      ["NNP"],
      ["NNPS"],
      ["NNP", "NNP"]
    ]

  /** Basic noun phrases (english_cfg.py:150). */
  const BasicNounPhrases: seq<Production> := [
      ["NN"],
      ["NNS"],
      ["DT", "NN"],
      ["DT", "NNS"],
      ["DT", "NN", "NN"]
    ]

  /** With adjectives (english_cfg.py:157). */
  const AdjectiveNounPhrases: seq<Production> := [
      ["DT", "JJ", "NN"],
      ["DT", "JJ", "NNS"],
      ["DT", "RB", "JJ", "NN"],
      ["DT", "RB", "JJ", "NNS"],
      ["DT", "JJR", "NN"],
      ["DT", "JJR", "NNS"],
      ["DT", "JJS", "NN"],
      ["DT", "JJS", "NNS"],
      ["DT", "RBS", "JJ", "NN"],
      ["DT", "RBS", "JJ", "NNS"]
    ]

  /** Bare adjective + noun (no determiner) (english_cfg.py:169). */
  const BareAdjectiveNouns: seq<Production> := [
      ["JJ", "NN"],
      ["JJ", "NNS"],
      ["RB", "JJ", "NN"],
      ["RB", "JJ", "NNS"],
      ["JJR", "NNS"],
      ["JJS", "NNS"]
    ]

  /** Multiple adjectives (english_cfg.py:177). */
  const MultipleAdjectives: seq<Production> := [
      ["DT", "JJ", "JJ", "NN"],
      ["DT", "JJ", "JJ", "NNS"]
    ]

  /** With possessives (english_cfg.py:181). */
  const Possessives: seq<Production> := [
      ["PRP$", "NN"],
      ["PRP$", "NNS"],
      ["PRP$", "JJ", "NN"],
      ["PRP$", "JJ", "NNS"]
    ]

  /** With cardinal numbers (english_cfg.py:187). */
  const Cardinals: seq<Production> := [
      ["CD", "NN"],
      ["CD", "NNS"],
      ["CD", "JJ", "NNS"],
      ["DT", "CD", "NNS"]
    ]

  /** Bare adjective + noun (no determiner) (english_cfg.py:193). */
  const BareAdjectiveNounsAgain: seq<Production> := [
      ["JJ", "NN"],
      ["JJ", "NNS"],
      ["RB", "JJ", "NN"],
      ["RB", "JJ", "NNS"],
      ["JJR", "NN"],
      ["JJR", "NNS"],
      ["JJS", "NN"],
      ["JJS", "NNS"],
      ["RBS", "JJ", "NN"]
    ]

  /** Comparative with 'than' (english_cfg.py:204). */
  const NounPhrasePp: seq<Production> := [
      ["NP", "PP"]
    ]

  /** Gerund as noun (english_cfg.py:207). */
  const Gerunds: seq<Production> := [
      ["VBG"],
      ["DT", "VBG"]
    ]

  /** Past participle as adjective (english_cfg.py:211). */
  const Participles: seq<Production> := [
      ["DT", "VBN", "NN"],
      ["DT", "VBN", "NNS"],
      ["VBN", "NN"],
      ["VBN", "NNS"],
      ["NN", "NN"]
    ]

  /** Existential there (english_cfg.py:218). */
  const Existentials: seq<Production> := [
      ["EX"]
    ]

  /** COORDINATION (NP CC NP) (english_cfg.py:222). */
  const NounPhraseCoordination: seq<Production> := [
      ["NP", "CC", "NP"],
      ["PRP", "CC", "PRP"]
    ]

  /** Intransitive verbs (english_cfg.py:230). */
  const Intransitives: seq<Production> := [
      ["VB"],
      ["VBD"],
      ["VBP"],
      ["VBZ"],
      ["VBG"]
    ]

  /** Transitive verbs with NP object (english_cfg.py:237). */
  const Transitives: seq<Production> := [
      ["VB", "NP"],
      ["VBD", "NP"],
      ["VBP", "NP"],
      ["VBZ", "NP"],
      ["VBG", "NP"],
      ["VBN", "NP"]
    ]

  /** Ditransitive verbs (two objects) (english_cfg.py:245). */
  const Ditransitives: seq<Production> := [
      ["VB", "NP", "NP"],
      ["VBD", "NP", "NP"],
      ["VBP", "NP", "NP"],
      ["VBZ", "NP", "NP"]
    ]

  /** Verb + PP (english_cfg.py:251). */
  const VerbPp: seq<Production> := [
      ["VB", "PP"],
      ["VBD", "PP"],
      ["VBP", "PP"],
      ["VBZ", "PP"]
    ]

  /** Verb + NP + PP (english_cfg.py:257). */
  const VerbNpPp: seq<Production> := [
      ["VB", "NP", "PP"],
      ["VBD", "NP", "PP"],
      ["VBP", "NP", "PP"],
      ["VBZ", "NP", "PP"]
    ]

  /** Verb + adverb (english_cfg.py:263). */
  const VerbAdverb: seq<Production> := [
      ["VB", "RB"],
      ["VBD", "RB"],
      ["VBP", "RB"],
      ["VBZ", "RB"],
      ["VB", "RB", "RB"],
      ["VBD", "RB", "RB"],
      ["VBZ", "RB", "RB"],
      ["VB", "RBR"],
      ["VB", "RBS"]
    ]

  /** Verb + NP + adverb (english_cfg.py:274). */
  const VerbNpAdverb: seq<Production> := [
      ["VBD", "NP", "RB"],
      ["VBP", "NP", "RB"],
      ["VBZ", "NP", "RB"]
    ]

  /** Modal + verb (english_cfg.py:279). */
  const Modals: seq<Production> := [
      ["MD", "VB"],
      ["MD", "VB", "NP"],
      ["MD", "VB", "PP"],
      ["MD", "VB", "NP", "PP"]
    ]

  /** Modal perfect (could have done) (english_cfg.py:285). */
  const ModalPerfects: seq<Production> := [
      ["MD", "VB", "VBN", "NP"],
      ["MD", "VB", "VBN"]
    ]

  /** Auxiliary constructions (english_cfg.py:289). */
  const Auxiliaries: seq<Production> := [
      ["VBZ", "VBG"],
      ["VBP", "VBG"],
      ["VBD", "VBG"],
      ["MD", "VBG"],
      ["VBZ", "VBG", "NP"],
      ["VBP", "VBG", "NP"],
      ["VBD", "VBG", "NP"],
      ["VBZ", "VBN"],
      ["VBP", "VBN"],
      ["VBZ", "VBN", "PP"],
      ["VBP", "VBN", "PP"],
      ["VBD", "VBN", "PP"]
    ]

  /** Negation (english_cfg.py:304). */
  const Negations: seq<Production> := [
      ["VBZ", "RB", "VP"],
      ["VBP", "RB", "VP"],
      ["MD", "RB", "VP"],
      ["VBD", "RB", "VP"]
    ]

  /** To-infinitive (english_cfg.py:310). */
  const ToInfinitives: seq<Production> := [
      ["VB", "TO", "VB"],
      ["VBD", "TO", "VB"],
      ["VBP", "TO", "VB"],
      ["VBZ", "TO", "VB"],
      ["VB", "TO", "VB", "NP"],
      ["VBD", "TO", "VB", "NP"],
      ["VBP", "TO", "VB", "NP"],
      ["VBZ", "TO", "VB", "NP"]
    ]

  /** Verb + adjective (linking verb) (english_cfg.py:320). */
  const LinkingVerbs: seq<Production> := [
      ["VBZ", "JJ"],
      ["VBZ", "RB", "JJ"],
      ["VBZ", "JJR"],
      ["VBZ", "JJS"],
      ["VBP", "JJ"],
      ["VBP", "RB", "JJ"],
      ["VBD", "JJ"],
      ["VBD", "RB", "JJ"]
    ]

  /** Verb + particle (phrasal verbs) (english_cfg.py:330). */
  const PhrasalVerbs: seq<Production> := [
      ["VB", "RP"],
      ["VBD", "RP"],
      ["VBP", "RP"],
      ["VBZ", "RP"],
      ["VB", "RP", "NP"],
      ["VBD", "RP", "NP"]
    ]

  /** Copular verb + adverb phrase + PP (was quite far from) (english_cfg.py:339). */
  const CopulaAdverbPp: seq<Production> := [
      ["VBD", "RB", "PP"],
      ["VBD", "RB", "RB", "PP"],
      ["VBZ", "RB", "PP"],
      ["VBP", "RB", "PP"]
    ]

  /** Copular verb + ADJP NP (is the most beautiful fruit) (english_cfg.py:345). */
  const CopulaAdjectiveNp: seq<Production> := [
      ["VBZ", "JJ", "NP"],
      ["VBZ", "RB", "JJ", "NP"],
      ["VBZ", "RBS", "JJ", "NP"],
      ["VBP", "JJ", "NP"],
      ["VBD", "JJ", "NP"]
    ]

  /** Verb + ADJP + NP (enjoy historical novels) (english_cfg.py:352). */
  const VerbAdjectiveNp: seq<Production> := [
      ["VB", "JJ", "NP"],
      ["VB", "RB", "JJ", "NP"],
      ["VBP", "JJ", "NP"],
      ["VBD", "JJ", "NP"],
      ["VBZ", "JJ", "NP"]
    ]

  /** Copular verb + ADJP + infinitive complement (was too cold to eat) (english_cfg.py:359). */
  const CopulaAdjectiveComplement: seq<Production> := [
      ["VBD", "JJ", "PP"],
      ["VBD", "RB", "JJ", "PP"],
      ["VBZ", "JJ", "PP"],
      ["VBP", "JJ", "PP"],
      ["VBD", "JJ", "S"],
      ["VBZ", "JJ", "S"]
    ]

  /** COORDINATION (VP CC VP) (english_cfg.py:368). */
  const VerbPhraseCoordination: seq<Production> := [
      ["VP", "CC", "VP"]
    ]

  /** Prepositional phrases (english_cfg.py:375-380). */
  const PrepPhraseRules: seq<Production> := [
      ["IN", "NP"],
      ["TO", "NP"],
      ["IN", "NP", "PP"],
      ["TO", "VB"]
    ]

  const SentenceRules: seq<Production> :=
    Declaratives
    + Imperatives
    + YesNoQuestions
    + WhQuestions
    + NegatedImperatives
    + InterjectionImperatives
    + SentenceCoordination

  const NounPhraseRules: seq<Production> :=
    Pronouns
    + ProperNouns
    + BasicNounPhrases
    + AdjectiveNounPhrases
    + BareAdjectiveNouns
    + MultipleAdjectives
    + Possessives
    + Cardinals
    + BareAdjectiveNounsAgain
    + NounPhrasePp
    + Gerunds
    + Participles
    + Existentials
    + NounPhraseCoordination

  const VerbPhraseRules: seq<Production> :=
    Intransitives
    + Transitives
    + Ditransitives
    + VerbPp
    + VerbNpPp
    + VerbAdverb
    + VerbNpAdverb
    + Modals
    + ModalPerfects
    + Auxiliaries
    + Negations
    + ToInfinitives
    + LinkingVerbs
    + PhrasalVerbs
    + CopulaAdverbPp
    + CopulaAdjectiveNp
    + VerbAdjectiveNp
    + CopulaAdjectiveComplement
    + VerbPhraseCoordination

  /** The grammar `_build_grammar` assembles, with start symbol S. */
  function BuiltGrammar(): (g: Grammar)
    ensures Valid(g)
    ensures g.keys == ["S", "NP", "VP", "PP"]
    ensures forall k :: k in g.m ==> g.m[k] != []
  {
    Dict(["S", "NP", "VP", "PP"],
         map["S" := SentenceRules, "NP" := NounPhraseRules, "VP" := VerbPhraseRules, "PP" := PrepPhraseRules])
  }

  predicate NoEmptyRhs(prods: seq<Production>) {
    forall p :: p in prods ==> |p| > 0
  }

  lemma SentenceRulesNonEmpty()
    ensures NoEmptyRhs(SentenceRules)
  {
    assert NoEmptyRhs(Declaratives);
    assert NoEmptyRhs(Imperatives);
    assert NoEmptyRhs(YesNoQuestions);
    assert NoEmptyRhs(WhQuestions);
    assert NoEmptyRhs(NegatedImperatives);
    assert NoEmptyRhs(InterjectionImperatives);
    assert NoEmptyRhs(SentenceCoordination);
  }

  lemma NounPhraseRulesNonEmpty()
    ensures NoEmptyRhs(NounPhraseRules)
  {
    assert NoEmptyRhs(Pronouns);
    assert NoEmptyRhs(ProperNouns);
    assert NoEmptyRhs(BasicNounPhrases);
    assert NoEmptyRhs(AdjectiveNounPhrases);
    assert NoEmptyRhs(BareAdjectiveNouns);
    assert NoEmptyRhs(MultipleAdjectives);
    assert NoEmptyRhs(Possessives);
    assert NoEmptyRhs(Cardinals);
    assert NoEmptyRhs(BareAdjectiveNounsAgain);
    assert NoEmptyRhs(NounPhrasePp);
    assert NoEmptyRhs(Gerunds);
    assert NoEmptyRhs(Participles);
    assert NoEmptyRhs(Existentials);
    assert NoEmptyRhs(NounPhraseCoordination);
  }

  lemma VerbPhraseRulesNonEmpty()
    ensures NoEmptyRhs(VerbPhraseRules)
  {
    assert NoEmptyRhs(Intransitives);
    assert NoEmptyRhs(Transitives);
    assert NoEmptyRhs(Ditransitives);
    assert NoEmptyRhs(VerbPp);
    assert NoEmptyRhs(VerbNpPp);
    assert NoEmptyRhs(VerbAdverb);
    assert NoEmptyRhs(VerbNpAdverb);
    assert NoEmptyRhs(Modals);
    assert NoEmptyRhs(ModalPerfects);
    assert NoEmptyRhs(Auxiliaries);
    assert NoEmptyRhs(Negations);
    assert NoEmptyRhs(ToInfinitives);
    assert NoEmptyRhs(LinkingVerbs);
    assert NoEmptyRhs(PhrasalVerbs);
    assert NoEmptyRhs(CopulaAdverbPp);
    assert NoEmptyRhs(CopulaAdjectiveNp);
    assert NoEmptyRhs(VerbAdjectiveNp);
    assert NoEmptyRhs(CopulaAdjectiveComplement);
    assert NoEmptyRhs(VerbPhraseCoordination);
  }

  /** The grammar has no empty right-hand side. */
  lemma BuiltGrammarNoEmptyRhs()
    ensures forall k, p :: k in BuiltGrammar().m && p in BuiltGrammar().m[k] ==> |p| > 0
  {
    SentenceRulesNonEmpty();
    NounPhraseRulesNonEmpty();
    VerbPhraseRulesNonEmpty();
    assert NoEmptyRhs(PrepPhraseRules);
  }

  /** The position of the first occurrence of `x` in `s`. */
  function FirstPos(s: seq<Production>, x: Production): (r: nat)
    requires x in s
    ensures r < |s| && s[r] == x && x !in s[..r]
  {
    if s[0] == x then 0
    else
      var k := FirstPos(s[1..], x);
      assert s[..k + 1] == [s[0]] + s[1..][..k];
      k + 1
  }

  /** The productions with every later copy of an earlier one dropped. */
  function KeepFirst(s: seq<Production>): (r: seq<Production>)
    ensures forall x :: x in r <==> x in s
    ensures Distinct(r)
    ensures |r| <= |s|
  {
    if s == [] then []
    else
      var init := s[..|s| - 1];
      var r := KeepFirst(init);
      if s[|s| - 1] in init then r else r + [s[|s| - 1]]
  }

  lemma {:induction false} FirstPosPrefix(s: seq<Production>, x: Production, y: Production)
    requires y in s
    ensures FirstPos(s + [x], y) == FirstPos(s, y)
  {
    if s[0] != y {
      assert (s + [x])[1..] == s[1..] + [x];
      FirstPosPrefix(s[1..], x, y);
    }
  }

  /** The kept productions appear in the order of their first occurrences. */
  lemma {:induction false} KeepFirstOrder(s: seq<Production>)
    ensures forall i, j :: 0 <= i < j < |KeepFirst(s)| ==> FirstPos(s, KeepFirst(s)[i]) < FirstPos(s, KeepFirst(s)[j])
  {
    if s != [] {
      var init, x := s[..|s| - 1], s[|s| - 1];
      assert s == init + [x];
      KeepFirstOrder(init);
      var r := KeepFirst(init);
      forall y | y in init ensures FirstPos(s, y) == FirstPos(init, y) && FirstPos(init, y) < |init| {
        FirstPosPrefix(init, x, y);
      }
      if x !in init {
        assert FirstPos(s, x) == |init| by {
          assert s[..|init|] == init;
        }
      }
    }
  }

  /** Deduplicating productions that are already distinct changes nothing. */
  lemma {:induction false} KeepFirstOfDistinct(s: seq<Production>)
    requires Distinct(s)
    ensures KeepFirst(s) == s
  {
    if s != [] {
      var init := s[..|s| - 1];
      KeepFirstOfDistinct(init);
      assert s[|s| - 1] !in init;
      assert s == init + [s[|s| - 1]];
    }
  }

  lemma {:induction false} KeepFirstAppend(s: seq<Production>, t: seq<Production>)
    ensures |KeepFirst(s + t)| <= |KeepFirst(s)| + |t|
    decreases |t|
  {
    if t == [] {
      assert s + t == s;
    } else {
      var u := s + t;
      assert u[..|u| - 1] == s + t[..|t| - 1];
      assert |KeepFirst(u)| <= |KeepFirst(u[..|u| - 1])| + 1;
      KeepFirstAppend(s, t[..|t| - 1]);
    }
  }

  /** A repeated production makes deduplication remove something. */
  lemma KeepFirstDrops(s: seq<Production>, i: nat, j: nat)
    requires i < j < |s| && s[i] == s[j]
    ensures |KeepFirst(s)| < |s|
  {
    var p := s[..j + 1];
    assert p[..j] == s[..j] && p[j] in p[..j] by { assert s[..j][i] == s[j]; }
    assert |KeepFirst(p)| == |KeepFirst(s[..j])| <= j;
    assert s == p + s[j + 1..];
    KeepFirstAppend(p, s[j + 1..]);
  }

  /** The grammar `deduplicate_rules` leaves: same keys in the same order, each list deduplicated. */
  function DedupGrammar(g: Grammar): (r: Grammar)
    ensures Valid(g) ==> Valid(r)
    ensures r.keys == g.keys && r.m.Keys == g.m.Keys
  {
    Dict(g.keys, map k | k in g.m :: KeepFirst(g.m[k]))
  }

  /** A second deduplication leaves the grammar as it is. */
  lemma DedupIdempotent(g: Grammar)
    ensures DedupGrammar(DedupGrammar(g)) == DedupGrammar(g)
  {
    forall k | k in g.m ensures KeepFirst(KeepFirst(g.m[k])) == KeepFirst(g.m[k]) {
      KeepFirstOfDistinct(KeepFirst(g.m[k]));
    }
  }

  /** The productions dropped under `keys`. */
  function DroppedOf(keys: seq<Symbol>, m: map<Symbol, seq<Production>>): nat {
    if keys == [] then 0
    else DroppedOf(keys[..|keys| - 1], m)
         + (if keys[|keys| - 1] in m then |m[keys[|keys| - 1]]| - |KeepFirst(m[keys[|keys| - 1]])| else 0)
  }

  lemma {:induction false} DroppedIsDifference(keys: seq<Symbol>, g: Grammar)
    ensures DroppedOf(keys, g.m) == RuleCountOf(keys, g.m) - RuleCountOf(keys, DedupGrammar(g).m)
    ensures RuleCountOf(keys, DedupGrammar(g).m) <= RuleCountOf(keys, g.m)
  {
    if keys != [] {
      DroppedIsDifference(keys[..|keys| - 1], g);
    }
  }

  lemma {:induction false} DroppedAtLeast(keys: seq<Symbol>, m: map<Symbol, seq<Production>>, k: Symbol)
    requires k in keys && k in m
    ensures DroppedOf(keys, m) >= |m[k]| - |KeepFirst(m[k])|
  {
    if keys[|keys| - 1] != k {
      assert k in keys[..|keys| - 1] by {
        var i :| 0 <= i < |keys| && keys[i] == k;
        assert keys[..|keys| - 1][i] == k;
      }
      DroppedAtLeast(keys[..|keys| - 1], m, k);
    }
  }

  /** The built grammar repeats NP -> JJ NN and VP -> VBZ JJ NP, so deduplication shrinks it. */
  lemma BuiltGrammarHasDuplicates()
    ensures BareAdjectiveNouns[0] == BareAdjectiveNounsAgain[0] == ["JJ", "NN"]
    ensures CopulaAdjectiveNp[0] == VerbAdjectiveNp[4] == ["VBZ", "JJ", "NP"]
    ensures RuleCount(DedupGrammar(BuiltGrammar())) < RuleCount(BuiltGrammar())
  {
    DedupShrinks(BuiltGrammar(), "NP", 19, 35);
  }

  /** A nonterminal listing a production twice makes deduplication shrink the grammar. */
  lemma DedupShrinks(g: Grammar, k: Symbol, i: nat, j: nat)
    requires k in g.keys && k in g.m && i < j < |g.m[k]| && g.m[k][i] == g.m[k][j]
    ensures RuleCount(DedupGrammar(g)) < RuleCount(g)
  {
    KeepFirstDrops(g.m[k], i, j);
    DroppedAtLeast(g.keys, g.m, k);
    DroppedIsDifference(g.keys, g);
  }

  /** The deduplicated lists of the first `n` keys, in key order. */
  ghost function DedupPrefix(g: Grammar, n: nat): Grammar
    requires Valid(g) && n <= |g.keys|
  {
    Dict(g.keys[..n], map k | k in g.keys[..n] :: KeepFirst(g.m[k]))
  }

  lemma DedupPrefixStep(g: Grammar, i: nat)
    requires Valid(g) && i < |g.keys|
    ensures DedupPrefix(g, i + 1) == Put(DedupPrefix(g, i), g.keys[i], KeepFirst(g.m[g.keys[i]]))
    ensures DroppedOf(g.keys[..i + 1], g.m)
      == DroppedOf(g.keys[..i], g.m) + (|g.m[g.keys[i]]| - |KeepFirst(g.m[g.keys[i]])|)
  {
    var nt := g.keys[i];
    assert g.keys[..i + 1][..i] == g.keys[..i];
    assert g.keys[..i + 1] == g.keys[..i] + [nt];
    assert nt !in g.keys[..i];
    var d, e := DedupPrefix(g, i), DedupPrefix(g, i + 1);
    assert e.m == d.m[nt := KeepFirst(g.m[nt])];
  }

  lemma DedupPrefixAll(g: Grammar)
    requires Valid(g)
    ensures DedupPrefix(g, |g.keys|) == DedupGrammar(g)
  {
    assert g.keys[..|g.keys|] == g.keys;
  }

  datatype Stats = Stats(startSymbol: string, nonTerminals: nat, terminals: nat, totalRules: nat,
                         nonTerminalList: seq<Symbol>, terminalList: seq<Symbol>)

  class EnglishCfg {
    var grammar: Grammar
    var startSymbol: Symbol

    constructor()
      ensures grammar == BuiltGrammar() && startSymbol == "S"
    {
      grammar := BuiltGrammar();
      startSymbol := "S";
    }

    /** `deduplicate_rules`: keeps the first copy of every production of every nonterminal and
        returns how many copies it removed. */
    method DeduplicateRules() returns (totalRemoved: nat)
      requires Valid(grammar)
      modifies this`grammar
      ensures grammar == DedupGrammar(old(grammar))
      ensures totalRemoved == RuleCount(old(grammar)) - RuleCount(grammar)
    {
      var deduplicated;
      deduplicated, totalRemoved := Deduplicate(grammar);
      grammar := deduplicated;
    }

    /** The loop over the nonterminals (lines 395-406), on the grammar as a value. */
    static method Deduplicate(g: Grammar) returns (deduplicated: Grammar, totalRemoved: nat)
      requires Valid(g)
      ensures deduplicated == DedupGrammar(g)
      ensures totalRemoved == RuleCount(g) - RuleCount(deduplicated)
    {
      deduplicated := Empty();
      totalRemoved := 0;
      var i := 0;
      assert deduplicated == DedupPrefix(g, 0);
      while i < |g.keys|
        invariant 0 <= i <= |g.keys|
        invariant deduplicated == DedupPrefix(g, i)
        invariant totalRemoved == DroppedOf(g.keys[..i], g.m)
      {
        var nt := g.keys[i];
        var uniqueProds, removed := UniqueProductions(g.m[nt]);
        DedupPrefixStep(g, i);
        deduplicated := Put(deduplicated, nt, uniqueProds);
        totalRemoved := totalRemoved + removed;
        i := i + 1;
      }
      DedupPrefixAll(g);
      DroppedIsDifference(g.keys, g);
    }

    /** The loop over one nonterminal's productions (lines 399-405). */
    static method UniqueProductions(prods: seq<Production>) returns (uniqueProds: seq<Production>, removed: nat)
      ensures uniqueProds == KeepFirst(prods)
      ensures removed == |prods| - |uniqueProds|
    {
      var seen: set<Production> := {};
      uniqueProds := [];
      removed := 0;
      var j := 0;
      while j < |prods|
        invariant 0 <= j <= |prods|
        invariant uniqueProds == KeepFirst(prods[..j])
        invariant seen == set p | p in prods[..j]
        invariant removed == j - |uniqueProds|
      {
        var prod := prods[j];
        assert prods[..j + 1][..j] == prods[..j];
        if prod !in seen {
          seen := seen + {prod};
          uniqueProds := uniqueProds + [prod];
        } else {
          removed := removed + 1;
        }
        assert prods[..j + 1] == prods[..j] + [prod];
        j := j + 1;
      }
      assert prods[..j] == prods;
    }

    /** `get_stats`: counts, the key list, and the right-hand symbols that are not keys, sorted. */
    method GetStats() returns (st: Stats)
      requires Valid(grammar)
      ensures st.startSymbol == startSymbol
      ensures st.totalRules == RuleCount(grammar)
      ensures st.nonTerminalList == grammar.keys && st.nonTerminals == |grammar.keys|
      ensures forall x :: x in st.terminalList <==> x in RhsSymbols(grammar) && x !in grammar.m
      ensures StrictlySorted(st.terminalList) && st.terminals == |st.terminalList|
    {
      var g := grammar;
      var allSymbols: set<Symbol> := {};
      var i := 0;
      while i < |g.keys|
        invariant 0 <= i <= |g.keys|
        invariant allSymbols == set k, p, x | k in g.keys[..i] && p in g.m[k] && x in p :: x
      {
        var more := ProductionSymbols(g.m[g.keys[i]]);
        allSymbols := allSymbols + more;
        assert g.keys[..i + 1] == g.keys[..i] + [g.keys[i]];
        i := i + 1;
      }
      assert g.keys[..i] == g.keys;
      var terminals := allSymbols - set k | k in g.keys;
      var terminalList := SortedList(terminals);
      st := Stats(startSymbol, |g.keys|, |terminals|, RuleCount(g), g.keys, terminalList);
    }

    /** The symbols one nonterminal's productions contribute to `all_symbols`. */
    static method ProductionSymbols(prods: seq<Production>) returns (symbols: set<Symbol>)
      ensures symbols == set p, x | p in prods && x in p :: x
    {
      symbols := {};
      var j := 0;
      while j < |prods|
        invariant 0 <= j <= |prods|
        invariant symbols == set p, x | p in prods[..j] && x in p :: x
      {
        symbols := symbols + set x | x in prods[j];
        assert prods[..j + 1] == prods[..j] + [prods[j]];
        j := j + 1;
      }
      assert prods[..j] == prods;
    }
  }

  /** `sorted(s)` for a set of strings. */
  method SortedList(s: set<Symbol>) returns (r: seq<Symbol>)
    ensures StrictlySorted(r)
    ensures forall x :: x in r <==> x in s
    ensures |r| == |s|
  {
    r := [];
    var todo := s;
    while todo != {}
      invariant todo <= s
      invariant StrictlySorted(r)
      invariant forall x :: x in r <==> x in s - todo
      invariant |r| + |todo| == |s|
      decreases todo
    {
      var x :| x in todo;
      r := InsertSorted(r, x);
      todo := todo - {x};
    }
  }
}
