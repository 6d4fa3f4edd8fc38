// Morphological features inferred from Penn Treebank tags, and the lexicon that maps each
// word to one feature record per tag it was listed under (lexicon_generator.py).
module Lexicon {
  import opened Wrappers
  import opened Text
  import opened Dicts
  import Agreement

  type Features = map<string, string>

  /** What the morphological analyser reports for the first token of a word: its lemma and
      its morphology dictionary (`token.lemma_`, `token.morph.to_dict()`). */
  datatype Token = Token(lemmaForm: string, morph: map<string, string>)

  function NounNumber(pos: string): Features {
    if pos in {"NN", "NNP"} then map["num" := "sg"]
    else if pos in {"NNS", "NNPS"} then map["num" := "pl"]
    else map[]
  }

  function VerbFeatures(pos: string): Features {
    if pos == "VB" then map["tense" := "base", "verb_form" := "inf"]
    else if pos == "VBD" then map["tense" := "past"]
    else if pos == "VBG" then map["tense" := "pres", "verb_form" := "ger"]
    else if pos == "VBN" then map["tense" := "past", "verb_form" := "part"]
    else if pos == "VBP" then map["tense" := "pres", "num" := "non3sg"]
    else if pos == "VBZ" then map["tense" := "pres", "num" := "sg", "person" := "3"]
    else map[]
  }

  /** The personal-pronoun table, keyed by the lower-cased word. */
  function PronounFeatures(w: string): Features {
    if w in {"i", "me"} then map["num" := "sg", "person" := "1"]
    else if w in {"we", "us"} then map["num" := "pl", "person" := "1"]
    else if w == "you" then map["num" := "any", "person" := "2"]
    else if w in {"he", "him", "she", "her", "it"} then map["num" := "sg", "person" := "3"]
    else if w in {"they", "them"} then map["num" := "pl", "person" := "3"]
    else map[]
  }

  const SingularDeterminers := {"a", "an", "this", "that", "every", "each", "either", "neither"}
  const AnyDeterminers := {"the", "some", "all", "any", "no"}
  const PluralDeterminers := {"these", "those", "both"}

  /** The determiner-number table, keyed by the lower-cased word. */
  function DeterminerFeatures(w: string): Features {
    if w in SingularDeterminers then map["num" := "sg"]
    else if w in AnyDeterminers then map["num" := "any"]
    else if w in PluralDeterminers then map["num" := "pl"]
    else map[]
  }

  function RemoveCommas(s: string): (r: string)
    ensures forall i :: 0 <= i < |r| ==> r[i] != ','
  {
    if s == [] then [] else (if s[0] == ',' then [] else [s[0]]) + RemoveCommas(s[1..])
  }

  /** Number of a cardinal. `floatIsOne(s)` stands for `float(s) == 1.0` (false when the
      conversion fails), which is only consulted for words starting with "1." or "1,". */
  function CardinalNumber(word: string, floatIsOne: string -> bool): string {
    var w := Strip(Lower(word));
    if w in {"one", "zero", "0", "1"} then "sg"
    else if StartsWith(w, "1.") || StartsWith(w, "1,") then
      (if floatIsOne(RemoveCommas(w)) then "sg" else "pl")
    else "pl"
  }

  /** `_infer_features_from_pos`: features read off the tag, and for PRP/DT/CD off the word. */
  function InferFeatures(word: string, pos: string, floatIsOne: string -> bool): (r: Features)
    ensures pos in {"NN", "NNP"} ==> r == map["num" := "sg"]
    ensures pos in {"NNS", "NNPS"} ==> r == map["num" := "pl"]
    ensures pos == "VBZ" ==> r == map["tense" := "pres", "num" := "sg", "person" := "3"]
    ensures pos == "VBP" ==> r == map["tense" := "pres", "num" := "non3sg"]
    ensures pos == "PRP" ==> r == PronounFeatures(Lower(word))
    ensures pos == "DT" ==> r == DeterminerFeatures(Lower(word))
    ensures pos == "CD" ==> r == map["num" := CardinalNumber(word, floatIsOne)]
    ensures r.Keys <= {"num", "person", "tense", "verb_form"}
  {
    if pos == "PRP" then PronounFeatures(Lower(word))
    else if pos == "DT" then DeterminerFeatures(Lower(word))
    else if pos == "CD" then map["num" := CardinalNumber(word, floatIsOne)]
    else NounNumber(pos) + VerbFeatures(pos)
  }

  /** The features the analyser contributes: its lemma and the mapped morphology. */
  function AnalysedFeatures(base: Features, t: Token): Features {
    var f0 := base["lemma" := t.lemmaForm];
    var f1 := if "Number" in t.morph then f0["num" := if t.morph["Number"] == "Sing" then "sg" else "pl"] else f0;
    var f2 := if "Person" in t.morph then f1["person" := t.morph["Person"]] else f1;
    var f3 := if "Tense" in t.morph then f2["tense" := Lower(t.morph["Tense"])] else f2;
    if "VerbForm" in t.morph then f3["verb_form" := Lower(t.morph["VerbForm"])] else f3
  }

  function BaseFeatures(word: string, pos: string): Features {
    map["word" := word, "pos" := pos, "lemma" := word]
  }

  /** The record `get_morphological_features` returns. `nlp` is the analyser (None when it is
      not loaded); it maps a word to the tokens of its analysis. */
  function MorphFeatures(word: string, pos: string, nlp: Option<string -> seq<Token>>, floatIsOne: string -> bool): Features {
    var inferred := InferFeatures(word, pos, floatIsOne);
    match nlp
    case None => BaseFeatures(word, pos) + inferred
    case Some(analyse) =>
      var doc := analyse(word);
      var analysed := if |doc| > 0 then AnalysedFeatures(BaseFeatures(word, pos), doc[0]) else BaseFeatures(word, pos);
      inferred + analysed
  }

  /** The record always names its word and tag; without an analyser the lemma is the word and
      every inferred feature is present, and inferred features never displace analysed ones. */
  lemma MorphFeaturesShape(word: string, pos: string, nlp: Option<string -> seq<Token>>, floatIsOne: string -> bool)
    ensures var r := MorphFeatures(word, pos, nlp, floatIsOne);
      && "word" in r && "pos" in r && r["word"] == word && r["pos"] == pos
      && (forall k :: k in InferFeatures(word, pos, floatIsOne) && nlp.None? ==> r[k] == InferFeatures(word, pos, floatIsOne)[k])
      && (nlp.None? ==> r["lemma"] == word && r.Keys == {"word", "pos", "lemma"} + InferFeatures(word, pos, floatIsOne).Keys)
  {
    var inferred := InferFeatures(word, pos, floatIsOne);
    assert "word" !in inferred && "pos" !in inferred && "lemma" !in inferred;
    var base := BaseFeatures(word, pos);
    if nlp.Some? {
      var doc := nlp.value(word);
      if |doc| > 0 {
        AnalysedKeepsWordAndPos(base, doc[0]);
      }
    }
  }

  lemma AnalysedKeepsWordAndPos(base: Features, t: Token)
    requires "word" in base && "pos" in base
    ensures var a := AnalysedFeatures(base, t); "word" in a && "pos" in a && a["word"] == base["word"] && a["pos"] == base["pos"]
  {
  }

  /** The loop of lines 112-115: copy each inferred feature whose key is not yet set. */
  method MergeMissing(features: Features, inferred: Features) returns (r: Features)
    ensures r == inferred + features
    ensures forall k :: k in features ==> r[k] == features[k]
    ensures forall k :: k in inferred && k !in features ==> r[k] == inferred[k]
  {
    r := features;
    var todo := inferred.Keys;
    while todo != {}
      invariant todo <= inferred.Keys
      invariant r.Keys == features.Keys + (inferred.Keys - todo)
      invariant forall k :: k in features ==> r[k] == features[k]
      invariant forall k :: k in inferred && k !in features && k !in todo ==> r[k] == inferred[k]
      decreases todo
    {
      var key :| key in todo;
      if key !in r {
        r := r[key := inferred[key]];
      }
      todo := todo - {key};
    }
  }

  /** `get_morphological_features`. */
  method GetMorphologicalFeatures(word: string, pos: string, nlp: Option<string -> seq<Token>>, floatIsOne: string -> bool)
    returns (features: Features)
    ensures features == MorphFeatures(word, pos, nlp, floatIsOne)
  {
    features := BaseFeatures(word, pos);
    var inferred := InferFeatures(word, pos, floatIsOne);
    if nlp.None? {
      features := features + inferred;
      return;
    }
    var doc := nlp.value(word);
    if |doc| > 0 {
      features := AnalysedFeatures(features, doc[0]);
    }
    features := MergeMissing(features, inferred);
  }

  function PosOf(entry: Features): string {
    if "pos" in entry then entry["pos"] else ""
  }

  function PosList(entries: seq<Features>): (r: seq<string>)
    ensures |r| == |entries| && forall i :: 0 <= i < |r| ==> r[i] == PosOf(entries[i])
  {
    seq(|entries|, i requires 0 <= i < |entries| => PosOf(entries[i]))
  }

  type Lex = Dict<string, seq<Features>>

  /** One step of the loop of lines 263-274: make sure the word has a list, then append the
      record unless the word already has one for that tag. */
  function AddEntry(lex: Lex, word: string, pos: string, f: Features): Lex {
    var withWord := if word in lex.m then lex else Put(lex, word, []);
    var entries := withWord.m[word];
    if pos in PosList(entries) then withWord else Put(withWord, word, entries + [f])
  }

  /** The (word, tag) pairs of the tag-to-words table in the order the loop visits them. */
  function Pairs(data: Dict<string, seq<string>>, tags: seq<string>): seq<(string, string)>
    requires forall t :: t in tags ==> t in data.m
  {
    if tags == [] then []
    else
      var t := tags[|tags| - 1];
      Pairs(data, tags[..|tags| - 1]) + Tagged(data.m[t], t)
  }

  lemma PairsSnoc(data: Dict<string, seq<string>>, tags: seq<string>, i: nat)
    requires i < |tags| && forall t :: t in tags ==> t in data.m
    ensures Pairs(data, tags[..i + 1]) == Pairs(data, tags[..i]) + Tagged(data.m[tags[i]], tags[i])
  {
    assert tags[..i + 1][..i] == tags[..i];
  }

  lemma LexiconOfSnoc(pairs: seq<(string, string)>, x: (string, string), feat: (string, string) -> Features)
    ensures LexiconOf(pairs + [x], feat) == AddEntry(LexiconOf(pairs, feat), x.0, x.1, feat(x.0, x.1))
  {
    assert (pairs + [x])[..|pairs|] == pairs;
  }

  lemma TaggedSnoc(words: seq<string>, j: nat, tag: string)
    requires j < |words|
    ensures Tagged(words[..j + 1], tag) == Tagged(words[..j], tag) + [(words[j], tag)]
  {
  }

  lemma FeatKeepsPos(nlp: Option<string -> seq<Token>>, floatIsOne: string -> bool)
    ensures forall w, p :: PosOf(MorphFeatures(w, p, nlp, floatIsOne)) == p
  {
    forall w, p ensures PosOf(MorphFeatures(w, p, nlp, floatIsOne)) == p {
      MorphFeaturesShape(w, p, nlp, floatIsOne);
      var r := MorphFeatures(w, p, nlp, floatIsOne);
      assert "pos" in r && r["pos"] == p;
    }
  }

  function Tagged(words: seq<string>, tag: string): (r: seq<(string, string)>)
    ensures |r| == |words| && forall i :: 0 <= i < |r| ==> r[i] == (words[i], tag)
  {
    seq(|words|, i requires 0 <= i < |words| => (words[i], tag))
  }

  /** The lexicon after visiting `pairs` from an empty one. */
  function LexiconOf(pairs: seq<(string, string)>, feat: (string, string) -> Features): Lex {
    if pairs == [] then Empty()
    else
      var last := pairs[|pairs| - 1];
      AddEntry(LexiconOf(pairs[..|pairs| - 1], feat), last.0, last.1, feat(last.0, last.1))
  }

  ghost predicate WellFormedLexicon(lex: Lex, pairs: seq<(string, string)>, feat: (string, string) -> Features) {
    && Valid(lex)
    && (forall w :: w in lex.m ==> Distinct(PosList(lex.m[w])))
    && (forall w, p :: (w, p) in pairs <==> (w in lex.m && p in PosList(lex.m[w])))
    && (forall w, e :: w in lex.m && e in lex.m[w] ==> e == feat(w, PosOf(e)))
  }

  /** The built lexicon lists each word once, gives each word at most one record per tag, has a
      record for a (word, tag) pair exactly when the pair was visited, and that record is the one
      computed for the pair. */
  lemma {:induction false} LexiconOfWellFormed(pairs: seq<(string, string)>, feat: (string, string) -> Features)
    requires forall w, p :: PosOf(feat(w, p)) == p
    ensures WellFormedLexicon(LexiconOf(pairs, feat), pairs, feat)
  {
    if pairs != [] {
      var init, last := pairs[..|pairs| - 1], pairs[|pairs| - 1];
      LexiconOfWellFormed(init, feat);
      assert pairs == init + [last];
      AddEntryStep(LexiconOf(init, feat), init, feat, last.0, last.1);
    }
  }

  lemma AddEntryStep(lex: Lex, pairs: seq<(string, string)>, feat: (string, string) -> Features, w: string, p: string)
    requires forall w, p :: PosOf(feat(w, p)) == p
    requires WellFormedLexicon(lex, pairs, feat)
    ensures WellFormedLexicon(AddEntry(lex, w, p, feat(w, p)), pairs + [(w, p)], feat)
  {
    var withWord := if w in lex.m then lex else Put(lex, w, []);
    var entries := withWord.m[w];
    var r := AddEntry(lex, w, p, feat(w, p));
    var pairs' := pairs + [(w, p)];
    assert Valid(withWord);
    if p in PosList(entries) {
      assert r == withWord;
    } else {
      assert r == Put(withWord, w, entries + [feat(w, p)]);
      assert PosList(entries + [feat(w, p)]) == PosList(entries) + [p];
      assert r.m[w] == entries + [feat(w, p)];
    }
    forall x | x in r.m ensures Distinct(PosList(r.m[x])) {
      if x != w {
        assert r.m[x] == lex.m[x];
      }
    }
    forall x, q ensures (x, q) in pairs' <==> (x in r.m && q in PosList(r.m[x])) {
      if x != w {
        assert (x in r.m) == (x in lex.m);
        if x in r.m {
          assert r.m[x] == lex.m[x];
        }
      }
    }
    forall x, e | x in r.m && e in r.m[x] ensures e == feat(x, PosOf(e)) {
      if x != w {
        assert r.m[x] == lex.m[x];
      }
    }
  }

  /** The words of the lexicon are the visited words in order of first appearance. */
  lemma {:induction false} LexiconOfKeyOrder(pairs: seq<(string, string)>, feat: (string, string) -> Features)
    ensures LexiconOf(pairs, feat).keys == FirstSeen(pairs)
  {
    if pairs != [] {
      var init := pairs[..|pairs| - 1];
      LexiconOfKeyOrder(init, feat);
      LexiconOfDomain(init, feat);
    }
  }

  lemma {:induction false} LexiconOfDomain(pairs: seq<(string, string)>, feat: (string, string) -> Features)
    ensures forall w :: w in LexiconOf(pairs, feat).m <==> w in FirstSeen(pairs)
  {
    if pairs != [] {
      LexiconOfDomain(pairs[..|pairs| - 1], feat);
    }
  }

  /** Distinct first components in order of first appearance. */
  function FirstSeen(pairs: seq<(string, string)>): seq<string> {
    if pairs == [] then []
    else
      var init := FirstSeen(pairs[..|pairs| - 1]);
      var w := pairs[|pairs| - 1].0;
      if w in init then init else init + [w]
  }

  class LexiconGenerator {
    var lexicon: Lex
    /** The analyser; None when it could not be loaded. */
    const nlp: Option<string -> seq<Token>>
    /** Stands for `float(s) == 1.0`. */
    const floatIsOne: string -> bool

    constructor (nlp: Option<string -> seq<Token>>, floatIsOne: string -> bool)
      ensures this.nlp == nlp && this.floatIsOne == floatIsOne && lexicon == Empty()
    {
      this.nlp := nlp;
      this.floatIsOne := floatIsOne;
      lexicon := Empty();
    }

    function Feat(): (string, string) -> Features {
      (w: string, p: string) => MorphFeatures(w, p, nlp, floatIsOne)
    }

    /** `build_lexicon` over the closed-class and open-class tag-to-words tables. */
    method BuildLexicon(closedClass: Dict<string, seq<string>>, openClass: Dict<string, seq<string>>)
      requires Valid(closedClass) && Valid(openClass)
      modifies this`lexicon
      ensures lexicon == LexiconOf(Pairs(MergeTables(closedClass, openClass), MergeTables(closedClass, openClass).keys), Feat())
      ensures WellFormedLexicon(lexicon, Pairs(MergeTables(closedClass, openClass), MergeTables(closedClass, openClass).keys), Feat())
    {
      var all := MergeTables(closedClass, openClass);
      ghost var feat := Feat();
      lexicon := Empty();
      var i := 0;
      while i < |all.keys|
        invariant 0 <= i <= |all.keys|
        invariant lexicon == LexiconOf(Pairs(all, all.keys[..i]), feat)
      {
        var tag := all.keys[i];
        var words := all.m[tag];
        ghost var before := Pairs(all, all.keys[..i]);
        AddTagged(tag, words, before);
        PairsSnoc(all, all.keys, i);
        i := i + 1;
      }
      assert all.keys[..i] == all.keys;
      FeatKeepsPos(nlp, floatIsOne);
      LexiconOfWellFormed(Pairs(all, all.keys), feat);
    }

    /** The inner loop of lines 263-274 over the words listed under one tag. */
    method AddTagged(tag: string, words: seq<string>, ghost before: seq<(string, string)>)
      requires lexicon == LexiconOf(before, Feat())
      modifies this`lexicon
      ensures lexicon == LexiconOf(before + Tagged(words, tag), Feat())
    {
      var j := 0;
      ghost var visited := before;
      assert Tagged(words[..0], tag) == [];
      while j < |words|
        invariant 0 <= j <= |words|
        invariant visited == before + Tagged(words[..j], tag)
        invariant lexicon == LexiconOf(visited, Feat())
      {
        var word := words[j];
        AddWord(word, tag);
        LexiconOfSnoc(visited, (word, tag), Feat());
        TaggedSnoc(words, j, tag);
        visited := visited + [(word, tag)];
        j := j + 1;
      }
      assert words[..j] == words;
    }

    /** The body of the inner loop of lines 263-274 for one word listed under `tag`. */
    method AddWord(word: string, tag: string)
      modifies this`lexicon
      ensures lexicon == AddEntry(old(lexicon), word, tag, Feat()(word, tag))
    {
      var features := GetMorphologicalFeatures(word, tag, nlp, floatIsOne);
      if word !in lexicon.m {
        lexicon := Put(lexicon, word, []);
      }
      var existing := PosList(lexicon.m[word]);
      if tag !in existing {
        lexicon := Put(lexicon, word, lexicon.m[word] + [features]);
      }
    }

    /** `lookup`: the exact word, else its lower-case form, else nothing. */
    function Lookup(word: string): (r: seq<Features>)
      reads this
      ensures word in lexicon.m ==> r == lexicon.m[word]
      ensures word !in lexicon.m && Lower(word) in lexicon.m ==> r == lexicon.m[Lower(word)]
      ensures word !in lexicon.m && Lower(word) !in lexicon.m ==> r == []
    {
      if word in lexicon.m then lexicon.m[word]
      else if Lower(word) in lexicon.m then lexicon.m[Lower(word)]
      else []
    }
  }

  /** `{**closed, **open}`: the open-class table wins on a shared tag, which keeps its first position. */
  function MergeTables(a: Dict<string, seq<string>>, b: Dict<string, seq<string>>): (r: Dict<string, seq<string>>)
    requires Valid(a) && Valid(b)
    ensures Valid(r) && r.m == a.m + b.m
    decreases |b.keys|
  {
    if b.keys == [] then a
    else
      var k := b.keys[|b.keys| - 1];
      var rest := Dict(b.keys[..|b.keys| - 1], b.m - {k});
      DropLastValid(b);
      MergeLast(a.m, b.m, k);
      Put(MergeTables(a, rest), k, b.m[k])
  }

  lemma DropLastValid(b: Dict<string, seq<string>>)
    requires Valid(b) && b.keys != []
    ensures Valid(Dict(b.keys[..|b.keys| - 1], b.m - {b.keys[|b.keys| - 1]}))
  {
    var k := b.keys[|b.keys| - 1];
    var rest := Dict(b.keys[..|b.keys| - 1], b.m - {k});
    forall x ensures x in rest.m <==> x in rest.keys {
      if x in rest.keys {
        var i :| 0 <= i < |rest.keys| && rest.keys[i] == x;
        assert b.keys[i] == x;
      }
    }
  }

  lemma MergeLast(a: map<string, seq<string>>, b: map<string, seq<string>>, k: string)
    requires k in b
    ensures (a + (b - {k}))[k := b[k]] == a + b
  {
  }

  /** A word visited under a tag can be looked up and has a record for that tag. */
  lemma LookupAfterBuild(lex: Lex, pairs: seq<(string, string)>, feat: (string, string) -> Features, w: string, p: string)
    requires WellFormedLexicon(lex, pairs, feat)
    requires (w, p) in pairs
    ensures w in lex.m && exists e :: e in lex.m[w] && PosOf(e) == p && e == feat(w, p)
  {
    var ps := PosList(lex.m[w]);
    var i :| 0 <= i < |ps| && ps[i] == p;
    assert lex.m[w][i] in lex.m[w];
  }

  /** The determiner table feeds the agreement rule as intended: a singular determiner rejects a
      plural noun ("a books"), a plural one rejects a singular noun ("these book"), and "the" or a
      word outside the table accepts both. */
  lemma DeterminerNounAgreement(dt: string, noun: string, floatIsOne: string -> bool)
    ensures Agreement.CheckDtNoun(InferFeatures(dt, "DT", floatIsOne), InferFeatures(noun, "NN", floatIsOne), "NN").ok
            <==> Lower(dt) !in PluralDeterminers
    ensures Agreement.CheckDtNoun(InferFeatures(dt, "DT", floatIsOne), InferFeatures(noun, "NNS", floatIsOne), "NNS").ok
            <==> Lower(dt) !in SingularDeterminers
  {
  }
}
