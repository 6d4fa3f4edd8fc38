// The checks the parser runs on the flat tag sequence before chart parsing: determiner-noun
// agreement, subject detection and subject-verb agreement, and verb subcategorization.
module SentenceChecks {
  import opened Wrappers
  import opened Text
  import Agreement
  import Subcategorization

  type Features = Agreement.Features

  // ---------------------------------------------------------------------------------------------
  // Searching the tag sequence

  /** The first position in [lo, hi) whose tag is in `wanted`. */
  function FirstIn(tags: seq<string>, lo: nat, hi: nat, wanted: set<string>): (r: Option<nat>)
    requires lo <= hi <= |tags|
    ensures r.Some? ==>
      lo <= r.value < hi && tags[r.value] in wanted && forall k :: lo <= k < r.value ==> tags[k] !in wanted
    ensures r.None? ==> forall k :: lo <= k < hi ==> tags[k] !in wanted
    decreases hi - lo
  {
    if lo == hi then None else if tags[lo] in wanted then Some(lo) else FirstIn(tags, lo + 1, hi, wanted)
  }

  /** The `for ... if tag in wanted: break` loops of the checks. */
  method FindFirst(tags: seq<string>, lo: nat, hi: nat, wanted: set<string>) returns (r: Option<nat>)
    requires lo <= hi <= |tags|
    ensures r == FirstIn(tags, lo, hi, wanted)
  {
    var i := lo;
    while i < hi
      invariant lo <= i <= hi
      invariant FirstIn(tags, i, hi, wanted) == FirstIn(tags, lo, hi, wanted)
    {
      if tags[i] in wanted {
        return Some(i);
      }
      i := i + 1;
    }
    return None;
  }

  function Min(a: nat, b: nat): nat {
    if a < b then a else b
  }

  // ---------------------------------------------------------------------------------------------
  // Determiner-noun agreement (the scan over the tags)

  const Modifiers := {"JJ", "JJR", "JJS", "RB"}
  const CommonNouns := {"NN", "NNS"}

  /** The position after the run of modifiers starting at `j`. */
  function SkipModifiers(tags: seq<string>, j: nat): (r: nat)
    requires j <= |tags|
    ensures j <= r <= |tags| && (r < |tags| ==> tags[r] !in Modifiers)
    ensures forall k :: j <= k < r ==> tags[k] in Modifiers
    decreases |tags| - j
  {
    if j < |tags| && tags[j] in Modifiers then SkipModifiers(tags, j + 1) else j
  }

  /** The (determiner, noun) position pairs the scan checks, from position `i` on. */
  function DeterminerPairs(tags: seq<string>, i: nat): (r: seq<(nat, nat)>)
    requires i <= |tags|
    decreases |tags| - i
  {
    if i >= |tags| then []
    else if tags[i] == "DT" then
      var j := SkipModifiers(tags, i + 1);
      if j < |tags| && tags[j] in CommonNouns then [(i, j)] + DeterminerPairs(tags, j + 1)
      else DeterminerPairs(tags, i + 1)
    else DeterminerPairs(tags, i + 1)
  }

  /** A checked pair is a determiner and a common noun with only modifiers between them. */
  predicate CheckedPair(tags: seq<string>, lo: nat, p: (nat, nat)) {
    lo <= p.0 < p.1 < |tags| && tags[p.0] == "DT" && tags[p.1] in CommonNouns
    && forall k :: p.0 < k < p.1 ==> tags[k] in Modifiers
  }

  /** The pairs are genuine, and each starts after the previous noun: a noun is checked at
      most once. */
  lemma {:induction false} DeterminerPairsSound(tags: seq<string>, i: nat)
    requires i <= |tags|
    ensures forall k :: 0 <= k < |DeterminerPairs(tags, i)| ==> CheckedPair(tags, i, DeterminerPairs(tags, i)[k])
    ensures forall k :: 0 <= k < |DeterminerPairs(tags, i)| - 1 ==>
      DeterminerPairs(tags, i)[k].1 < DeterminerPairs(tags, i)[k + 1].0
    decreases |tags| - i
  {
    if i < |tags| {
      if tags[i] == "DT" {
        var j := SkipModifiers(tags, i + 1);
        if j < |tags| && tags[j] in CommonNouns {
          DeterminerPairsSound(tags, j + 1);
          var rest := DeterminerPairs(tags, j + 1);
          assert DeterminerPairs(tags, i) == [(i, j)] + rest;
          assert forall k :: 0 <= k < |rest| ==> CheckedPair(tags, i, rest[k]);
        } else {
          DeterminerPairsSound(tags, i + 1);
        }
      } else {
        DeterminerPairsSound(tags, i + 1);
      }
    }
  }

  /** Every determiner whose next non-modifier tag is a common noun is checked against that
      noun: the scan never jumps over one. */
  lemma {:induction false} DeterminerPairsComplete(tags: seq<string>, i: nat, d: nat)
    requires i <= d < |tags| && tags[d] == "DT"
    requires SkipModifiers(tags, d + 1) < |tags| && tags[SkipModifiers(tags, d + 1)] in CommonNouns
    ensures (d, SkipModifiers(tags, d + 1)) in DeterminerPairs(tags, i)
    decreases d - i
  {
    if i < d {
      if tags[i] == "DT" {
        var j := SkipModifiers(tags, i + 1);
        if j < |tags| && tags[j] in CommonNouns {
          assert j < d by {
            assert tags[d] !in CommonNouns && tags[d] !in Modifiers;
          }
          DeterminerPairsComplete(tags, j + 1, d);
        } else {
          DeterminerPairsComplete(tags, i + 1, d);
        }
      } else {
        DeterminerPairsComplete(tags, i + 1, d);
      }
    }
  }

  predicate PairsInRange(tags: seq<string>, pairs: seq<(nat, nat)>) {
    forall k :: 0 <= k < |pairs| ==> pairs[k].0 < |tags| && pairs[k].1 < |tags|
  }

  lemma {:induction false} DeterminerPairsInRange(tags: seq<string>, i: nat)
    requires i <= |tags|
    ensures PairsInRange(tags, DeterminerPairs(tags, i))
  {
    DeterminerPairsSound(tags, i);
  }

  /** The messages of the failed determiner-noun checks, in order. */
  function PairErrors(tags: seq<string>, features: seq<Features>, pairs: seq<(nat, nat)>): seq<string>
    requires |features| == |tags| && PairsInRange(tags, pairs)
  {
    if pairs == [] then [] else PairError(tags, features, pairs[0]) + PairErrors(tags, features, pairs[1..])
  }

  /** The message of one failed determiner-noun check, if it fails. */
  function PairError(tags: seq<string>, features: seq<Features>, p: (nat, nat)): seq<string>
    requires |features| == |tags| && p.0 < |tags| && p.1 < |tags|
  {
    var v := Agreement.CheckDtNoun(features[p.0], features[p.1], tags[p.1]);
    if v.ok then [] else [v.error.value]
  }

  /** One step of the scan past a checked pair. */
  lemma ScanPairStep(tags: seq<string>, features: seq<Features>, i: nat, j: nat, errors: seq<string>)
    requires |features| == |tags| && i < |tags| && tags[i] == "DT"
    requires j == SkipModifiers(tags, i + 1) && j < |tags| && tags[j] in CommonNouns
    requires errors == PairError(tags, features, (i, j))
    ensures ScanStep(tags, features, i, j + 1, errors)
  {
    DeterminerPairsInRange(tags, i);
    DeterminerPairsInRange(tags, j + 1);
    var rest := DeterminerPairs(tags, j + 1);
    assert DeterminerPairs(tags, i) == [(i, j)] + rest;
    assert ([(i, j)] + rest)[1..] == rest;
  }

  function DeterminerErrors(tags: seq<string>, features: seq<Features>): seq<string>
    requires |features| == |tags|
  {
    DeterminerPairsInRange(tags, 0);
    PairErrors(tags, features, DeterminerPairs(tags, 0))
  }

  /** The determiner scan at the start of `_check_tree_agreements`. */
  method CheckDeterminers(tags: seq<string>, features: seq<Features>) returns (errors: seq<string>)
    requires |features| == |tags|
    ensures errors == DeterminerErrors(tags, features)
  {
    DeterminerPairsInRange(tags, 0);
    errors := [];
    var i := 0;
    while i < |tags|
      invariant i <= |tags|
      invariant PairsInRange(tags, DeterminerPairs(tags, i))
      invariant errors + PairErrors(tags, features, DeterminerPairs(tags, i)) == DeterminerErrors(tags, features)
      decreases |tags| - i
    {
      if tags[i] == "DT" {
        var next, found := CheckDeterminerAt(tags, features, i);
        AppendAssoc(errors, found, PairErrors(tags, features, DeterminerPairs(tags, next)));
        errors := errors + found;
        i := next;
      } else {
        i := i + 1;
      }
    }
  }

  /** The body of the scan at a determiner: skip modifiers, check a common noun if one follows,
      and resume after it. */
  method CheckDeterminerAt(tags: seq<string>, features: seq<Features>, i: nat) returns (next: nat, errors: seq<string>)
    requires |features| == |tags| && i < |tags| && tags[i] == "DT"
    ensures i < next && ScanStep(tags, features, i, next, errors)
  {
    var j := SkipModifiersFrom(tags, i + 1);
    if j < |tags| && tags[j] in CommonNouns {
      errors := CheckPair(tags, features, i, j);
      ScanPairStep(tags, features, i, j, errors);
      next := j + 1;
    } else {
      errors := [];
      ScanNoPairStep(tags, features, i, errors);
      next := i + 1;
    }
  }

  /** Resuming the scan at `next` after reporting `errors` leaves the remaining reports unchanged. */
  ghost predicate ScanStep(tags: seq<string>, features: seq<Features>, i: nat, next: nat, errors: seq<string>)
    requires |features| == |tags| && i <= |tags|
  {
    && next <= |tags|
    && PairsInRange(tags, DeterminerPairs(tags, i))
    && PairsInRange(tags, DeterminerPairs(tags, next))
    && PairErrors(tags, features, DeterminerPairs(tags, i)) == errors + PairErrors(tags, features, DeterminerPairs(tags, next))
  }

  /** The determiner-noun check of one pair found by the scan. */
  method CheckPair(tags: seq<string>, features: seq<Features>, i: nat, j: nat) returns (errors: seq<string>)
    requires |features| == |tags| && i < |tags| && j < |tags|
    ensures errors == PairError(tags, features, (i, j))
  {
    var v := Agreement.CheckDtNoun(features[i], features[j], tags[j]);
    errors := [];
    if !v.ok {
      errors := errors + [v.error.value];
    }
  }

  /** The modifier-skipping loop of the determiner scan. */
  method SkipModifiersFrom(tags: seq<string>, start: nat) returns (j: nat)
    requires start <= |tags|
    ensures j == SkipModifiers(tags, start)
  {
    j := start;
    while j < |tags| && tags[j] in Modifiers
      invariant start <= j <= |tags|
      invariant SkipModifiers(tags, j) == SkipModifiers(tags, start)
    {
      j := j + 1;
    }
  }

  /** One step of the scan past a determiner with no common noun after its modifiers. */
  lemma ScanNoPairStep(tags: seq<string>, features: seq<Features>, i: nat, errors: seq<string>)
    requires |features| == |tags| && i < |tags| && tags[i] == "DT" && errors == []
    requires !(SkipModifiers(tags, i + 1) < |tags| && tags[SkipModifiers(tags, i + 1)] in CommonNouns)
    ensures ScanStep(tags, features, i, i + 1, errors)
  {
    DeterminerPairsInRange(tags, i);
    DeterminerPairsInRange(tags, i + 1);
    assert DeterminerPairs(tags, i) == DeterminerPairs(tags, i + 1);
    assert errors + PairErrors(tags, features, DeterminerPairs(tags, i + 1)) == PairErrors(tags, features, DeterminerPairs(tags, i + 1));
  }

  lemma AppendAssoc(a: seq<string>, b: seq<string>, c: seq<string>)
    ensures (a + b) + c == a + (b + c)
  {
  }

  // ---------------------------------------------------------------------------------------------
  // Subject detection

  const Nouns := {"NN", "NNS", "NNP", "NNPS"}

  /** The features given to a noun subject. */
  function NounSubject(num: string): Features {
    map["num" := num, "person" := "3"]
  }

  /** NN and NNP are singular, the other noun tags plural. */
  function NounNumber(tag: string): string {
    if tag in {"NN", "NNP"} then "sg" else "pl"
  }

  /** Pattern 9: "There" takes the number of the first noun or pronoun after it. */
  function ThereSubject(tags: seq<string>, features: seq<Features>): (r: Option<Features>)
    requires |tags| > 0 && |features| == |tags|
  {
    match FirstIn(tags, 1, |tags|, Nouns + {"PRP"})
    case None => None
    case Some(i) => if tags[i] in Nouns then Some(NounSubject(NounNumber(tags[i]))) else Some(features[i])
  }

  /** Patterns 1-9, tried in order. */
  function PatternSubject(tags: seq<string>, features: seq<Features>): (r: Option<Features>)
    requires |tags| > 0 && |features| == |tags|
    ensures tags[0] == "PRP" ==> r == Some(features[0])
    ensures tags[0] in Nouns ==> r == Some(NounSubject(NounNumber(tags[0])))
    ensures tags[0] in {"DT", "PRP$"} ==>
      (r.Some? <==> (|tags| >= 2 && tags[1] in CommonNouns)
                    || (|tags| >= 3 && tags[1] == "JJ" && tags[2] in CommonNouns))
    ensures r.Some? && tags[0] !in {"PRP", "EX"} ==> r.value.Keys == {"num", "person"} && r.value["person"] == "3"
    ensures tags[0] !in Nouns + {"PRP", "EX", "DT", "PRP$"} ==> r.None?
  {
    var t0 := tags[0];
    if t0 == "PRP" then Some(features[0])
    else if |tags| >= 2 && t0 == "DT" && tags[1] in CommonNouns then Some(NounSubject(NounNumber(tags[1])))
    else if |tags| >= 3 && t0 == "DT" && tags[1] == "JJ" && tags[2] in CommonNouns then
      Some(NounSubject(NounNumber(tags[2])))
    else if t0 in {"NNP", "NNPS"} then Some(NounSubject(NounNumber(t0)))
    else if t0 == "NNS" then Some(NounSubject("pl"))
    else if t0 == "NN" then Some(NounSubject("sg"))
    else if |tags| >= 2 && t0 == "PRP$" && tags[1] in CommonNouns then Some(NounSubject(NounNumber(tags[1])))
    else if |tags| >= 3 && t0 == "PRP$" && tags[1] == "JJ" && tags[2] in CommonNouns then
      Some(NounSubject(NounNumber(tags[2])))
    else if t0 == "EX" then ThereSubject(tags, features)
    else None
  }

  const Nominals := Nouns + {"PRP"}

  /** `any(p in ... for p in pos_tags[lo:hi])` with Python's clamped slice. */
  predicate AnyIn(tags: seq<string>, lo: nat, hi: nat, wanted: set<string>) {
    exists k :: lo <= k < hi && k < |tags| && tags[k] in wanted
  }

  /** Pattern 10's test: a CC among the first five tags, not first, with a noun or pronoun before
      it and a noun, pronoun or determiner among the next two tags. */
  predicate Coordinated(tags: seq<string>) {
    match FirstIn(tags, 0, Min(5, |tags|), {"CC"})
    case None => false
    case Some(cc) =>
      cc > 0 && AnyIn(tags, 0, cc, Nominals) && cc + 1 < |tags| && AnyIn(tags, cc + 1, cc + 3, Nominals + {"DT"})
  }

  const SingularIndefinites := {"everyone", "everybody", "someone", "somebody", "anyone", "anybody",
                                "no one", "nobody", "everything", "something", "anything", "nothing"}
  const PluralIndefinites := {"many", "few", "several", "both"}

  /** Pattern 11: an indefinite pronoun as first word, by its lowercased lemma. */
  function IndefiniteSubject(first: Features): Option<Features> {
    var w := Lower(Agreement.GetOr(first, "lemma", ""));
    if w in SingularIndefinites then Some(NounSubject("sg"))
    else if w in PluralIndefinites then Some(NounSubject("pl"))
    else None
  }

  /** Pattern 12: DT IN DT followed, within positions 3-5, by a common noun. */
  function QuantifierSubject(tags: seq<string>): Option<Features>
    requires |tags| >= 4
  {
    if tags[0] == "DT" && tags[1] == "IN" && tags[2] == "DT" then
      match FirstIn(tags, 3, Min(6, |tags|), CommonNouns)
      case None => None
      case Some(i) => Some(NounSubject(NounNumber(tags[i])))
    else None
  }

  /** Pattern 10 applied to the subject found so far. */
  function CoordinatedSubject(tags: seq<string>, s: Option<Features>): Option<Features> {
    if (s.None? || "CC" in tags[..Min(5, |tags|)]) && Coordinated(tags) then Some(NounSubject("pl")) else s
  }

  /** The subject features the agreement check uses, if any pattern found one. */
  function SubjectOf(tags: seq<string>, features: seq<Features>): Option<Features>
    requires |tags| > 0 && |features| == |tags|
  {
    var s1 := PatternSubject(tags, features);
    var s2 := CoordinatedSubject(tags, s1);
    var s3 := if s2.None? then IndefiniteSubject(features[0]) else s2;
    if s3.None? && |tags| >= 4 then QuantifierSubject(tags) else s3
  }

  /** A coordinated subject is third person plural, whatever the patterns found. */
  lemma CoordinatedIsPlural(tags: seq<string>, features: seq<Features>)
    requires |tags| > 0 && |features| == |tags| && Coordinated(tags)
    ensures SubjectOf(tags, features) == Some(NounSubject("pl"))
  {
    var cc := FirstIn(tags, 0, Min(5, |tags|), {"CC"}).value;
    assert tags[..Min(5, |tags|)][cc] == "CC";
  }

  /** Without a CC early on, a noun tag in first position decides the subject's number. */
  lemma NounSubjectNumber(tags: seq<string>, features: seq<Features>)
    requires |tags| > 0 && |features| == |tags| && tags[0] in Nouns && !Coordinated(tags)
    ensures SubjectOf(tags, features) == Some(map["num" := NounNumber(tags[0]), "person" := "3"])
    ensures tags[0] in {"NN", "NNP"} <==> SubjectOf(tags, features).value["num"] == "sg"
  {
  }

  /** The subject detection of `_check_tree_agreements`. */
  method DetectSubject(tags: seq<string>, features: seq<Features>) returns (subj: Option<Features>)
    requires |tags| > 0 && |features| == |tags|
    ensures subj == SubjectOf(tags, features)
  {
    if tags[0] == "EX" {
      // pattern 9: the search for the noun or pronoun after "There"
      var found := FindFirst(tags, 1, |tags|, Nominals);
      subj := None;
      if found.Some? {
        subj := if tags[found.value] in Nouns then Some(NounSubject(NounNumber(tags[found.value])))
                else Some(features[found.value]);
      }
    } else {
      subj := PatternSubject(tags, features);
    }
    subj := CheckCoordination(tags, subj);
    if subj.None? {
      subj := IndefiniteSubject(features[0]);
    }
    if subj.None? && |tags| >= 4 && tags[0] == "DT" && tags[1] == "IN" && tags[2] == "DT" {
      var noun := FindFirst(tags, 3, Min(6, |tags|), CommonNouns);
      if noun.Some? {
        subj := Some(NounSubject(NounNumber(tags[noun.value])));
      }
    }
  }

  /** Pattern 10 as written: the CC search and the two `any` tests around it. */
  method CheckCoordination(tags: seq<string>, subj0: Option<Features>) returns (subj: Option<Features>)
    ensures subj == CoordinatedSubject(tags, subj0)
  {
    subj := subj0;
    var firstFive := Min(5, |tags|);
    if subj.None? || "CC" in tags[..firstFive] {
      var ccIdx := FindFirst(tags, 0, firstFive, {"CC"});
      if ccIdx.Some? && ccIdx.value > 0 {
        var cc := ccIdx.value;
        var before := FindFirst(tags, 0, cc, Nominals);
        var after := None;
        if cc + 1 < |tags| {
          after := FindFirst(tags, cc + 1, Min(cc + 3, |tags|), Nominals + {"DT"});
        }
        AnyInFirst(tags, 0, cc, Nominals);
        AnyInFirst(tags, cc + 1, cc + 3, Nominals + {"DT"});
        if before.Some? && cc + 1 < |tags| && after.Some? {
          subj := Some(NounSubject("pl"));
        }
      }
    }
  }

  /** `any(...)` over a clamped slice is a search that succeeds. */
  lemma AnyInFirst(tags: seq<string>, lo: nat, hi: nat, wanted: set<string>)
    requires lo <= hi && lo <= |tags|
    ensures AnyIn(tags, lo, hi, wanted) <==> FirstIn(tags, lo, Min(hi, |tags|), wanted).Some?
  {
    if AnyIn(tags, lo, hi, wanted) {
      var k :| lo <= k < hi && k < |tags| && tags[k] in wanted;
      assert lo <= k < Min(hi, |tags|);
    }
  }

  // ---------------------------------------------------------------------------------------------
  // Subject-verb agreement

  /** `{'head_pos': verb_pos, **verb_features}`: the verb's own features win. */
  function VerbFeatures(verbPos: string, verb: Features): (r: Features)
    ensures r.Keys == verb.Keys + {"head_pos"}
    ensures "head_pos" !in verb ==> r["head_pos"] == verbPos
    ensures forall k :: k in verb ==> r[k] == verb[k]
  {
    map["head_pos" := verbPos] + verb
  }

  /** The subject-verb errors: only the first VBZ/VBP is checked, and only with a subject. */
  function SubjectVerbErrors(tags: seq<string>, features: seq<Features>): (r: seq<string>)
    requires |tags| > 0 && |features| == |tags|
    ensures |r| <= 1
  {
    var subj := SubjectOf(tags, features);
    match FirstIn(tags, 0, |tags|, {"VBZ", "VBP"})
    case None => []
    case Some(v) =>
      if subj.None? then []
      else
        var verdict := Agreement.CheckSubjectVerb(subj.value, VerbFeatures(tags[v], features[v]));
        if verdict.ok then [] else [verdict.error.value]
  }

  // ---------------------------------------------------------------------------------------------
  // Verb subcategorization

  const NpStarts := {"DT", "PRP", "NNP", "NNPS", "CD", "PRP$", "NN", "NNS"}

  function RequiresPrepositionMessage(verb: string): string {
    "Verb '" + verb + "' requires a preposition with its object"
  }

  function NoObjectMessage(verb: string): string {
    "Verb '" + verb + "' does not take a direct object (NP)"
  }

  function RequiresPpMessage(verb: string): string {
    "Verb '" + verb + "' requires a prepositional phrase"
  }

  /** What follows the verb: an object first, and an IN that is not the last tag. */
  predicate HasNp(after: seq<string>) {
    after != [] && after[0] in NpStarts
  }

  predicate HasPp(after: seq<string>) {
    exists i :: 0 <= i < |after| - 1 && after[i] == "IN"
  }

  /** An entry of the subcategorization table as `_check_verb_subcategorization` reads it: the
      dictionary format, where either flag may be missing, or the older format that only lists
      frame names. */
  datatype VerbInfo =
    | InfoDict(allowsNp: Option<bool>, requiresPp: Option<bool>, frames: Option<seq<string>>)
    | FrameList(frameNames: seq<string>)

  /** `allows_np`: the dictionary's flag with default true, or a transitive frame in a frame list. */
  function AllowsNp(info: VerbInfo): (b: bool)
    ensures info.InfoDict? && info.allowsNp.None? ==> b
    ensures info.InfoDict? && info.allowsNp.Some? ==> b == info.allowsNp.value
    ensures info.FrameList? ==>
      (b <==> exists i :: 0 <= i < |info.frameNames| && info.frameNames[i] in {"transitive", "ditransitive"})
  {
    match info
    case InfoDict(a, _, _) => a.GetOr(true)
    case FrameList(frames) => "transitive" in frames || "ditransitive" in frames
  }

  /** `requires_pp`: the dictionary's flag with default false, or `pp_required` in a frame list. */
  function RequiresPp(info: VerbInfo): (b: bool)
    ensures info.InfoDict? && info.requiresPp.None? ==> !b
    ensures info.InfoDict? && info.requiresPp.Some? ==> b == info.requiresPp.value
    ensures info.FrameList? ==> (b <==> exists i :: 0 <= i < |info.frameNames| && info.frameNames[i] == "pp_required")
  {
    match info
    case InfoDict(_, r, _) => r.GetOr(false)
    case FrameList(frames) => "pp_required" in frames
  }

  /** The table the extractor writes: every entry in the dictionary format with both flags set. */
  function TableOf(subcat: map<string, Subcategorization.SubcatEntry>): (t: map<string, VerbInfo>)
    ensures t.Keys == subcat.Keys
    ensures forall l :: l in t ==>
      AllowsNp(t[l]) == subcat[l].allowsNp && RequiresPp(t[l]) == subcat[l].requiresPp
  {
    map l | l in subcat :: InfoDict(Some(subcat[l].allowsNp), Some(subcat[l].requiresPp), Some(subcat[l].frames))
  }

  /** The subcategorization verdict for the first verb, given the two flags of its table entry. */
  function FrameErrors(verb: string, allowsNp: bool, requiresPp: bool, after: seq<string>): (r: seq<string>)
    ensures |r| <= 1
    ensures HasNp(after) && !HasPp(after) ==>
      r == (if requiresPp then [RequiresPrepositionMessage(verb)]
            else if !allowsNp then [NoObjectMessage(verb)] else [])
    ensures !HasNp(after) && !HasPp(after) && after != [] && requiresPp ==> r == [RequiresPpMessage(verb)]
    ensures HasPp(after) || (after == [] && !HasNp(after)) ==> r == []
    ensures !HasNp(after) && !requiresPp ==> r == []
  {
    var hasNp := HasNp(after);
    var hasPp := HasPp(after);
    (if hasNp && !hasPp then
       (if requiresPp then [RequiresPrepositionMessage(verb)]
        else if !allowsNp then [NoObjectMessage(verb)] else [])
     else [])
    + (if requiresPp && !hasPp && !hasNp && after != [] then [RequiresPpMessage(verb)] else [])
  }

  function VerbLemma(f: Features): string {
    Lower(Agreement.GetOr(f, "lemma", ""))
  }

  function SubcategorizationErrors(tags: seq<string>, features: seq<Features>,
                                   verbSubcat: map<string, VerbInfo>): (r: seq<string>)
    requires |features| == |tags|
    ensures |r| <= 1
  {
    match FirstIn(tags, 0, |tags|, Agreement.VerbTags)
    case None => []
    case Some(v) =>
      var verb := VerbLemma(features[v]);
      if verb !in verbSubcat then []
      else FrameErrors(verb, AllowsNp(verbSubcat[verb]), RequiresPp(verbSubcat[verb]), tags[v + 1..])
  }

  /** A verb without a table entry, and a sentence without a verb, are not checked. */
  lemma UnknownVerbUnchecked(tags: seq<string>, features: seq<Features>,
                             verbSubcat: map<string, VerbInfo>)
    requires |features| == |tags|
    requires forall v :: 0 <= v < |tags| && tags[v] in Agreement.VerbTags ==> VerbLemma(features[v]) !in verbSubcat
    ensures SubcategorizationErrors(tags, features, verbSubcat) == []
  {
  }

  /** `_check_verb_subcategorization` */
  method CheckVerbSubcategorization(tags: seq<string>, features: seq<Features>,
                                    verbSubcat: map<string, VerbInfo>)
    returns (errors: seq<string>)
    requires |features| == |tags|
    ensures errors == SubcategorizationErrors(tags, features, verbSubcat)
  {
    errors := [];
    var verbIdx := FindFirst(tags, 0, |tags|, Agreement.VerbTags);
    if verbIdx.None? {
      return;
    }
    var v := verbIdx.value;
    var verb := VerbLemma(features[v]);
    if verb !in verbSubcat {
      return;
    }
    var allowsNp, requiresPp;
    match verbSubcat[verb] {
      case InfoDict(a, r, _) =>
        allowsNp, requiresPp := a.GetOr(true), r.GetOr(false);
      case FrameList(frames) =>
        allowsNp := "transitive" in frames || "ditransitive" in frames;
        requiresPp := "pp_required" in frames;
    }
    var after := if v < |tags| - 1 then tags[v + 1..] else [];
    assert after == tags[v + 1..];
    var hasNp := false;
    if after != [] {
      if after[0] in {"DT", "PRP", "NNP", "NNPS", "CD", "PRP$"} {
        hasNp := true;
      } else if after[0] in {"NN", "NNS"} {
        hasNp := true;
      }
    }
    assert hasNp == HasNp(after);
    var hasPp := ScanPp(after);
    if hasNp && !hasPp {
      if requiresPp {
        errors := errors + [RequiresPrepositionMessage(verb)];
      } else if !allowsNp {
        errors := errors + [NoObjectMessage(verb)];
      }
    }
    if requiresPp && !hasPp && !hasNp && v < |tags| - 1 {
      errors := errors + [RequiresPpMessage(verb)];
    }
  }

  /** The search for an `IN` tag with a tag after it. */
  method ScanPp(after: seq<string>) returns (hasPp: bool)
    ensures hasPp == HasPp(after)
  {
    hasPp := false;
    var i := 0;
    while i < |after|
      invariant 0 <= i <= |after|
      invariant !hasPp ==> forall k :: 0 <= k < i && k < |after| - 1 ==> after[k] != "IN"
      invariant hasPp ==> HasPp(after)
      invariant hasPp ==> i == |after|
    {
      if after[i] == "IN" && i + 1 < |after| {
        hasPp := true;
        break;
      }
      i := i + 1;
    }
  }

  // ---------------------------------------------------------------------------------------------
  // All tag-sequence checks

  function TagErrors(tags: seq<string>, features: seq<Features>,
                     verbSubcat: map<string, VerbInfo>): seq<string>
    requires |tags| > 0 && |features| == |tags|
  {
    DeterminerErrors(tags, features) + SubjectVerbErrors(tags, features)
    + SubcategorizationErrors(tags, features, verbSubcat)
  }

  /** `_check_tree_agreements`: true exactly when no check produced an error. */
  method CheckTreeAgreements(tags: seq<string>, features: seq<Features>,
                             verbSubcat: map<string, VerbInfo>)
    returns (ok: bool, errors: seq<string>)
    requires |tags| > 0 && |features| == |tags|
    ensures errors == TagErrors(tags, features, verbSubcat)
    ensures ok <==> errors == []
  {
    errors := CheckDeterminers(tags, features);
    var svErrors := CheckSubjectVerbAt(tags, features);
    errors := errors + svErrors;
    var subcatErrors := CheckVerbSubcategorization(tags, features, verbSubcat);
    errors := errors + subcatErrors;
    ok := |errors| == 0;
  }

  /** The subject-verb step of `_check_tree_agreements`. */
  method CheckSubjectVerbAt(tags: seq<string>, features: seq<Features>) returns (errors: seq<string>)
    requires |tags| > 0 && |features| == |tags|
    ensures errors == SubjectVerbErrors(tags, features)
  {
    errors := [];
    var subj := DetectSubject(tags, features);
    var verbIdx := FindFirst(tags, 0, |tags|, {"VBZ", "VBP"});
    if subj.Some? && verbIdx.Some? {
      var v := verbIdx.value;
      var verdict := Agreement.CheckSubjectVerb(subj.value, VerbFeatures(tags[v], features[v]));
      if !verdict.ok {
        errors := errors + [verdict.error.value];
      }
    }
  }

  /** Which checks can fail: at most one subject-verb and one subcategorization error, the rest
      one per checked determiner-noun pair. */
  lemma {:induction false} ErrorCountBound(tags: seq<string>, features: seq<Features>,
                                           verbSubcat: map<string, VerbInfo>)
    requires |tags| > 0 && |features| == |tags|
    ensures |TagErrors(tags, features, verbSubcat)| <= |DeterminerPairs(tags, 0)| + 2
  {
    DeterminerPairsInRange(tags, 0);
    PairErrorsBound(tags, features, DeterminerPairs(tags, 0));
  }

  lemma {:induction false} PairErrorsBound(tags: seq<string>, features: seq<Features>, pairs: seq<(nat, nat)>)
    requires |features| == |tags|
    requires PairsInRange(tags, pairs)
    ensures |PairErrors(tags, features, pairs)| <= |pairs|
  {
    if pairs != [] {
      PairErrorsBound(tags, features, pairs[1..]);
    }
  }
}
