// Verb subcategorization flags derived from VerbNet frames (subcategorization_extractor.py).
// The VerbNet lookups and the lemmatizer are inputs: `classids`/`frames` results arrive as
// a sequence of verb classes, the lemmatizer as a function.
module Subcategorization {
  import opened Wrappers
  import opened Text
  import Lexicon
  import Dicts

  /** One element of a frame's syntax list, a dictionary such as {'pos_tag': 'NP', ...}. */
  type SyntaxElement = map<string, string>

  datatype VerbClass = VerbClass(classId: string, frames: seq<seq<SyntaxElement>>)

  datatype FrameAnalysis = FrameAnalysis(allowsNp: bool, requiresPp: bool, allowsBare: bool, pattern: string)

  /** `[s.get('pos_tag', '') for s in syntax]` */
  function PosSequence(syntax: seq<SyntaxElement>): (r: seq<string>)
    ensures |r| == |syntax|
  {
    seq(|syntax|, i requires 0 <= i < |syntax| => if "pos_tag" in syntax[i] then syntax[i]["pos_tag"] else "")
  }

  /** The first position of `x` in `s`. */
  function FirstIndex(s: seq<string>, x: string): (r: Option<nat>)
    ensures r.None? <==> x !in s
    ensures r.Some? ==> r.value < |s| && s[r.value] == x && x !in s[..r.value]
  {
    if s == [] then None
    else if s[0] == x then Some(0)
    else
      match FirstIndex(s[1..], x)
      case None => None
      case Some(k) =>
        assert s[..k + 1] == [s[0]] + s[1..][..k];
        Some(k + 1)
  }

  /** What a frame allows, read off the tag right after its first VERB. */
  function AnalysisOf(posSequence: seq<string>): (r: FrameAnalysis)
    ensures r.pattern == Join(" ", posSequence)
    ensures "VERB" !in posSequence ==> !r.allowsNp && !r.requiresPp && !r.allowsBare
    ensures "VERB" in posSequence ==>
      var after := posSequence[FirstIndex(posSequence, "VERB").value + 1..];
      && (after == [] ==> r.allowsBare && !r.allowsNp && !r.requiresPp)
      && (after != [] ==> r.allowsNp == (after[0] in {"NP", "ADJ"})
                          && r.requiresPp == (after[0] == "PREP")
                          && r.allowsBare == (after[0] == "PREP"))
  {
    var pattern := Join(" ", posSequence);
    match FirstIndex(posSequence, "VERB")
    case None => FrameAnalysis(false, false, false, pattern)
    case Some(v) =>
      var after := posSequence[v + 1..];
      if after == [] then FrameAnalysis(false, false, true, pattern)
      else FrameAnalysis(after[0] in {"NP", "ADJ"}, after[0] == "PREP", after[0] == "PREP", pattern)
  }

  /** `analyze_frame_syntax`: a search for the first VERB, then flags from what follows it. */
  method AnalyzeFrameSyntax(syntax: seq<SyntaxElement>) returns (result: FrameAnalysis)
    ensures result == AnalysisOf(PosSequence(syntax))
  {
    var posSequence := PosSequence(syntax);
    result := FrameAnalysis(false, false, false, Join(" ", posSequence));
    var verbIdx := -1;
    var i := 0;
    while i < |posSequence|
      invariant 0 <= i <= |posSequence|
      invariant verbIdx == -1 ==> "VERB" !in posSequence[..i]
      invariant verbIdx != -1 ==> FirstIndex(posSequence, "VERB") == Some(verbIdx)
    {
      if posSequence[i] == "VERB" {
        verbIdx := i;
        assert posSequence[..i + 1] == posSequence[..i] + ["VERB"];
        break;
      }
      assert posSequence[..i + 1] == posSequence[..i] + [posSequence[i]];
      i := i + 1;
    }
    if verbIdx == -1 {
      assert posSequence[..i] == posSequence;
      return;
    }
    var afterVerb := posSequence[verbIdx + 1..];
    if afterVerb == [] {
      result := result.(allowsBare := true);
      return;
    }
    if afterVerb[0] == "NP" {
      result := result.(allowsNp := true);
    }
    if afterVerb[0] == "PREP" {
      result := result.(requiresPp := true, allowsBare := true);
    }
    if afterVerb[0] == "ADJ" {
      result := result.(allowsNp := true);
    }
  }

  /** The summary `get_verbnet_frames` returns; the temporary `has_pp_frame` is not part of it. */
  datatype VerbnetSummary = VerbnetSummary(frames: set<string>, allowsNp: bool, requiresPp: bool, allowsBare: bool)

  datatype Flag = AllowsNp | RequiresPp | AllowsBare

  function FlagOf(a: FrameAnalysis, flag: Flag): bool {
    match flag
    case AllowsNp => a.allowsNp
    case RequiresPp => a.requiresPp
    case AllowsBare => a.allowsBare
  }

  function FrameFlag(classes: seq<VerbClass>, c: nat, f: nat, flag: Flag): bool
    requires c < |classes| && f < |classes[c].frames|
  {
    FlagOf(AnalysisOf(PosSequence(classes[c].frames[f])), flag)
  }

  /** Some frame of some class has the flag. */
  ghost predicate AnyFrame(classes: seq<VerbClass>, flag: Flag) {
    exists c, f :: 0 <= c < |classes| && 0 <= f < |classes[c].frames| && FrameFlag(classes, c, f, flag)
  }

  predicate Ditransitive(classId: string) {
    Contains(Lower(classId), "give") || Contains(Lower(classId), "send")
  }

  ghost predicate AnyDitransitive(classes: seq<VerbClass>) {
    exists c :: 0 <= c < |classes| && Ditransitive(classes[c].classId)
  }

  /** The summary of a verb's classes, stated over all of its frames at once. */
  ghost function SummaryOf(classes: seq<VerbClass>): VerbnetSummary {
    var np := AnyFrame(classes, AllowsNp);
    var pp := AnyFrame(classes, RequiresPp);
    var bare := AnyFrame(classes, AllowsBare);
    VerbnetSummary(
      (if np then {"transitive"} else {}) + (if pp || bare then {"intransitive"} else {})
      + (if AnyDitransitive(classes) then {"ditransitive"} else {}),
      np, pp && !np, bare)
  }

  ghost predicate SeenFlag(classes: seq<VerbClass>, c: nat, f: nat, flag: Flag)
    requires c <= |classes|
  {
    exists c', f' :: 0 <= c' < |classes| && 0 <= f' < |classes[c'].frames|
      && (c' < c || (c' == c && f' < f)) && FrameFlag(classes, c', f', flag)
  }

  /** The flag-combination logic of `get_verbnet_frames` over the verb's classes. */
  method GetVerbnetFrames(classes: seq<VerbClass>) returns (r: VerbnetSummary)
    ensures r == SummaryOf(classes)
    ensures r.requiresPp ==> !r.allowsNp
    ensures r.frames <= {"transitive", "intransitive", "ditransitive"}
  {
    var frames: set<string> := {};
    var allowsNp, hasPpFrame, allowsBare := false, false, false;
    var c := 0;
    while c < |classes|
      invariant 0 <= c <= |classes|
      invariant allowsNp == Seen(classes, c, 0, AllowsNp)
      invariant hasPpFrame == Seen(classes, c, 0, RequiresPp)
      invariant allowsBare == Seen(classes, c, 0, AllowsBare)
      invariant frames == FlagFrames(allowsNp, hasPpFrame, allowsBare)
    {
      allowsNp, hasPpFrame, allowsBare, frames := ScanClass(classes, c, allowsNp, hasPpFrame, allowsBare, frames);
      c := c + 1;
    }
    SeenIsSeenFlag(classes, |classes|, 0, AllowsNp);
    SeenIsSeenFlag(classes, |classes|, 0, RequiresPp);
    SeenIsSeenFlag(classes, |classes|, 0, AllowsBare);
    frames := AddDitransitive(classes, frames);
    r := VerbnetSummary(frames, allowsNp, hasPpFrame && !allowsNp, allowsBare);
  }

  /** The class-name loop (lines 144-147): a give or send class makes the verb ditransitive. */
  method AddDitransitive(classes: seq<VerbClass>, frames0: set<string>) returns (frames: set<string>)
    ensures frames == frames0 + if AnyDitransitive(classes) then {"ditransitive"} else {}
  {
    frames := frames0;
    var k := 0;
    while k < |classes|
      invariant 0 <= k <= |classes|
      invariant frames == frames0 + if exists c :: 0 <= c < k && Ditransitive(classes[c].classId) then {"ditransitive"} else {}
    {
      var className := Lower(classes[k].classId);
      if Contains(className, "give") || Contains(className, "send") {
        frames := frames + {"ditransitive"};
      }
      k := k + 1;
    }
  }

  /** The frame names the three flags contribute. */
  function FlagFrames(np: bool, pp: bool, bare: bool): set<string> {
    (if np then {"transitive"} else {}) + (if pp || bare then {"intransitive"} else {})
  }

  /** The loop over the frames of one class (lines 126-141). */
  method ScanClass(classes: seq<VerbClass>, c: nat, np0: bool, pp0: bool, bare0: bool, frames0: set<string>)
    returns (allowsNp: bool, hasPpFrame: bool, allowsBare: bool, frames: set<string>)
    requires c < |classes|
    requires np0 == Seen(classes, c, 0, AllowsNp) && pp0 == Seen(classes, c, 0, RequiresPp)
    requires bare0 == Seen(classes, c, 0, AllowsBare) && frames0 == FlagFrames(np0, pp0, bare0)
    ensures allowsNp == Seen(classes, c, |classes[c].frames|, AllowsNp)
    ensures hasPpFrame == Seen(classes, c, |classes[c].frames|, RequiresPp)
    ensures allowsBare == Seen(classes, c, |classes[c].frames|, AllowsBare)
    ensures frames == FlagFrames(allowsNp, hasPpFrame, allowsBare)
  {
    allowsNp, hasPpFrame, allowsBare, frames := np0, pp0, bare0, frames0;
    var vnFrames := classes[c].frames;
    var f := 0;
    while f < |vnFrames|
      invariant 0 <= f <= |vnFrames|
      invariant allowsNp == Seen(classes, c, f, AllowsNp)
      invariant hasPpFrame == Seen(classes, c, f, RequiresPp)
      invariant allowsBare == Seen(classes, c, f, AllowsBare)
      invariant frames == FlagFrames(allowsNp, hasPpFrame, allowsBare)
    {
      var analysis := AnalyzeFrameSyntax(vnFrames[f]);
      assert FrameFlag(classes, c, f, AllowsNp) == analysis.allowsNp;
      assert FrameFlag(classes, c, f, RequiresPp) == analysis.requiresPp;
      assert FrameFlag(classes, c, f, AllowsBare) == analysis.allowsBare;
      allowsNp, hasPpFrame, allowsBare, frames := ScanFrame(analysis, allowsNp, hasPpFrame, allowsBare, frames);
      f := f + 1;
    }
  }

  /** The body of that loop for one analysed frame. */
  method ScanFrame(analysis: FrameAnalysis, np0: bool, pp0: bool, bare0: bool, frames0: set<string>)
    returns (allowsNp: bool, hasPpFrame: bool, allowsBare: bool, frames: set<string>)
    requires frames0 == FlagFrames(np0, pp0, bare0)
    ensures allowsNp == (np0 || analysis.allowsNp) && hasPpFrame == (pp0 || analysis.requiresPp)
    ensures allowsBare == (bare0 || analysis.allowsBare)
    ensures frames == FlagFrames(allowsNp, hasPpFrame, allowsBare)
  {
    allowsNp, hasPpFrame, allowsBare, frames := np0, pp0, bare0, frames0;
    if analysis.allowsNp {
      allowsNp := true;
      frames := frames + {"transitive"};
    }
    if analysis.requiresPp {
      hasPpFrame := true;
      frames := frames + {"intransitive"};
    }
    if analysis.allowsBare {
      allowsBare := true;
      frames := frames + {"intransitive"};
    }
  }

  /** Whether a frame before position (c, f) of the class-by-frame scan has the flag. */
  function Seen(classes: seq<VerbClass>, c: nat, f: nat, flag: Flag): bool
    requires c <= |classes| && (c < |classes| ==> f <= |classes[c].frames|) && (c == |classes| ==> f == 0)
    decreases c, f
  {
    if f > 0 then Seen(classes, c, f - 1, flag) || FrameFlag(classes, c, f - 1, flag)
    else if c == 0 then false
    else Seen(classes, c - 1, |classes[c - 1].frames|, flag)
  }

  /** The scan's running flag is the existential over the frames already scanned. */
  lemma {:induction false} SeenIsSeenFlag(classes: seq<VerbClass>, c: nat, f: nat, flag: Flag)
    requires c <= |classes| && (c < |classes| ==> f <= |classes[c].frames|) && (c == |classes| ==> f == 0)
    ensures Seen(classes, c, f, flag) == SeenFlag(classes, c, f, flag)
    decreases c, f
  {
    if f > 0 {
      SeenIsSeenFlag(classes, c, f - 1, flag);
      SeenFrameStep(classes, c, f, flag);
    } else if c > 0 {
      SeenIsSeenFlag(classes, c - 1, |classes[c - 1].frames|, flag);
      SeenClassStep(classes, c, flag);
    } else {
      assert !Seen(classes, c, f, flag);
      assert !SeenFlag(classes, c, f, flag);
    }
  }

  lemma SeenFrameStep(classes: seq<VerbClass>, c: nat, f: nat, flag: Flag)
    requires c < |classes| && 0 < f <= |classes[c].frames|
    requires Seen(classes, c, f - 1, flag) == SeenFlag(classes, c, f - 1, flag)
    ensures Seen(classes, c, f, flag) == SeenFlag(classes, c, f, flag)
  {
    assert Seen(classes, c, f, flag) == (Seen(classes, c, f - 1, flag) || FrameFlag(classes, c, f - 1, flag));
    SeenFlagFrame(classes, c, f, flag);
  }

  lemma SeenClassStep(classes: seq<VerbClass>, c: nat, flag: Flag)
    requires 0 < c <= |classes|
    requires Seen(classes, c - 1, |classes[c - 1].frames|, flag) == SeenFlag(classes, c - 1, |classes[c - 1].frames|, flag)
    ensures Seen(classes, c, 0, flag) == SeenFlag(classes, c, 0, flag)
  {
    assert Seen(classes, c, 0, flag) == Seen(classes, c - 1, |classes[c - 1].frames|, flag);
    SeenFlagClass(classes, c, flag);
  }

  /** Moving past one frame adds that frame to the ones seen. */
  lemma SeenFlagFrame(classes: seq<VerbClass>, c: nat, f: nat, flag: Flag)
    requires c < |classes| && 0 < f <= |classes[c].frames|
    ensures SeenFlag(classes, c, f, flag) == (SeenFlag(classes, c, f - 1, flag) || FrameFlag(classes, c, f - 1, flag))
  {
    if SeenFlag(classes, c, f, flag) && !FrameFlag(classes, c, f - 1, flag) {
      var c', f' :| 0 <= c' < |classes| && 0 <= f' < |classes[c'].frames|
        && (c' < c || (c' == c && f' < f)) && FrameFlag(classes, c', f', flag);
      assert c' < c || (c' == c && f' < f - 1);
    }
    if FrameFlag(classes, c, f - 1, flag) {
      assert 0 <= c < |classes| && 0 <= f - 1 < |classes[c].frames| && FrameFlag(classes, c, f - 1, flag);
    }
  }

  /** Moving to the next class changes nothing about the frames seen. */
  lemma SeenFlagClass(classes: seq<VerbClass>, c: nat, flag: Flag)
    requires 0 < c <= |classes|
    ensures SeenFlag(classes, c, 0, flag) == SeenFlag(classes, c - 1, |classes[c - 1].frames|, flag)
  {
    if SeenFlag(classes, c, 0, flag) {
      var c', f' :| 0 <= c' < |classes| && 0 <= f' < |classes[c'].frames|
        && (c' < c || (c' == c && f' < 0)) && FrameFlag(classes, c', f', flag);
      assert c' < c - 1 || (c' == c - 1 && f' < |classes[c - 1].frames|);
    }
  }

  /** An entry of the verbs table. */
  datatype SubcatEntry = SubcatEntry(frames: seq<string>, allowsNp: bool, requiresPp: bool)

  const DefaultEntry := SubcatEntry(["transitive"], true, false)

  const MotionVerbs := {"go", "come", "travel", "arrive", "depart", "return", "proceed", "advance", "retreat", "enter", "exit"}
  const PpVerbs := {"listen", "smile", "laugh", "look", "stare", "glance"}

  /** `sorted(list(frames))` for a set of frame names. */
  function SortedFrames(frames: set<string>): (r: seq<string>)
    requires frames <= {"transitive", "intransitive", "ditransitive"}
    ensures forall x :: x in r <==> x in frames
    ensures forall i, j :: 0 <= i < j < |r| ==> LexLess(r[i], r[j])
  {
    assert LexLess("ditransitive", "intransitive") && LexLess("intransitive", "transitive")
      && LexLess("ditransitive", "transitive");
    (if "ditransitive" in frames then ["ditransitive"] else [])
    + (if "intransitive" in frames then ["intransitive"] else [])
    + (if "transitive" in frames then ["transitive"] else [])
  }

  const VerbTags := {"VB", "VBD", "VBG", "VBN", "VBP", "VBZ"}

  /** `entry.get('lemma', get_lemma(word))` */
  function EntryLemma(word: string, entry: Lexicon.Features, getLemma: string -> string): string {
    if "lemma" in entry then entry["lemma"] else getLemma(word)
  }

  predicate IsVerbEntry(entry: Lexicon.Features) {
    "pos" in entry && entry["pos"] in VerbTags
  }

  /** The lemmas of all verb entries of the lexicon. */
  ghost function VerbLemmas(lexicon: Lexicon.Lex, getLemma: string -> string): set<string> {
    set w, e | w in lexicon.m && e in lexicon.m[w] && IsVerbEntry(e) :: EntryLemma(w, e, getLemma)
  }

  /** The entry a lemma gets before the override tables are applied. */
  ghost function BaseEntry(classes: seq<VerbClass>): SubcatEntry {
    var s := SummaryOf(classes);
    if s.frames != {} then SubcatEntry(SortedFrames(s.frames), s.allowsNp, s.requiresPp) else DefaultEntry
  }

  /** The entry a lemma ends up with. */
  ghost function FinalEntry(verb: string, classes: seq<VerbClass>): SubcatEntry {
    var e := BaseEntry(classes);
    if verb in MotionVerbs + PpVerbs then Overridden(e) else e
  }

  /** Collects the lemmas of the verb entries (lines 181-186). */
  method CollectVerbLemmas(lexicon: Lexicon.Lex, getLemma: string -> string) returns (lemmas: set<string>)
    requires Dicts.Valid(lexicon)
    ensures lemmas == VerbLemmas(lexicon, getLemma)
  {
    lemmas := {};
    var i := 0;
    while i < |lexicon.keys|
      invariant 0 <= i <= |lexicon.keys|
      invariant lemmas == set w, e | w in lexicon.keys[..i] && e in lexicon.m[w] && IsVerbEntry(e) :: EntryLemma(w, e, getLemma)
    {
      var word := lexicon.keys[i];
      var entries := lexicon.m[word];
      var j := 0;
      while j < |entries|
        invariant 0 <= j <= |entries|
        invariant lemmas == (set w, e | w in lexicon.keys[..i] && e in lexicon.m[w] && IsVerbEntry(e) :: EntryLemma(w, e, getLemma))
                            + (set e | e in entries[..j] && IsVerbEntry(e) :: EntryLemma(word, e, getLemma))
      {
        var entry := entries[j];
        if "pos" in entry && entry["pos"] in VerbTags {
          lemmas := lemmas + {EntryLemma(word, entry, getLemma)};
        }
        assert entries[..j + 1] == entries[..j] + [entry];
        j := j + 1;
      }
      assert entries[..j] == entries;
      assert lexicon.keys[..i + 1] == lexicon.keys[..i] + [word];
      i := i + 1;
    }
    assert lexicon.keys[..i] == lexicon.keys;
  }

  /** The default and override logic of `extract_subcategorization_from_lexicon`: every verb
      lemma of the lexicon gets an entry, and the override tables only adjust entries. */
  method ExtractSubcategorization(lexicon: Lexicon.Lex, getLemma: string -> string, verbnet: string -> seq<VerbClass>)
    returns (verbs: map<string, SubcatEntry>)
    requires Dicts.Valid(lexicon)
    ensures verbs.Keys == VerbLemmas(lexicon, getLemma)
    ensures forall l :: l in verbs ==> verbs[l] == FinalEntry(l, verbnet(l))
  {
    var lemmas := CollectVerbLemmas(lexicon, getLemma);
    var found, notFound := LookupVerbs(lemmas, verbnet);
    verbs := AddDefaults(found, notFound, verbnet);
    ghost var base := verbs;
    var withMotion := ApplyOverrides(verbs, MotionVerbs);
    verbs := ApplyOverrides(withMotion, PpVerbs);
    OverridesCompose(base, withMotion, verbs, MotionVerbs, PpVerbs);
    FinalEntries(base, verbs, verbnet);
  }

  /** The loop over `not_found`: each lemma VerbNet has no frame for gets the default entry. */
  method AddDefaults(found: map<string, SubcatEntry>, notFound: set<string>, verbnet: string -> seq<VerbClass>)
    returns (verbs: map<string, SubcatEntry>)
    requires forall l :: l in found ==> found[l] == BaseEntry(verbnet(l))
    requires forall l :: l in notFound ==> SummaryOf(verbnet(l)).frames == {}
    ensures verbs.Keys == found.Keys + notFound
    ensures forall l :: l in verbs ==> verbs[l] == BaseEntry(verbnet(l))
  {
    verbs := found;
    var todo := notFound;
    while todo != {}
      invariant todo <= notFound
      invariant verbs.Keys == found.Keys + (notFound - todo)
      invariant forall l :: l in verbs ==> verbs[l] == BaseEntry(verbnet(l))
      decreases todo
    {
      var verb :| verb in todo;
      verbs := verbs[verb := DefaultEntry];
      todo := todo - {verb};
    }
  }

  /** What an override table does to the entry of a listed lemma: no direct object, a PP required. */
  function Overridden(e: SubcatEntry): SubcatEntry {
    e.(allowsNp := false, requiresPp := true)
  }

  /** Two override passes in turn act as one pass over the union of their tables. */
  lemma OverridesCompose(base: map<string, SubcatEntry>, v1: map<string, SubcatEntry>, v2: map<string, SubcatEntry>,
                         a: set<string>, b: set<string>)
    requires v1.Keys == base.Keys && forall l :: l in v1 ==> v1[l] == if l in a then Overridden(base[l]) else base[l]
    requires v2.Keys == v1.Keys && forall l :: l in v2 ==> v2[l] == if l in b then Overridden(v1[l]) else v1[l]
    ensures v2.Keys == base.Keys && forall l :: l in v2 ==> v2[l] == if l in a + b then Overridden(base[l]) else base[l]
  {
  }

  lemma FinalEntries(base: map<string, SubcatEntry>, v: map<string, SubcatEntry>, verbnet: string -> seq<VerbClass>)
    requires forall l :: l in base ==> base[l] == BaseEntry(verbnet(l))
    requires v.Keys == base.Keys
    requires forall l :: l in v ==> v[l] == if l in MotionVerbs + PpVerbs then Overridden(base[l]) else base[l]
    ensures forall l :: l in v ==> v[l] == FinalEntry(l, verbnet(l))
  {
  }

  /** The VerbNet loop (lines 193-225): lemmas with frames get their entry, the rest are set aside. */
  method LookupVerbs(lemmas: set<string>, verbnet: string -> seq<VerbClass>)
    returns (verbs: map<string, SubcatEntry>, notFound: set<string>)
    ensures notFound !! verbs.Keys && notFound + verbs.Keys == lemmas
    ensures forall l :: l in verbs ==> verbs[l] == BaseEntry(verbnet(l))
    ensures forall l :: l in notFound ==> SummaryOf(verbnet(l)).frames == {}
  {
    verbs := map[];
    notFound := {};
    var todo := lemmas;
    while todo != {}
      invariant todo <= lemmas
      invariant notFound !! verbs.Keys && notFound + verbs.Keys == lemmas - todo
      invariant forall l :: l in verbs ==> verbs[l] == BaseEntry(verbnet(l))
      invariant forall l :: l in notFound ==> SummaryOf(verbnet(l)).frames == {}
      decreases todo
    {
      var verb :| verb in todo;
      var vn := GetVerbnetFrames(verbnet(verb));
      if vn.frames != {} {
        verbs := verbs[verb := SubcatEntry(SortedFrames(vn.frames), vn.allowsNp, vn.requiresPp)];
      } else {
        notFound := notFound + {verb};
      }
      todo := todo - {verb};
    }
  }

  /** One override loop (lines 245-249 or 254-258): listed lemmas that are present lose the
      direct object and require a PP; nothing is added. */
  method ApplyOverrides(verbs: map<string, SubcatEntry>, listed: set<string>) returns (r: map<string, SubcatEntry>)
    ensures r.Keys == verbs.Keys
    ensures forall l :: l in r ==> r[l] == if l in listed then Overridden(verbs[l]) else verbs[l]
  {
    r := verbs;
    var todo := listed;
    while todo != {}
      invariant todo <= listed
      invariant r.Keys == verbs.Keys
      invariant forall l :: l in r ==> r[l] == if l in listed - todo then Overridden(verbs[l]) else verbs[l]
      decreases todo
    {
      var verb :| verb in todo;
      if verb in r {
        r := r[verb := Overridden(r[verb])];
      }
      todo := todo - {verb};
    }
  }

  /** A lemma with no VerbNet frames defaults to a transitive verb unless an override table lists it. */
  lemma DefaultForUnknownVerb(verb: string, classes: seq<VerbClass>)
    requires SummaryOf(classes).frames == {}
    requires verb !in MotionVerbs + PpVerbs
    ensures FinalEntry(verb, classes) == SubcatEntry(["transitive"], true, false)
  {
  }

  /** A class whose frames all put NP after the verb never requires a PP: the PP flag needs the
      absence of any transitive frame. */
  lemma TransitiveFrameBlocksPp(classes: seq<VerbClass>)
    requires AnyFrame(classes, AllowsNp)
    ensures !SummaryOf(classes).requiresPp && "transitive" in SummaryOf(classes).frames
  {
  }
}
