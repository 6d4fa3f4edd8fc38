// Determiner-noun and subject-verb agreement decisions and feature propagation
// over feature records (string-valued dictionaries).
module Agreement {
  import opened Wrappers

  type Features = map<string, string>

  /** An agreement verdict: success with no message, or failure with one. */
  datatype Verdict = Verdict(ok: bool, error: Option<string>)

  const Ok := Verdict(true, None)

  predicate WellFormed(v: Verdict) {
    v.ok <==> v.error.None?
  }

  /** `f.get(key, default)` */
  function GetOr(f: Features, key: string, default: string): string {
    if key in f then f[key] else default
  }

  /** `f.get('head_pos') or f.get('pos')`: an empty head tag is falsy and falls through. */
  function HeadPos(f: Features): (r: Option<string>)
    ensures r.Some? <==> ("head_pos" in f && f["head_pos"] != "") || "pos" in f
  {
    if "head_pos" in f && f["head_pos"] != "" then Some(f["head_pos"])
    else if "pos" in f then Some(f["pos"])
    else None
  }

  /** The number a noun contributes, read from its tag when the tag carries it. */
  function NounNumber(nounPos: string, noun: Features): string {
    if nounPos == "NN" then "sg"
    else if nounPos == "NNS" then "pl"
    else GetOr(noun, "num", "any")
  }

  function DtNounMessage(dtNum: string, nounPos: string, nounNum: string): string {
    "DT-Noun number disagreement: DT(" + dtNum + ") + " + nounPos + "(" + nounNum + ")"
  }

  /** Determiner-noun number agreement. */
  function CheckDtNoun(dt: Features, noun: Features, nounPos: string): (r: Verdict)
    ensures WellFormed(r)
    ensures GetOr(dt, "num", "any") == "any" ==> r.ok
    ensures r.ok <==> GetOr(dt, "num", "any") in {"any", NounNumber(nounPos, noun)}
    ensures !r.ok ==> r.error == Some(DtNounMessage(dt["num"], nounPos, NounNumber(nounPos, noun)))
  {
    var dtNum := GetOr(dt, "num", "any");
    if dtNum == "any" then Ok
    else
      var nounNum := NounNumber(nounPos, noun);
      if dtNum == nounNum then Ok
      else Verdict(false, Some(DtNounMessage(dtNum, nounPos, nounNum)))
  }

  predicate ThirdSingular(np: Features) {
    GetOr(np, "person", "any") == "3" && GetOr(np, "num", "any") == "sg"
  }

  const VbpMessage := "Subject-Verb disagreement: NP(3sg) + VBP (requires non-3sg)"

  function VbzMessage(person: string, num: string): string {
    "Subject-Verb disagreement: NP(" + person + "p, " + num + ") + VBZ (requires 3sg)"
  }

  /** Subject-verb agreement for present-tense VBZ/VBP heads. */
  function CheckSubjectVerb(np: Features, vp: Features): (r: Verdict)
    ensures WellFormed(r)
    ensures GetOr(vp, "tense", "any") == "past" ==> r.ok
    ensures HeadPos(vp) == Some("VBZ") ==>
      (r.ok <==> GetOr(vp, "tense", "any") == "past" || ThirdSingular(np)
                 || GetOr(np, "person", "any") == "any" || GetOr(np, "num", "any") == "any")
    ensures HeadPos(vp) == Some("VBP") ==>
      (r.ok <==> GetOr(vp, "tense", "any") == "past" || !ThirdSingular(np))
    ensures HeadPos(vp) !in {Some("VBZ"), Some("VBP")} ==> r.ok
    ensures !r.ok && HeadPos(vp) == Some("VBZ") ==>
      r.error == Some(VbzMessage(GetOr(np, "person", "any"), GetOr(np, "num", "any")))
    ensures !r.ok && HeadPos(vp) == Some("VBP") ==> r.error == Some(VbpMessage)
  {
    var num := GetOr(np, "num", "any");
    var person := GetOr(np, "person", "any");
    var verbPos := HeadPos(vp);
    if GetOr(vp, "tense", "any") == "past" then Ok
    else if verbPos == Some("VBZ") then
      if person == "3" && num == "sg" then Ok
      else if person == "any" || num == "any" then Ok
      else Verdict(false, Some(VbzMessage(person, num)))
    else if verbPos == Some("VBP") then
      if person == "3" && num == "sg" then Verdict(false, Some(VbpMessage)) else Ok
    else Ok
  }

  /** Chooses the rule that applies when `parent -> left right` is built. */
  function CheckAgreement(left: Features, right: Features, parent: string, leftNt: string, rightNt: string): (r: Verdict)
    ensures WellFormed(r)
    ensures leftNt == "DT" && rightNt in {"NN", "NNS"} ==> r == CheckDtNoun(left, right, rightNt)
    ensures (!(leftNt == "DT" && rightNt in {"NN", "NNS"}) && parent == "S" && leftNt == "NP"
             && HeadPos(right) in {Some("VBZ"), Some("VBP")}) ==> r == CheckSubjectVerb(left, right)
    ensures (!(leftNt == "DT" && rightNt in {"NN", "NNS"})
             && !(parent == "S" && leftNt == "NP" && HeadPos(right) in {Some("VBZ"), Some("VBP")})) ==> r == Ok
  {
    if leftNt == "DT" && rightNt in {"NN", "NNS"} then CheckDtNoun(left, right, rightNt)
    else if parent == "S" && leftNt == "NP" && HeadPos(right) in {Some("VBZ"), Some("VBP")} then
      CheckSubjectVerb(left, right)
    else Ok
  }

  const NounTags := {"NN", "NNS", "NNP", "NNPS"}
  const VerbTags := {"VB", "VBD", "VBP", "VBZ", "VBG", "VBN"}

  /** The features a parent constituent inherits from its head child. */
  function PropagateFeatures(left: Features, right: Features, parent: string, leftNt: string, rightNt: string): (r: Features)
    ensures parent == "NP" && rightNt in NounTags ==>
      r == map["num" := GetOr(right, "num", if rightNt in {"NN", "NNP"} then "sg" else "pl"), "head_pos" := rightNt]
    ensures parent == "NP" && rightNt !in NounTags && leftNt == "PRP" ==>
      r == map["num" := GetOr(left, "num", "any"), "person" := GetOr(left, "person", "any"), "head_pos" := "PRP"]
    ensures parent == "NP" && rightNt !in NounTags && leftNt != "PRP" ==> r == if rightNt == "NP" then right else left
    ensures parent == "VP" && leftNt in VerbTags ==>
      r.Keys == {"head_pos", "tense"} + (left.Keys * {"num", "person"})
      && r["head_pos"] == leftNt && r["tense"] == GetOr(left, "tense", "any")
      && (forall k :: k in {"num", "person"} && k in left ==> r[k] == left[k])
    ensures parent == "VP" && leftNt !in VerbTags && rightNt in VerbTags ==>
      r == map["head_pos" := rightNt, "tense" := GetOr(right, "tense", "any")]
    ensures parent == "VP" && leftNt !in VerbTags && rightNt !in VerbTags ==> r == map[]
    ensures parent == "PP" ==> r == if rightNt == "NP" then right else map[]
    ensures parent !in {"NP", "VP", "PP"} ==> r == map[]
  {
    if parent == "NP" then
      if rightNt in NounTags then
        map["num" := GetOr(right, "num", if rightNt in {"NN", "NNP"} then "sg" else "pl"), "head_pos" := rightNt]
      else if leftNt == "PRP" then
        map["num" := GetOr(left, "num", "any"), "person" := GetOr(left, "person", "any"), "head_pos" := "PRP"]
      else if rightNt == "NP" then right
      else left
    else if parent == "VP" then
      if leftNt in VerbTags then
        var base := map["head_pos" := leftNt, "tense" := GetOr(left, "tense", "any")];
        var withNum := if "num" in left then base["num" := left["num"]] else base;
        if "person" in left then withNum["person" := left["person"]] else withNum
      else if rightNt in VerbTags then
        map["head_pos" := rightNt, "tense" := GetOr(right, "tense", "any")]
      else map[]
    else if parent == "PP" then
      if rightNt == "NP" then right else map[]
    else map[]
  }

  /** The determiner-noun demonstration cases of the source hold. */
  lemma DtNounDemoCases()
    ensures CheckDtNoun(map["num" := "sg"], map["num" := "sg"], "NN").ok
    ensures !CheckDtNoun(map["num" := "sg"], map["num" := "pl"], "NNS").ok
    ensures CheckDtNoun(map["num" := "any"], map["num" := "sg"], "NN").ok
    ensures CheckDtNoun(map["num" := "any"], map["num" := "pl"], "NNS").ok
    ensures CheckDtNoun(map["num" := "pl"], map["num" := "pl"], "NNS").ok
    ensures !CheckDtNoun(map["num" := "pl"], map["num" := "sg"], "NN").ok
  {
  }

  /** The subject-verb demonstration cases of the source hold. */
  lemma SubjectVerbDemoCases()
    ensures CheckSubjectVerb(map["person" := "1", "num" := "sg"], map["head_pos" := "VBP"]).ok
    ensures !CheckSubjectVerb(map["person" := "1", "num" := "sg"], map["head_pos" := "VBZ"]).ok
    ensures CheckSubjectVerb(map["person" := "3", "num" := "sg"], map["head_pos" := "VBZ"]).ok
    ensures !CheckSubjectVerb(map["person" := "3", "num" := "sg"], map["head_pos" := "VBP"]).ok
    ensures CheckSubjectVerb(map["person" := "3", "num" := "pl"], map["head_pos" := "VBP"]).ok
    ensures !CheckSubjectVerb(map["person" := "3", "num" := "pl"], map["head_pos" := "VBZ"]).ok
  {
  }
}
