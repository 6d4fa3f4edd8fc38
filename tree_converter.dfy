// De-binarization of chart-parser trees (parse_tree_converter.py): children whose label is
// auxiliary are spliced out, in place, in favour of their own children. The auxiliary labels
// are recognised by name alone.
module TreeConversion {
  import opened Wrappers
  import opened Text
  import opened Trees
  import Grammars

  /** What decides that a label is auxiliary. */
  datatype AuxConfig = AuxConfig(prefixes: set<string>, auxiliaryNts: set<string>, originalNonTerminals: set<string>)

  /** `nt` is `prefix` followed by nothing but digits. */
  predicate PrefixDigits(nt: string, prefix: string) {
    StartsWith(nt, prefix) && (|nt| == |prefix| || IsDigits(nt[|prefix|..]))
  }

  /** `is_auxiliary` */
  function IsAuxiliary(cfg: AuxConfig, nt: string): (r: bool)
    ensures r <==> (cfg.auxiliaryNts != {} && nt in cfg.auxiliaryNts)
                   || (cfg.originalNonTerminals != {} && nt !in cfg.originalNonTerminals)
                   || exists p :: p in cfg.prefixes && |p| <= |nt| && nt[..|p|] == p
                                  && forall i :: |p| <= i < |nt| ==> IsDigit(nt[i])
  {
    if cfg.auxiliaryNts != {} && nt in cfg.auxiliaryNts then true
    else if cfg.originalNonTerminals != {} && nt !in cfg.originalNonTerminals then true
    else
      assert forall p :: p in cfg.prefixes ==>
        (PrefixDigits(nt, p) <==> |p| <= |nt| && nt[..|p|] == p && forall i :: |p| <= i < |nt| ==> IsDigit(nt[i])) by {
        forall p | p in cfg.prefixes && |p| <= |nt| && nt[..|p|] == p && |nt| > |p|
          ensures IsDigits(nt[|p|..]) <==> forall i :: |p| <= i < |nt| ==> IsDigit(nt[i])
        {
          assert forall i :: |p| <= i < |nt| ==> nt[i] == nt[|p|..][i - |p|];
        }
      }
      exists p :: p in cfg.prefixes && PrefixDigits(nt, p)
  }

  /** How one converted child lands in its parent's child list. */
  function Splice(cfg: AuxConfig, c: Tree): (r: seq<Tree>)
    ensures |r| > 0
  {
    if c.Node? && |c.kids| > 0 && IsAuxiliary(cfg, c.nt) then c.kids else [c]
  }

  /** The tree `_convert_node` returns: the root label stays, auxiliary children are replaced
      by their children. */
  function Debinarize(cfg: AuxConfig, t: Tree): (r: Tree)
    ensures t.Node? ==> r.Node? && r.nt == t.nt
    ensures IsLeaf(t) ==> r == t
    decreases t, 1
  {
    if t.Tok? || IsLeaf(t) then t
    else Node(t.nt, DebinarizeKids(cfg, t.kids))
  }

  function DebinarizeKids(cfg: AuxConfig, kids: seq<Tree>): (r: seq<Tree>)
    ensures kids != [] ==> |r| > 0
    decreases kids, 0
  {
    if kids == [] then []
    else DebinarizeKids(cfg, kids[..|kids| - 1]) + Splice(cfg, Debinarize(cfg, kids[|kids| - 1]))
  }

  /** De-binarization keeps the words and their order. */
  lemma {:induction false} DebinarizeYield(cfg: AuxConfig, t: Tree)
    requires Tupled(t)
    ensures Yield(Debinarize(cfg, t)) == Yield(t)
    decreases t, 1
  {
    if !IsLeaf(t) {
      DebinarizeKidsYield(cfg, t.kids);
    }
  }

  lemma {:induction false} DebinarizeKidsYield(cfg: AuxConfig, kids: seq<Tree>)
    requires forall i :: 0 <= i < |kids| ==> Tupled(kids[i])
    ensures YieldKids(DebinarizeKids(cfg, kids)) == YieldKids(kids)
    decreases kids, 0
  {
    if kids != [] {
      var init, last := kids[..|kids| - 1], kids[|kids| - 1];
      DebinarizeKidsYield(cfg, init);
      DebinarizeYield(cfg, last);
      var c := Debinarize(cfg, last);
      YieldKidsAppend(DebinarizeKids(cfg, init), Splice(cfg, c));
      if c.Node? && |c.kids| > 0 && IsAuxiliary(cfg, c.nt) {
        assert YieldKids(Splice(cfg, c)) == Yield(c);
      } else {
        assert [c][..0] == [];
      }
    }
  }

  /** No node strictly below the root carries an auxiliary label. */
  predicate NoAuxBelow(cfg: AuxConfig, t: Tree) {
    t.Node? ==> forall i :: 0 <= i < |t.kids| ==> NoAuxAt(cfg, t.kids[i])
  }

  predicate NoAuxAt(cfg: AuxConfig, t: Tree) {
    t.Node? ==> !IsAuxiliary(cfg, t.nt) && forall i :: 0 <= i < |t.kids| ==> NoAuxAt(cfg, t.kids[i])
  }

  lemma {:induction false} DebinarizeNoAux(cfg: AuxConfig, t: Tree)
    requires Tupled(t)
    ensures NoAuxBelow(cfg, Debinarize(cfg, t))
    decreases t, 1
  {
    if !IsLeaf(t) {
      DebinarizeKidsNoAux(cfg, t.kids);
    }
  }

  lemma {:induction false} DebinarizeKidsNoAux(cfg: AuxConfig, kids: seq<Tree>)
    requires forall i :: 0 <= i < |kids| ==> Tupled(kids[i])
    ensures forall i :: 0 <= i < |DebinarizeKids(cfg, kids)| ==> NoAuxAt(cfg, DebinarizeKids(cfg, kids)[i])
    decreases kids, 0
  {
    if kids != [] {
      var init, last := kids[..|kids| - 1], kids[|kids| - 1];
      DebinarizeKidsNoAux(cfg, init);
      DebinarizeNoAux(cfg, last);
      var c := Debinarize(cfg, last);
      if IsLeaf(last) {
        assert NoAuxAt(cfg, c.kids[0]);
      }
      if !(c.Node? && |c.kids| > 0 && IsAuxiliary(cfg, c.nt)) {
        assert c.Node? && |c.kids| > 0 && !IsAuxiliary(cfg, c.nt);
        assert NoAuxAt(cfg, c);
      }
    }
  }

  /** Where no label is auxiliary, de-binarization changes nothing. */
  lemma {:induction false} DebinarizeIdentity(cfg: AuxConfig, t: Tree)
    requires Tupled(t) && NoAuxBelow(cfg, t)
    ensures Debinarize(cfg, t) == t
    decreases t, 1
  {
    if !IsLeaf(t) {
      DebinarizeKidsIdentity(cfg, t.kids);
    }
  }

  lemma {:induction false} DebinarizeKidsIdentity(cfg: AuxConfig, kids: seq<Tree>)
    requires forall i :: 0 <= i < |kids| ==> Tupled(kids[i]) && NoAuxAt(cfg, kids[i])
    ensures DebinarizeKids(cfg, kids) == kids
    decreases kids, 0
  {
    if kids != [] {
      var init, last := kids[..|kids| - 1], kids[|kids| - 1];
      DebinarizeKidsIdentity(cfg, init);
      DebinarizeIdentity(cfg, last);
      assert kids == init + [last];
    }
  }

  /** `count_nodes` */
  datatype Counts = Counts(total: nat, internal: nat, leaf: nat)

  /** A preterminal counts as one leaf, every other node as one internal node. */
  function Internal(t: Tree): nat
    requires Tupled(t)
    decreases t, 1
  {
    if IsLeaf(t) then 0 else 1 + InternalKids(t.kids)
  }

  function InternalKids(kids: seq<Tree>): nat
    requires forall i :: 0 <= i < |kids| ==> Tupled(kids[i])
    decreases kids, 0
  {
    if kids == [] then 0 else InternalKids(kids[..|kids| - 1]) + Internal(kids[|kids| - 1])
  }

  /** `_extract_constituents_helper`'s records: label, start, end and covered text. */
  datatype Constituent = Constituent(nt: string, start: nat, end: nat, text: string)

  /** `sentence[lo:hi]`, clamped as Python slices are. */
  function Slice(sentence: seq<string>, lo: nat, hi: nat): seq<string> {
    var l := if lo <= |sentence| then lo else |sentence|;
    var h := if hi <= |sentence| then hi else |sentence|;
    if l <= h then sentence[l..h] else []
  }

  /** The text recorded for a node: sentence words if a non-empty sentence was given. */
  function SpanText(t: Tree, start: nat, end: nat, sentence: Option<seq<string>>): string
    requires Tupled(t)
  {
    if IsLeaf(t) then
      (if sentence.Some? && sentence.value != [] && start < |sentence.value| then sentence.value[start] else t.kids[0].text)
    else if sentence.Some? && sentence.value != [] then Join(" ", Slice(sentence.value, start, end))
    else ""
  }

  /** The constituents in the order the helper appends them: children first, then the node. */
  function Spans(t: Tree, start: nat, sentence: Option<seq<string>>): (r: seq<Constituent>)
    requires Tupled(t)
    ensures |r| > 0 && r[|r| - 1].nt == t.nt
    ensures r[|r| - 1].start == start && r[|r| - 1].end == start + |Yield(t)|
    decreases t, 1
  {
    if IsLeaf(t) then
      TupledLeafYield(t);
      [Constituent(t.nt, start, start + 1, SpanText(t, start, start + 1, sentence))]
    else
      var kidSpans := SpansKids(t.kids, start, sentence);
      kidSpans + [Constituent(t.nt, start, start + |Yield(t)|, SpanText(t, start, start + |Yield(t)|, sentence))]
  }

  function SpansKids(kids: seq<Tree>, start: nat, sentence: Option<seq<string>>): (r: seq<Constituent>)
    requires forall i :: 0 <= i < |kids| ==> Tupled(kids[i])
    decreases kids, 0
  {
    if kids == [] then []
    else
      var init := kids[..|kids| - 1];
      SpansKids(init, start, sentence) + Spans(kids[|kids| - 1], start + |YieldKids(init)|, sentence)
  }

  /** Every span lies inside the node's own, and none is empty. */
  lemma {:induction false} SpansWithin(t: Tree, start: nat, sentence: Option<seq<string>>)
    requires Tupled(t)
    ensures forall c :: c in Spans(t, start, sentence) ==> start <= c.start < c.end <= start + |Yield(t)|
    decreases t, 1
  {
    if IsLeaf(t) {
      TupledLeafYield(t);
    } else {
      SpansKidsWithin(t.kids, start, sentence);
    }
  }

  lemma {:induction false} SpansKidsWithin(kids: seq<Tree>, start: nat, sentence: Option<seq<string>>)
    requires forall i :: 0 <= i < |kids| ==> Tupled(kids[i])
    ensures forall c :: c in SpansKids(kids, start, sentence) ==> start <= c.start < c.end <= start + |YieldKids(kids)|
    decreases kids, 0
  {
    if kids != [] {
      var init := kids[..|kids| - 1];
      SpansKidsWithin(init, start, sentence);
      SpansWithin(kids[|kids| - 1], start + |YieldKids(init)|, sentence);
    }
  }

  lemma SpansKidsSnoc(kids: seq<Tree>, i: nat, start: nat, sentence: Option<seq<string>>)
    requires i < |kids| && forall j :: 0 <= j < |kids| ==> Tupled(kids[j])
    ensures SpansKids(kids[..i + 1], start, sentence)
      == SpansKids(kids[..i], start, sentence) + Spans(kids[i], start + |YieldKids(kids[..i])|, sentence)
    ensures YieldKids(kids[..i + 1]) == YieldKids(kids[..i]) + Yield(kids[i])
  {
    assert kids[..i + 1][..i] == kids[..i];
  }

  /** Child `i` extends the positions and the constituents collected before it. */
  lemma ExtractKidStep(kids: seq<Tree>, i: nat, start: nat, acc: seq<Constituent>, sentence: Option<seq<string>>)
    requires i < |kids| && forall j :: 0 <= j < |kids| ==> Tupled(kids[j])
    ensures start + |YieldKids(kids[..i + 1])| == start + |YieldKids(kids[..i])| + |Yield(kids[i])|
    ensures acc + SpansKids(kids[..i + 1], start, sentence)
      == (acc + SpansKids(kids[..i], start, sentence)) + Spans(kids[i], start + |YieldKids(kids[..i])|, sentence)
  {
    SpansKidsSnoc(kids, i, start, sentence);
  }

  class ParseTreeConverter {
    var auxiliaryPrefixes: set<string>
    var auxiliaryNts: set<string>
    var originalGrammar: Option<Grammars.Grammar>
    var originalNonTerminals: set<string>

    constructor()
      ensures auxiliaryPrefixes == {"Y", "T", "S0"} && auxiliaryNts == {}
      ensures originalGrammar == None && originalNonTerminals == {}
    {
      auxiliaryPrefixes := {"Y", "T", "S0"};
      auxiliaryNts := {};
      originalGrammar := None;
      originalNonTerminals := {};
    }

    function Config(): AuxConfig
      reads this
    {
      AuxConfig(auxiliaryPrefixes, auxiliaryNts, originalNonTerminals)
    }

    method SetAuxiliaryPrefixes(prefixes: seq<string>)
      modifies this`auxiliaryPrefixes
      ensures auxiliaryPrefixes == set p | p in prefixes
    {
      auxiliaryPrefixes := set p | p in prefixes;
    }

    /** Records the original grammar; its keys are the labels that are not auxiliary. */
    method LoadOriginalGrammar(grammar: Grammars.Grammar)
      modifies this`originalGrammar, this`originalNonTerminals
      ensures originalGrammar == Some(grammar) && originalNonTerminals == grammar.m.Keys
    {
      originalGrammar := Some(grammar);
      originalNonTerminals := grammar.m.Keys;
    }

    method SetAuxiliaryNts(nts: set<string>)
      modifies this`auxiliaryNts
      ensures auxiliaryNts == nts
    {
      auxiliaryNts := nts;
    }

    /** `convert`: nothing in, nothing out. */
    method Convert(tree: Option<Tree>) returns (r: Option<Tree>)
      requires tree.Some? ==> Tupled(tree.value)
      ensures tree.None? ==> r.None?
      ensures tree.Some? ==> r == Some(Debinarize(Config(), tree.value))
    {
      if tree.None? {
        return None;
      }
      var t := ConvertNode(tree.value);
      return Some(t);
    }

    /** `_convert_node`: converts the children first, then splices out the auxiliary ones. */
    method ConvertNode(node: Tree) returns (r: Tree)
      requires Tupled(node)
      ensures r == Debinarize(Config(), node)
      decreases node
    {
      if IsLeaf(node) {
        return node;
      }
      var children := node.kids;
      var convertedChildren: seq<Tree> := [];
      var i := 0;
      while i < |children|
        invariant 0 <= i <= |children|
        invariant convertedChildren == DebinarizeKids(Config(), children[..i])
      {
        var child := children[i];
        var convertedChild := ConvertNode(child);
        assert children[..i + 1][..i] == children[..i];
        if convertedChild.Node? && |convertedChild.kids| > 0 {
          if IsAuxiliary(Config(), convertedChild.nt) {
            convertedChildren := convertedChildren + convertedChild.kids;
          } else {
            convertedChildren := convertedChildren + [convertedChild];
          }
        } else {
          convertedChildren := convertedChildren + [convertedChild];
        }
        i := i + 1;
      }
      assert children[..i] == children;
      return Node(node.nt, convertedChildren);
    }

    /** `count_nodes`: accumulates the children's counts into the node's own. */
    method CountNodes(tree: Option<Tree>) returns (counts: Counts)
      requires tree.Some? ==> Tupled(tree.value)
      ensures tree.None? ==> counts == Counts(0, 0, 0)
      ensures tree.Some? ==> counts.total == counts.internal + counts.leaf
      ensures tree.Some? ==> counts.leaf == |Yield(tree.value)| && counts.internal == Internal(tree.value)
    {
      if tree.None? {
        return Counts(0, 0, 0);
      }
      counts := CountNode(tree.value);
    }

    static method CountNode(t: Tree) returns (counts: Counts)
      requires Tupled(t)
      ensures counts.total == counts.internal + counts.leaf
      ensures counts.leaf == |Yield(t)| && counts.internal == Internal(t)
      decreases t
    {
      if IsLeaf(t) {
        TupledLeafYield(t);
        return Counts(1, 0, 1);
      }
      counts := Counts(1, 1, 0);
      var i := 0;
      while i < |t.kids|
        invariant 0 <= i <= |t.kids|
        invariant counts.total == counts.internal + counts.leaf
        invariant counts.leaf == |YieldKids(t.kids[..i])| && counts.internal == 1 + InternalKids(t.kids[..i])
      {
        var childCounts := CountNode(t.kids[i]);
        assert t.kids[..i + 1][..i] == t.kids[..i];
        counts := Counts(counts.total + childCounts.total, counts.internal + childCounts.internal,
                         counts.leaf + childCounts.leaf);
        i := i + 1;
      }
      assert t.kids[..i] == t.kids;
    }

    /** `extract_constituents`: every node's span and text, children before parents. */
    method ExtractConstituents(tree: Tree, sentence: Option<seq<string>>) returns (constituents: seq<Constituent>)
      requires Tupled(tree)
      ensures constituents == Spans(tree, 0, sentence)
    {
      var end;
      end, constituents := ExtractHelper(tree, 0, [], sentence);
    }

    /** `_extract_constituents_helper`: appends the spans of `node` and returns where it ends. */
    static method ExtractHelper(node: Tree, start: nat, acc: seq<Constituent>, sentence: Option<seq<string>>)
      returns (end: nat, constituents: seq<Constituent>)
      requires Tupled(node)
      ensures end == start + |Yield(node)|
      ensures constituents == acc + Spans(node, start, sentence)
      decreases node, 1
    {
      if IsLeaf(node) {
        TupledLeafYield(node);
        end := start + 1;
        constituents := acc + [Constituent(node.nt, start, end, SpanText(node, start, end, sentence))];
        return;
      }
      var currentPos;
      currentPos, constituents := ExtractKids(node.kids, start, acc, sentence);
      ghost var own := Constituent(node.nt, start, currentPos, SpanText(node, start, currentPos, sentence));
      assert Spans(node, start, sentence) == SpansKids(node.kids, start, sentence) + [own];
      assert constituents + [own] == acc + Spans(node, start, sentence);
      end := currentPos;
      constituents := constituents + [Constituent(node.nt, start, currentPos, SpanText(node, start, currentPos, sentence))];
    }

    /** The loop over a node's children (lines 247-252): each child starts where the previous one ended. */
    static method ExtractKids(kids: seq<Tree>, start: nat, acc: seq<Constituent>, sentence: Option<seq<string>>)
      returns (end: nat, constituents: seq<Constituent>)
      requires forall i :: 0 <= i < |kids| ==> Tupled(kids[i])
      ensures end == start + |YieldKids(kids)|
      ensures constituents == acc + SpansKids(kids, start, sentence)
      decreases kids, 1
    {
      var currentPos := start;
      constituents := acc;
      var i := 0;
      while i < |kids|
        invariant 0 <= i <= |kids|
        invariant currentPos == start + |YieldKids(kids[..i])|
        invariant constituents == acc + SpansKids(kids[..i], start, sentence)
      {
        ExtractKidStep(kids, i, start, acc, sentence);
        currentPos, constituents := ExtractHelper(kids[i], currentPos, constituents, sentence);
        i := i + 1;
      }
      assert kids[..i] == kids;
      end := currentPos;
    }
  }

  /** `format_tree_bracket` */
  function FormatTreeBracket(tree: Option<Tree>): (s: string)
    ensures tree.None? ==> s == ""
    ensures tree.Some? && tree.value.Node? ==> |s| > 0 && s[0] == '('
    ensures tree.Some? && tree.value.Tok? ==> s == tree.value.text
  {
    match tree
    case None => ""
    case Some(t) => Bracket(t)
  }

  function Bracket(t: Tree): (s: string)
    ensures t.Node? ==> |s| > 0 && s[0] == '('
    decreases t, 1
  {
    match t
    case Tok(w) => w
    case Node(nt, kids) =>
      if IsLeaf(t) then "(" + nt + " " + kids[0].text + ")"
      else "(" + nt + " " + Join(" ", BracketKids(kids)) + ")"
  }

  function BracketKids(kids: seq<Tree>): (r: seq<string>)
    ensures |r| == |kids|
    decreases kids, 0
  {
    if kids == [] then [] else BracketKids(kids[..|kids| - 1]) + [Bracket(kids[|kids| - 1])]
  }

  /** `get_tree_depth`: a preterminal has depth one. */
  function Depth(t: Tree): (d: nat)
    requires Tupled(t)
    ensures d >= 1
    ensures !IsLeaf(t) ==> d >= 2
    decreases t, 1
  {
    if IsLeaf(t) then 1 else 1 + MaxDepth(t.kids)
  }

  function MaxDepth(kids: seq<Tree>): (d: nat)
    requires forall i :: 0 <= i < |kids| ==> Tupled(kids[i])
    ensures kids != [] ==> d >= 1
    ensures forall i :: 0 <= i < |kids| ==> Depth(kids[i]) <= d
    decreases kids, 0
  {
    if kids == [] then 0
    else
      var a, b := MaxDepth(kids[..|kids| - 1]), Depth(kids[|kids| - 1]);
      assert forall i :: 0 <= i < |kids| - 1 ==> kids[i] == kids[..|kids| - 1][i];
      if a < b then b else a
  }

  /** `get_tree_depth`, which gives no tree depth zero. */
  function GetTreeDepth(tree: Option<Tree>): (d: nat)
    requires tree.Some? ==> Tupled(tree.value)
    ensures tree.None? <==> d == 0
    ensures tree.Some? && !IsLeaf(tree.value) ==> d >= 2
  {
    match tree
    case None => 0
    case Some(t) => Depth(t)
  }
}
