// PARSEVAL helpers: the bracket-notation reader and printer for gold trees, the two constituent
// extractors (parser trees and gold trees) and the set comparison behind the scores.
module Parseval {
  import opened Wrappers
  import opened Text
  import opened Trees

  // ---------------------------------------------------------------------------------------------
  // Tokenizing bracket notation

  /** What the two `str.replace` calls turn one character into. The first call only introduces
      spaces and "(", so the second one sees exactly the ")" of the input. */
  function SpaceChar(c: char): string {
    if c == '(' then " ( " else if c == ')' then " ) " else [c]
  }

  /** `s.replace('(', ' ( ').replace(')', ' ) ')` */
  function Spaced(s: string): (r: string)
    ensures |r| >= |s|
  {
    if s == [] then [] else Spaced(s[..|s| - 1]) + SpaceChar(s[|s| - 1])
  }

  lemma {:induction false} SpacedAppend(a: string, b: string)
    ensures Spaced(a + b) == Spaced(a) + Spaced(b)
    decreases |b|
  {
    if b == [] {
      assert a + b == a;
    } else {
      assert (a + b)[..|a + b| - 1] == a + b[..|b| - 1];
      assert (a + b)[|a + b| - 1] == b[|b| - 1];
      SpacedAppend(a, b[..|b| - 1]);
    }
  }

  /** A word with no parenthesis and no whitespace. */
  predicate PlainWord(w: string) {
    w != [] && forall i :: 0 <= i < |w| ==> w[i] != '(' && w[i] != ')' && !IsSpace(w[i])
  }

  lemma {:induction false} SpacedPlain(w: string)
    requires forall i :: 0 <= i < |w| ==> w[i] != '(' && w[i] != ')'
    ensures Spaced(w) == w
    decreases |w|
  {
    if w != [] {
      SpacedPlain(w[..|w| - 1]);
    }
  }

  /** `[t for t in tokens if t]` */
  function NonEmptyTokens(tokens: seq<string>): (r: seq<string>)
    ensures forall i :: 0 <= i < |r| ==> r[i] != []
    ensures (forall i :: 0 <= i < |tokens| ==> tokens[i] != []) ==> r == tokens
  {
    if tokens == [] then []
    else if tokens[0] == [] then NonEmptyTokens(tokens[1..])
    else [tokens[0]] + NonEmptyTokens(tokens[1..])
  }

  /** The token list `parse_gold_tree` reads. */
  function Tokenize(s: string): seq<string> {
    NonEmptyTokens(SplitWs(Spaced(s)))
  }

  // ---------------------------------------------------------------------------------------------
  // Reading bracket notation

  /** `IndexError` from reading past the last token, or the `ValueError` for a missing "(". */
  datatype ParseError = IndexOutOfRange | ExpectedOpen(at: nat)

  /** `parse_node` started with the cursor at `idx`: the node and where the cursor ends. */
  function ParseNodeF(tokens: seq<string>, idx: nat): (r: Result<(Tree, nat), ParseError>)
    requires idx <= |tokens|
    ensures r.Success? ==>
      idx + 2 < r.value.1 <= |tokens| && tokens[idx] == "(" && tokens[r.value.1 - 1] == ")"
      && r.value.0.Node? && r.value.0.nt == tokens[idx + 1]
    ensures idx < |tokens| && tokens[idx] != "(" ==> r == Failure(ExpectedOpen(idx))
    decreases |tokens| - idx, 1
  {
    if idx >= |tokens| then Failure(IndexOutOfRange)
    else if tokens[idx] != "(" then Failure(ExpectedOpen(idx))
    else if idx + 1 >= |tokens| then Failure(IndexOutOfRange)
    else
      match ParseChildrenF(tokens, idx + 2, [])
      case Failure(e) => Failure(e)
      case Success((kids, j)) => Success((Node(tokens[idx + 1], kids), j))
  }

  /** The `while tokens[idx] != ')'` loop of `parse_node`, with the children read so far. */
  function ParseChildrenF(tokens: seq<string>, idx: nat, acc: seq<Tree>): (r: Result<(seq<Tree>, nat), ParseError>)
    requires idx <= |tokens|
    ensures r.Success? ==>
      idx < r.value.1 <= |tokens| && tokens[r.value.1 - 1] == ")"
    decreases |tokens| - idx, 2
  {
    if idx >= |tokens| then Failure(IndexOutOfRange)
    else if tokens[idx] == ")" then Success((acc, idx + 1))
    else if tokens[idx] == "(" then
      match ParseNodeF(tokens, idx)
      case Failure(e) => Failure(e)
      case Success((child, j)) =>
        ParseChildrenF(tokens, j, acc + [child])
    else
      ParseChildrenF(tokens, idx + 1, acc + [Tok(tokens[idx])])
  }

  /** `parse_gold_tree`: tokens after the first complete node are ignored. */
  function ParseGoldTreeF(treeStr: string): Result<Tree, ParseError> {
    match ParseNodeF(Tokenize(treeStr), 0)
    case Failure(e) => Failure(e)
    case Success((t, _)) => Success(t)
  }

  /** `parse_gold_tree`, with the `nonlocal idx` cursor threaded through `ParseNode`. */
  method ParseGoldTree(treeStr: string) returns (r: Result<Tree, ParseError>)
    ensures r == ParseGoldTreeF(treeStr)
  {
    var tokens := Tokenize(treeStr);
    var node := ParseNode(tokens, 0);
    if node.Failure? {
      return Failure(node.error);
    }
    return Success(node.value.0);
  }

  /** `parse_node`: `idx` is the cursor on entry; the result carries the cursor on exit. */
  method ParseNode(tokens: seq<string>, idx: nat) returns (r: Result<(Tree, nat), ParseError>)
    requires idx <= |tokens|
    ensures r == ParseNodeF(tokens, idx)
    decreases |tokens| - idx
  {
    if idx >= |tokens| {
      return Failure(IndexOutOfRange);
    }
    if tokens[idx] != "(" {
      return Failure(ExpectedOpen(idx));
    }
    var i := idx + 1;
    if i >= |tokens| {
      return Failure(IndexOutOfRange);
    }
    var nt := tokens[i];
    i := i + 1;
    var children: seq<Tree> := [];
    while true
      invariant idx + 2 <= i <= |tokens|
      invariant ParseChildrenF(tokens, i, children) == ParseChildrenF(tokens, idx + 2, [])
      decreases |tokens| - i
    {
      if i >= |tokens| {
        return Failure(IndexOutOfRange);
      }
      if tokens[i] == ")" {
        break;
      }
      if tokens[i] == "(" {
        var child := ParseNode(tokens, i);
        if child.Failure? {
          return Failure(child.error);
        }
        children := children + [child.value.0];
        i := child.value.1;
      } else {
        children := children + [Tok(tokens[i])];
        i := i + 1;
      }
    }
    return Success((Node(nt, children), i + 1));
  }

  // ---------------------------------------------------------------------------------------------
  // Printing bracket notation

  /** `tuple_to_bracket`: a bare string verbatim, a node as "(" and its label, " child" per child, ")". */
  function TupleToBracket(t: Tree): (s: string)
    ensures t.Node? ==> |s| >= 2 && s[0] == '(' && s[|s| - 1] == ')'
    decreases t, 1
  {
    match t
    case Tok(w) => w
    case Node(nt, kids) => "(" + nt + ChildParts(kids) + ")"
  }

  /** The parts appended for the children, concatenated. */
  function ChildParts(kids: seq<Tree>): (s: string)
    ensures s == [] <==> kids == []
    ensures s != [] ==> s[0] == ' '
    decreases kids, 0
  {
    if kids == [] then "" else " " + TupleToBracket(kids[0]) + ChildParts(kids[1..])
  }

  /** Trees whose labels and words are plain words. */
  predicate PlainTree(t: Tree)
    decreases t
  {
    match t
    case Tok(w) => PlainWord(w)
    case Node(nt, kids) => PlainWord(nt) && forall i :: 0 <= i < |kids| ==> PlainTree(kids[i])
  }

  /** The token list a printed tree reads back as. */
  function TokensOf(t: Tree): seq<string>
    decreases t, 1
  {
    match t
    case Tok(w) => [w]
    case Node(nt, kids) => ["(", nt] + TokensOfKids(kids) + [")"]
  }

  function TokensOfKids(kids: seq<Tree>): seq<string>
    decreases kids, 0
  {
    if kids == [] then [] else TokensOf(kids[0]) + TokensOfKids(kids[1..])
  }

  lemma SplitWsPadded(c: char)
    requires !IsSpace(c)
    ensures SplitWs([' ', c, ' ']) == [[c]]
  {
    assert [' ', c, ' '] == " " + ([c] + " ");
    SplitWsSpaceCons([c] + " ");
    SplitWsAppend([c], " ");
    SplitWsWord([c]);
    SplitWsSpace();
  }

  lemma SplitWsSpace()
    ensures SplitWs(" ") == []
  {
    assert " "[1..] == [];
  }

  lemma SpacedSpace()
    ensures Spaced(" ") == " " && Spaced("(") == " ( " && Spaced(")") == " ) "
  {
    assert " "[..0] == [] && "("[..0] == [] && ")"[..0] == [];
  }

  /** Spacing out a printed child list leaves it empty or starting with a space. */
  lemma SpacedChildParts(kids: seq<Tree>)
    ensures Spaced(ChildParts(kids)) == [] || Spaced(ChildParts(kids))[0] == ' '
  {
    if kids != [] {
      var rest := TupleToBracket(kids[0]) + ChildParts(kids[1..]);
      assert ChildParts(kids) == " " + rest;
      SpacedAppend(" ", rest);
      SpacedSpace();
    }
  }

  /** Spacing out a printed node: the parentheses get spaces around them. */
  lemma SpacedNode(nt: string, c: string)
    requires PlainWord(nt)
    ensures Spaced("(" + nt + c + ")") == " ( " + (nt + (Spaced(c) + " ) "))
  {
    calc {
      Spaced("(" + nt + c + ")");
      { assert "(" + nt + c + ")" == "(" + (nt + (c + ")")); }
      Spaced("(" + (nt + (c + ")")));
      { SpacedAppend("(", nt + (c + ")")); }
      Spaced("(") + Spaced(nt + (c + ")"));
      { SpacedAppend(nt, c + ")"); SpacedPlain(nt); }
      Spaced("(") + (nt + Spaced(c + ")"));
      { SpacedAppend(c, ")"); }
      Spaced("(") + (nt + (Spaced(c) + Spaced(")")));
      { SpacedSpace(); }
      " ( " + (nt + (Spaced(c) + " ) "));
    }
  }

  lemma SplitWsAppend4(a: string, b: string, c: string, d: string)
    requires SeamIsSpace(c, d) && SeamIsSpace(b, c + d) && SeamIsSpace(a, b + (c + d))
    ensures SplitWs(a + (b + (c + d))) == SplitWs(a) + (SplitWs(b) + (SplitWs(c) + SplitWs(d)))
  {
    SplitWsAppend(c, d);
    SplitWsAppend(b, c + d);
    SplitWsAppend(a, b + (c + d));
  }

  /** Splitting a spaced-out node gives "(", the label, the children's tokens and ")". */
  lemma SplitWsNode(nt: string, sc: string)
    requires PlainWord(nt) && (sc == [] || sc[0] == ' ')
    ensures SplitWs(" ( " + (nt + (sc + " ) "))) == ["(", nt] + SplitWs(sc) + [")"]
  {
    var o, d := [' ', '(', ' '], [' ', ')', ' '];
    assert (sc + d)[0] == ' ' by {
      if sc != [] { assert (sc + d)[0] == sc[0]; }
    }
    calc {
      SplitWs(" ( " + (nt + (sc + " ) ")));
      { assert " ( " == o && " ) " == d; }
      SplitWs(o + (nt + (sc + d)));
      { SplitWsAppend4(o, nt, sc, d); }
      SplitWs(o) + (SplitWs(nt) + (SplitWs(sc) + SplitWs(d)));
      { SplitWsPadded('('); SplitWsPadded(')'); SplitWsWord(nt); }
      ["("] + ([nt] + (SplitWs(sc) + [")"]));
      ["(", nt] + SplitWs(sc) + [")"];
    }
  }

  /** Spacing out and splitting one printed child and the children after it. */
  lemma SplitWsKid(b: string, c: string)
    requires Spaced(c) == [] || Spaced(c)[0] == ' '
    ensures SplitWs(Spaced(" " + b + c)) == SplitWs(Spaced(b)) + SplitWs(Spaced(c))
  {
    assert " " + b + c == " " + (b + c);
    SpacedAppend(b, c);
    SpacedAppend(" ", b + c);
    SpacedSpace();
    SplitWsAppend(Spaced(b), Spaced(c));
    SplitWsSpaceCons(Spaced(b) + Spaced(c));
  }

  /** Tokenizing a printed plain tree gives its token list. */
  lemma {:induction false} BracketTokens(t: Tree)
    requires PlainTree(t)
    ensures SplitWs(Spaced(TupleToBracket(t))) == TokensOf(t)
    decreases t, 1
  {
    match t
    case Tok(w) =>
      SpacedPlain(w);
      SplitWsWord(w);
    case Node(nt, kids) =>
      SpacedNode(nt, ChildParts(kids));
      SpacedChildParts(kids);
      SplitWsNode(nt, Spaced(ChildParts(kids)));
      KidsTokens(kids);
  }

  lemma {:induction false} KidsTokens(kids: seq<Tree>)
    requires forall i :: 0 <= i < |kids| ==> PlainTree(kids[i])
    ensures SplitWs(Spaced(ChildParts(kids))) == TokensOfKids(kids)
    decreases kids, 0
  {
    if kids == [] {
      assert Spaced([]) == [];
    } else {
      SpacedChildParts(kids[1..]);
      SplitWsKid(TupleToBracket(kids[0]), ChildParts(kids[1..]));
      BracketTokens(kids[0]);
      KidsTokens(kids[1..]);
    }
  }

  /** No word of a whitespace split is empty, so the filter in `parse_gold_tree` keeps them all. */
  lemma {:induction false} SplitWsNonEmpty(s: string)
    ensures forall i :: 0 <= i < |SplitWs(s)| ==> SplitWs(s)[i] != []
    decreases |s|
  {
    if s != [] {
      if IsSpace(s[0]) {
        SplitWsNonEmpty(s[1..]);
      } else {
        SplitWsNonEmpty(s[|FirstWord(s)|..]);
      }
    }
  }

  /** `s` occurs in `tokens` at position `p`. */
  predicate At(tokens: seq<string>, p: nat, s: seq<string>) {
    p + |s| <= |tokens| && forall i :: 0 <= i < |s| ==> tokens[p + i] == s[i]
  }

  lemma AtSplit(tokens: seq<string>, p: nat, a: seq<string>, b: seq<string>)
    requires At(tokens, p, a + b)
    ensures At(tokens, p, a) && At(tokens, p + |a|, b)
  {
    forall i | 0 <= i < |a| ensures tokens[p + i] == a[i] {
      assert (a + b)[i] == a[i];
    }
    forall i | 0 <= i < |b| ensures tokens[p + |a| + i] == b[i] {
      assert (a + b)[|a| + i] == b[i];
    }
  }

  /** Reading a plain node from its own token list consumes exactly those tokens. */
  lemma {:induction false} ParseNodeOf(t: Tree, tokens: seq<string>, p: nat)
    requires t.Node? && PlainTree(t) && At(tokens, p, TokensOf(t))
    ensures ParseNodeF(tokens, p) == Success((t, p + |TokensOf(t)|))
    decreases t, 1
  {
    var tk := TokensOfKids(t.kids);
    assert TokensOf(t) == ["(", t.nt] + (tk + [")"]);
    AtSplit(tokens, p, ["(", t.nt], tk + [")"]);
    assert tokens[p + 0] == ["(", t.nt][0] && tokens[p + 1] == ["(", t.nt][1];
    assert forall i :: 0 <= i < |t.kids| ==> PlainTree(t.kids[i]);
    ParseKidsOf(t.kids, tokens, p + 2, []);
    assert [] + t.kids == t.kids;
    assert ParseChildrenF(tokens, p + 2, []) == Success((t.kids, p + |TokensOf(t)|));
    assert Node(tokens[p + 1], t.kids) == t;
  }

  lemma {:induction false} ParseKidsOf(kids: seq<Tree>, tokens: seq<string>, p: nat, acc: seq<Tree>)
    requires forall i :: 0 <= i < |kids| ==> PlainTree(kids[i])
    requires At(tokens, p, TokensOfKids(kids) + [")"])
    ensures ParseChildrenF(tokens, p, acc) == Success((acc + kids, p + |TokensOfKids(kids)| + 1))
    decreases kids, 2
  {
    if kids == [] {
      assert TokensOfKids(kids) + [")"] == [")"];
      ParseNoKids(tokens, p, acc);
      assert acc + kids == acc;
    } else {
      ParseSomeKids(kids, tokens, p, acc);
    }
  }

  /** The children loop stops at a ")". */
  lemma ParseNoKids(tokens: seq<string>, p: nat, acc: seq<Tree>)
    requires At(tokens, p, [")"])
    ensures ParseChildrenF(tokens, p, acc) == Success((acc, p + 1))
  {
    assert tokens[p + 0] == [")"][0];
  }

  lemma {:induction false} ParseSomeKids(kids: seq<Tree>, tokens: seq<string>, p: nat, acc: seq<Tree>)
    requires kids != [] && forall i :: 0 <= i < |kids| ==> PlainTree(kids[i])
    requires At(tokens, p, TokensOfKids(kids) + [")"])
    ensures ParseChildrenF(tokens, p, acc) == Success((acc + kids, p + |TokensOfKids(kids)| + 1))
    decreases kids, 1
  {
    var n := |TokensOf(kids[0])|;
    var m := |TokensOfKids(kids[1..])|;
    ParseFirstKid(kids, tokens, p, acc);
    ParseKidsOf(kids[1..], tokens, p + n, acc + [kids[0]]);
    assert kids == [kids[0]] + kids[1..];
    assert (acc + [kids[0]]) + kids[1..] == acc + kids;
    assert ((acc + [kids[0]]) + kids[1..], p + n + m + 1) == (acc + kids, p + |TokensOfKids(kids)| + 1);
  }

  /** Reading the first of the remaining children brings the cursor to the next one. */
  lemma ParseFirstKid(kids: seq<Tree>, tokens: seq<string>, p: nat, acc: seq<Tree>)
    requires kids != [] && forall i :: 0 <= i < |kids| ==> PlainTree(kids[i])
    requires At(tokens, p, TokensOfKids(kids) + [")"])
    ensures |TokensOfKids(kids)| == |TokensOf(kids[0])| + |TokensOfKids(kids[1..])|
    ensures forall i :: 0 <= i < |kids[1..]| ==> PlainTree(kids[1..][i])
    ensures At(tokens, p + |TokensOf(kids[0])|, TokensOfKids(kids[1..]) + [")"])
    ensures ParseChildrenF(tokens, p, acc) == ParseChildrenF(tokens, p + |TokensOf(kids[0])|, acc + [kids[0]])
    decreases kids, 0
  {
    AtKids(kids, tokens, p);
    PlainTail(kids);
    ParseKidOf(kids[0], tokens, p, acc);
  }

  lemma PlainTail(kids: seq<Tree>)
    requires kids != [] && forall i :: 0 <= i < |kids| ==> PlainTree(kids[i])
    ensures PlainTree(kids[0]) && forall i :: 0 <= i < |kids[1..]| ==> PlainTree(kids[1..][i])
  {
    forall i | 0 <= i < |kids[1..]| ensures PlainTree(kids[1..][i]) {
      assert kids[1..][i] == kids[i + 1];
    }
  }

  lemma AtKids(kids: seq<Tree>, tokens: seq<string>, p: nat)
    requires kids != [] && At(tokens, p, TokensOfKids(kids) + [")"])
    ensures At(tokens, p, TokensOf(kids[0])) && p + |TokensOf(kids[0])| < |tokens|
    ensures At(tokens, p + |TokensOf(kids[0])|, TokensOfKids(kids[1..]) + [")"])
  {
    var rest := TokensOfKids(kids[1..]);
    assert TokensOfKids(kids) + [")"] == TokensOf(kids[0]) + (rest + [")"]);
    AtSplit(tokens, p, TokensOf(kids[0]), rest + [")"]);
  }

  /** One step of the children loop over a plain child. */
  lemma {:induction false} ParseKidOf(k: Tree, tokens: seq<string>, p: nat, acc: seq<Tree>)
    requires PlainTree(k) && At(tokens, p, TokensOf(k)) && p + |TokensOf(k)| < |tokens|
    ensures ParseChildrenF(tokens, p, acc) == ParseChildrenF(tokens, p + |TokensOf(k)|, acc + [k])
    decreases k, 2
  {
    assert tokens[p + 0] == TokensOf(k)[0];
    match k
    case Tok(w) =>
      assert w != "(" && w != ")" by {
        assert w[0] != '(' && w[0] != ')';
      }
    case Node(_, _) =>
      ParseNodeOf(k, tokens, p);
  }

  /** Printing a plain tree and reading it back gives the tree again. */
  lemma RoundTrip(t: Tree)
    requires t.Node? && PlainTree(t)
    ensures ParseGoldTreeF(TupleToBracket(t)) == Success(t)
  {
    BracketTokens(t);
    SplitWsNonEmpty(Spaced(TupleToBracket(t)));
    var tokens := Tokenize(TupleToBracket(t));
    assert tokens == TokensOf(t);
    assert tokens[0..|tokens|] == tokens;
    ParseNodeOf(t, tokens, 0);
  }

  // ---------------------------------------------------------------------------------------------
  // Constituents

  datatype Constituent = Constituent(nt: string, start: nat, end: nat)

  /** The punctuation labels both extractors skip. */
  const Punctuation: set<string> := {".", ",", ":", "''", "``", "-LRB-", "-RRB-"}

  /** The Penn Treebank word tags. */
  const WordTags: set<string> := {
    "CC", "CD", "DT", "EX", "FW", "IN", "JJ", "JJR", "JJS", "LS", "MD", "NN", "NNS", "NNP", "NNPS",
    "PDT", "POS", "PRP", "PRP$", "RB", "RBR", "RBS", "RP", "SYM", "TO", "UH", "VB", "VBD", "VBG",
    "VBN", "VBP", "VBZ", "WDT", "WP", "WP$", "WRB"}

  /** `POS_TAGS`: the Penn Treebank word tags and the punctuation labels. */
  const PosTags: set<string> := WordTags + Punctuation

  /** Labels `extract_constituents_from_tuple` records no constituent for. */
  predicate SystemSkips(nt: string) {
    nt in PosTags || nt in Punctuation
  }

  function NormalizeLabel(nt: string): string {
    if nt == "S0" then "S" else nt
  }

  /** `traverse` in `extract_constituents_from_tuple`: the constituents below and at `t` and the
      position after it. */
  function SystemSpans(t: Tree, pos: nat): (r: (set<Constituent>, nat))
    ensures r.1 == pos + |Yield(t)|
    decreases t, 1
  {
    match t
    case Tok(_) => ({}, pos + 1)
    case Node(nt, kids) =>
      var (cs, end) := SystemKids(kids, pos);
      (if SystemSkips(nt) then cs else cs + {Constituent(NormalizeLabel(nt), pos, end)}, end)
  }

  function SystemKids(kids: seq<Tree>, pos: nat): (r: (set<Constituent>, nat))
    ensures r.1 == pos + |YieldKids(kids)|
    decreases kids, 0
  {
    if kids == [] then ({}, pos)
    else
      var (a, mid) := SystemKids(kids[..|kids| - 1], pos);
      var (b, end) := SystemSpans(kids[|kids| - 1], mid);
      (a + b, end)
  }

  /** `traverse` in `extract_constituents_from_gold`: a preterminal takes one position and adds
      nothing, and only punctuation labels are skipped. */
  function GoldSpans(t: Tree, pos: nat): (r: (set<Constituent>, nat))
    ensures r.1 == pos + |Yield(t)|
    decreases t, 1
  {
    match t
    case Tok(_) => ({}, pos + 1)
    case Node(nt, kids) =>
      if IsLeaf(t) then
        TupledLeafYield(t);
        ({}, pos + 1)
      else
        var (cs, end) := GoldKids(kids, pos);
        (if nt in Punctuation then cs else cs + {Constituent(nt, pos, end)}, end)
  }

  function GoldKids(kids: seq<Tree>, pos: nat): (r: (set<Constituent>, nat))
    ensures r.1 == pos + |YieldKids(kids)|
    decreases kids, 0
  {
    if kids == [] then ({}, pos)
    else
      var (a, mid) := GoldKids(kids[..|kids| - 1], pos);
      var (b, end) := GoldSpans(kids[|kids| - 1], mid);
      (a + b, end)
  }

  /** Every constituent of the system extractor lies within its tree's span, in order, with a
      nt that is neither a tag nor punctuation nor "S0". */
  predicate SystemWellFormed(cs: set<Constituent>, lo: nat, hi: nat) {
    forall c :: c in cs ==> lo <= c.start <= c.end <= hi && !SystemSkips(c.nt) && c.nt != "S0"
  }

  lemma {:induction false} SystemSpansWithin(t: Tree, pos: nat)
    ensures SystemWellFormed(SystemSpans(t, pos).0, pos, SystemSpans(t, pos).1)
    decreases t, 1
  {
    if t.Node? {
      var (cs, end) := SystemKids(t.kids, pos);
      SystemKidsWithin(t.kids, pos);
      if !SystemSkips(t.nt) {
        NormalizeKeeps(t.nt);
        assert SystemSpans(t, pos).0 == cs + {Constituent(NormalizeLabel(t.nt), pos, end)};
      }
    }
  }

  /** "S0" becomes "S", which is neither a tag nor punctuation. */
  lemma NormalizeKeeps(nt: string)
    requires !SystemSkips(nt)
    ensures !SystemSkips(NormalizeLabel(nt)) && NormalizeLabel(nt) != "S0"
  {
    if nt == "S0" {
      assert "S" !in Punctuation;
      assert "S" !in WordTags;
    }
  }

  lemma {:induction false} SystemKidsWithin(kids: seq<Tree>, pos: nat)
    ensures SystemWellFormed(SystemKids(kids, pos).0, pos, SystemKids(kids, pos).1)
    decreases kids, 0
  {
    if kids != [] {
      var mid := SystemKids(kids[..|kids| - 1], pos).1;
      SystemKidsWithin(kids[..|kids| - 1], pos);
      SystemSpansWithin(kids[|kids| - 1], mid);
    }
  }

  /** Every gold constituent lies within its tree's span and is not punctuation. */
  predicate GoldWellFormed(cs: set<Constituent>, lo: nat, hi: nat) {
    forall c :: c in cs ==> lo <= c.start <= c.end <= hi && c.nt !in Punctuation
  }

  lemma {:induction false} GoldSpansWithin(t: Tree, pos: nat)
    ensures GoldWellFormed(GoldSpans(t, pos).0, pos, GoldSpans(t, pos).1)
    decreases t, 1
  {
    if t.Node? && !IsLeaf(t) {
      GoldKidsWithin(t.kids, pos);
    }
  }

  lemma {:induction false} GoldKidsWithin(kids: seq<Tree>, pos: nat)
    ensures GoldWellFormed(GoldKids(kids, pos).0, pos, GoldKids(kids, pos).1)
    decreases kids, 0
  {
    if kids != [] {
      var mid := GoldKids(kids[..|kids| - 1], pos).1;
      GoldKidsWithin(kids[..|kids| - 1], pos);
      GoldSpansWithin(kids[|kids| - 1], mid);
    }
  }

  /** `max(c.end for c in constituents)` */
  ghost function MaxEnd(cs: set<Constituent>): (m: nat)
    requires cs != {}
    ensures exists c :: c in cs && c.end == m
    ensures forall c :: c in cs ==> c.end <= m
    decreases cs
  {
    var c :| c in cs;
    if cs - {c} == {} then
      assert cs == {c};
      c.end
    else
      var m := MaxEnd(cs - {c});
      if c.end < m then m else c.end
  }

  /** The `include_root=False` filter: everything spanning [0, max end) goes. */
  ghost function WithoutRoot(cs: set<Constituent>): set<Constituent> {
    if cs == {} then cs else set c | c in cs && !(c.start == 0 && c.end == MaxEnd(cs))
  }

  ghost function SystemConstituents(t: Tree, includeRoot: bool): set<Constituent> {
    var cs := SystemSpans(t, 0).0;
    if includeRoot then cs else WithoutRoot(cs)
  }

  ghost function GoldConstituents(t: Tree, includeRoot: bool): set<Constituent> {
    var cs := GoldSpans(t, 0).0;
    if includeRoot then cs else WithoutRoot(cs)
  }

  /** The filter after `traverse(tree, 0)` in both extractors. */
  method RemoveRoot(constituents: set<Constituent>) returns (r: set<Constituent>)
    ensures r == WithoutRoot(constituents)
  {
    if constituents == {} {
      return constituents;
    }
    var first :| first in constituents;
    var maxEnd := first.end;
    ghost var top := first;
    var todo := constituents - {first};
    while todo != {}
      invariant todo <= constituents && top in constituents && top.end == maxEnd
      invariant forall c :: c in constituents - todo ==> c.end <= maxEnd
      decreases todo
    {
      var c :| c in todo;
      if c.end > maxEnd {
        maxEnd := c.end;
        top := c;
      }
      todo := todo - {c};
    }
    assert maxEnd == MaxEnd(constituents);
    r := set c | c in constituents && !(c.start == 0 && c.end == maxEnd);
  }

  /** `extract_constituents_from_tuple` */
  method ExtractConstituentsFromTuple(tree: Tree, includeRoot: bool) returns (constituents: set<Constituent>)
    ensures constituents == SystemConstituents(tree, includeRoot)
  {
    var end;
    end, constituents := TraverseSystem(tree, 0, {});
    if !includeRoot && constituents != {} {
      constituents := RemoveRoot(constituents);
    }
  }

  /** `traverse` of `extract_constituents_from_tuple`, adding to the shared set `acc`. */
  method TraverseSystem(node: Tree, pos: nat, acc: set<Constituent>) returns (end: nat, constituents: set<Constituent>)
    ensures end == SystemSpans(node, pos).1
    ensures constituents == acc + SystemSpans(node, pos).0
    decreases node
  {
    if node.Tok? {
      return pos + 1, acc;
    }
    var start := pos;
    var p := pos;
    constituents := acc;
    var i := 0;
    while i < |node.kids|
      invariant 0 <= i <= |node.kids|
      invariant p == SystemKids(node.kids[..i], start).1
      invariant constituents == acc + SystemKids(node.kids[..i], start).0
    {
      assert node.kids[..i + 1][..i] == node.kids[..i];
      p, constituents := TraverseSystem(node.kids[i], p, constituents);
      i := i + 1;
    }
    assert node.kids[..i] == node.kids;
    end := p;
    if !SystemSkips(node.nt) {
      constituents := constituents + {Constituent(NormalizeLabel(node.nt), start, end)};
    }
  }

  /** `extract_constituents_from_gold` */
  method ExtractConstituentsFromGold(tree: Tree, includeRoot: bool) returns (constituents: set<Constituent>)
    ensures constituents == GoldConstituents(tree, includeRoot)
  {
    var end;
    end, constituents := TraverseGold(tree, 0, {});
    if !includeRoot && constituents != {} {
      constituents := RemoveRoot(constituents);
    }
  }

  /** `traverse` of `extract_constituents_from_gold`, adding to the shared set `acc`. */
  method TraverseGold(node: Tree, pos: nat, acc: set<Constituent>) returns (end: nat, constituents: set<Constituent>)
    ensures end == GoldSpans(node, pos).1
    ensures constituents == acc + GoldSpans(node, pos).0
    decreases node
  {
    if node.Tok? || IsLeaf(node) {
      return pos + 1, acc;
    }
    var start := pos;
    var p := pos;
    constituents := acc;
    var i := 0;
    while i < |node.kids|
      invariant 0 <= i <= |node.kids|
      invariant p == GoldKids(node.kids[..i], start).1
      invariant constituents == acc + GoldKids(node.kids[..i], start).0
    {
      assert node.kids[..i + 1][..i] == node.kids[..i];
      p, constituents := TraverseGold(node.kids[i], p, constituents);
      i := i + 1;
    }
    assert node.kids[..i] == node.kids;
    end := p;
    if node.nt !in Punctuation {
      constituents := constituents + {Constituent(node.nt, start, end)};
    }
  }

  /** A root the system extractor records spans the whole sentence, so dropping the root removes
      exactly the constituents spanning [0, n). */
  lemma SystemRootDropped(t: Tree)
    requires t.Node? && !SystemSkips(t.nt)
    ensures Constituent(NormalizeLabel(t.nt), 0, |Yield(t)|) in SystemConstituents(t, true)
    ensures SystemConstituents(t, false)
      == set c | c in SystemConstituents(t, true) && !(c.start == 0 && c.end == |Yield(t)|)
  {
    var cs := SystemSpans(t, 0).0;
    SystemSpansWithin(t, 0);
    assert Constituent(NormalizeLabel(t.nt), 0, |Yield(t)|) in cs;
    assert MaxEnd(cs) == |Yield(t)|;
  }

  /** The same for the gold extractor, for a root that is neither a preterminal nor punctuation. */
  lemma GoldRootDropped(t: Tree)
    requires t.Node? && !IsLeaf(t) && t.nt !in Punctuation
    ensures Constituent(t.nt, 0, |Yield(t)|) in GoldConstituents(t, true)
    ensures GoldConstituents(t, false)
      == set c | c in GoldConstituents(t, true) && !(c.start == 0 && c.end == |Yield(t)|)
  {
    var cs := GoldSpans(t, 0).0;
    GoldSpansWithin(t, 0);
    assert Constituent(t.nt, 0, |Yield(t)|) in cs;
    assert MaxEnd(cs) == |Yield(t)|;
  }

  // ---------------------------------------------------------------------------------------------
  // Scoring

  /** The set-valued and counting parts of `evaluate`'s result. */
  datatype Evaluation = Evaluation(matches: nat, gold: nat, system: nat,
                                   missing: set<Constituent>, extra: set<Constituent>)

  function Evaluate(goldConst: set<Constituent>, systemConst: set<Constituent>): (r: Evaluation)
    ensures r.matches + |r.missing| == r.gold
    ensures r.matches + |r.extra| == r.system
    ensures r.missing !! systemConst && r.missing <= goldConst
    ensures r.extra !! goldConst && r.extra <= systemConst
  {
    var matches := goldConst * systemConst;
    assert goldConst == matches + (goldConst - systemConst);
    assert systemConst == matches + (systemConst - goldConst);
    Evaluation(|matches|, |goldConst|, |systemConst|, goldConst - systemConst, systemConst - goldConst)
  }

  /** Every gold constituent is matched and nothing extra is proposed exactly when the two sets
      are equal. */
  lemma PerfectScore(goldConst: set<Constituent>, systemConst: set<Constituent>)
    ensures var r := Evaluate(goldConst, systemConst);
      (r.matches == r.gold && r.matches == r.system) <==> goldConst == systemConst
  {
    var r := Evaluate(goldConst, systemConst);
    if r.matches == r.gold && r.matches == r.system {
      assert r.missing == {} && r.extra == {};
      assert goldConst <= systemConst && systemConst <= goldConst;
    }
  }
}
