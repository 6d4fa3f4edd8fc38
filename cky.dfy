// The CKY chart parser (cky_parser.py): reverse rule indices built from a CNF grammar, a
// bottom-up chart over inclusive spans [i, j] with back-pointers, and a bounded enumeration of
// trees from the back-pointers.
module Cky {
  import opened Wrappers
  import opened Dicts
  import opened Grammars
  import opened Trees
  import CnfConversion
  import TreeConversion
  import Parseval
  import opened Text

  // ---------------------------------------------------------------------------------------------
  // Reverse indices

  /** `terminal_rules`: a terminal to the left-hand sides of its rules `A -> a`, in load order. */
  type TermIndex = map<Symbol, seq<Symbol>>
  /** `binary_rules`: a pair (B, C) to the left-hand sides of its rules `A -> B C`. */
  type BinIndex = map<(Symbol, Symbol), seq<Symbol>>

  /** `terminal_rules.get(a, [])` */
  function TermLhs(tr: TermIndex, a: Symbol): seq<Symbol> {
    if a in tr then tr[a] else []
  }

  /** `binary_rules.get((b, c), [])` */
  function BinLhs(br: BinIndex, b: Symbol, c: Symbol): seq<Symbol> {
    if (b, c) in br then br[(b, c)] else []
  }

  /** The three things `load_grammar` accumulates into. */
  datatype Tables = Tables(terminals: set<Symbol>, term: TermIndex, bin: BinIndex)

  /** One production of `nt`: a unit production indexes a terminal, a pair indexes a binary
      rule, anything longer is ignored. */
  function AddProduction(t: Tables, nt: Symbol, p: Production): Tables {
    if |p| == 1 then Tables(t.terminals + {p[0]}, t.term[p[0] := TermLhs(t.term, p[0]) + [nt]], t.bin)
    else if |p| == 2 then t.(bin := t.bin[(p[0], p[1]) := BinLhs(t.bin, p[0], p[1]) + [nt]])
    else t
  }

  function AddProductions(t: Tables, nt: Symbol, prods: seq<Production>): Tables
    decreases |prods|
  {
    if prods == [] then t
    else AddProduction(AddProductions(t, nt, prods[..|prods| - 1]), nt, prods[|prods| - 1])
  }

  /** The loop of `load_grammar` over the first `n` keys, in dictionary order. */
  function AddRules(t: Tables, g: Grammar, n: nat): Tables
    requires n <= |g.keys|
  {
    if n == 0 then t
    else AddProductions(AddRules(t, g, n - 1), g.keys[n - 1], Get(g, g.keys[n - 1], []))
  }

  /** The unit-production terminals among `prods`. */
  function UnitTerminals(prods: seq<Production>): set<Symbol> {
    set p | p in prods && |p| == 1 :: p[0]
  }

  /** The tables only grow: earlier entries keep their place and new ones go last. */
  ghost predicate Extends(t: Tables, r: Tables) {
    t.terminals <= r.terminals &&
    (forall a :: TermLhs(t.term, a) <= TermLhs(r.term, a)) &&
    (forall b, c :: BinLhs(t.bin, b, c) <= BinLhs(r.bin, b, c))
  }

  lemma ExtendsTrans(t: Tables, s: Tables, r: Tables)
    requires Extends(t, s) && Extends(s, r)
    ensures Extends(t, r)
  {
    forall a ensures TermLhs(t.term, a) <= TermLhs(r.term, a) {
      assert TermLhs(t.term, a) <= TermLhs(s.term, a);
    }
    forall b, c ensures BinLhs(t.bin, b, c) <= BinLhs(r.bin, b, c) {
      assert BinLhs(t.bin, b, c) <= BinLhs(s.bin, b, c);
    }
  }

  lemma {:induction false} AddProductionsFacts(t: Tables, nt: Symbol, prods: seq<Production>)
    ensures Extends(t, AddProductions(t, nt, prods))
    ensures forall a, x {:trigger x in TermLhs(AddProductions(t, nt, prods).term, a)} :: x in TermLhs(AddProductions(t, nt, prods).term, a) <==>
      x in TermLhs(t.term, a) || (x == nt && [a] in prods)
    ensures forall b, c, x {:trigger x in BinLhs(AddProductions(t, nt, prods).bin, b, c)} :: x in BinLhs(AddProductions(t, nt, prods).bin, b, c) <==>
      x in BinLhs(t.bin, b, c) || (x == nt && [b, c] in prods)
    ensures AddProductions(t, nt, prods).terminals == t.terminals + UnitTerminals(prods)
    decreases |prods|
  {
    if prods != [] {
      var init, p := prods[..|prods| - 1], prods[|prods| - 1];
      AddProductionsFacts(t, nt, init);
      var s := AddProductions(t, nt, init);
      var r := AddProduction(s, nt, p);
      assert AddProductions(t, nt, prods) == r;
      assert prods == init + [p];
      AddProductionFacts(s, nt, p);
      ExtendsTrans(t, s, r);
      AddProductionsStep(t, s, r, nt, init, p);
    }
  }

  /** What one production adds to the tables. */
  lemma AddProductionFacts(s: Tables, nt: Symbol, p: Production)
    ensures Extends(s, AddProduction(s, nt, p))
    ensures forall a, x {:trigger x in TermLhs(AddProduction(s, nt, p).term, a)} :: x in TermLhs(AddProduction(s, nt, p).term, a) <==>
      x in TermLhs(s.term, a) || (x == nt && p == [a])
    ensures forall b, c, x {:trigger x in BinLhs(AddProduction(s, nt, p).bin, b, c)} :: x in BinLhs(AddProduction(s, nt, p).bin, b, c) <==>
      x in BinLhs(s.bin, b, c) || (x == nt && p == [b, c])
    ensures AddProduction(s, nt, p).terminals == s.terminals + (if |p| == 1 then {p[0]} else {})
  {
    var r := AddProduction(s, nt, p);
    forall a, x ensures x in TermLhs(r.term, a) <==> x in TermLhs(s.term, a) || (x == nt && p == [a]) {
      if |p| == 1 && a == p[0] {
        assert TermLhs(r.term, a) == TermLhs(s.term, a) + [nt];
      } else {
        assert TermLhs(r.term, a) == TermLhs(s.term, a);
      }
    }
    forall b, c, x ensures x in BinLhs(r.bin, b, c) <==> x in BinLhs(s.bin, b, c) || (x == nt && p == [b, c]) {
      if |p| == 2 && b == p[0] && c == p[1] {
        assert p == [b, c];
        assert BinLhs(r.bin, b, c) == BinLhs(s.bin, b, c) + [nt];
      } else {
        assert BinLhs(r.bin, b, c) == BinLhs(s.bin, b, c);
      }
    }
  }

  /** One more production: the facts about `init` extend to `init + [p]`. */
  lemma AddProductionsStep(t: Tables, s: Tables, r: Tables, nt: Symbol, init: seq<Production>, p: Production)
    requires forall a, x {:trigger x in TermLhs(s.term, a)} :: x in TermLhs(s.term, a) <==> x in TermLhs(t.term, a) || (x == nt && [a] in init)
    requires forall b, c, x {:trigger x in BinLhs(s.bin, b, c)} :: x in BinLhs(s.bin, b, c) <==> x in BinLhs(t.bin, b, c) || (x == nt && [b, c] in init)
    requires s.terminals == t.terminals + UnitTerminals(init)
    requires forall a, x {:trigger x in TermLhs(r.term, a)} :: x in TermLhs(r.term, a) <==> x in TermLhs(s.term, a) || (x == nt && p == [a])
    requires forall b, c, x {:trigger x in BinLhs(r.bin, b, c)} :: x in BinLhs(r.bin, b, c) <==> x in BinLhs(s.bin, b, c) || (x == nt && p == [b, c])
    requires r.terminals == s.terminals + (if |p| == 1 then {p[0]} else {})
    ensures forall a, x {:trigger x in TermLhs(r.term, a)} :: x in TermLhs(r.term, a) <==> x in TermLhs(t.term, a) || (x == nt && [a] in init + [p])
    ensures forall b, c, x {:trigger x in BinLhs(r.bin, b, c)} :: x in BinLhs(r.bin, b, c) <==> x in BinLhs(t.bin, b, c) || (x == nt && [b, c] in init + [p])
    ensures r.terminals == t.terminals + UnitTerminals(init + [p])
  {
    forall a, x ensures x in TermLhs(r.term, a) <==> x in TermLhs(t.term, a) || (x == nt && [a] in init + [p]) {
      assert [a] in init + [p] <==> [a] in init || p == [a];
    }
    forall b, c, x ensures x in BinLhs(r.bin, b, c) <==> x in BinLhs(t.bin, b, c) || (x == nt && [b, c] in init + [p]) {
      assert [b, c] in init + [p] <==> [b, c] in init || p == [b, c];
    }
    assert UnitTerminals(init + [p]) == UnitTerminals(init) + (if |p| == 1 then {p[0]} else {});
  }

  /** Everything `load_grammar` indexes after `n` keys. */
  lemma {:induction false} AddRulesFacts(t: Tables, g: Grammar, n: nat)
    requires n <= |g.keys|
    ensures Extends(t, AddRules(t, g, n))
    ensures forall a, x {:trigger x in TermLhs(AddRules(t, g, n).term, a)} :: x in TermLhs(AddRules(t, g, n).term, a) <==>
      x in TermLhs(t.term, a) || (x in g.keys[..n] && [a] in Get(g, x, []))
    ensures forall b, c, x {:trigger x in BinLhs(AddRules(t, g, n).bin, b, c)} :: x in BinLhs(AddRules(t, g, n).bin, b, c) <==>
      x in BinLhs(t.bin, b, c) || (x in g.keys[..n] && [b, c] in Get(g, x, []))
    ensures AddRules(t, g, n).terminals ==
      t.terminals + set x, p | x in g.keys[..n] && p in Get(g, x, []) && |p| == 1 :: p[0]
  {
    if n > 0 {
      var k := g.keys[n - 1];
      AddRulesFacts(t, g, n - 1);
      var s := AddRules(t, g, n - 1);
      var r := AddProductions(s, k, Get(g, k, []));
      assert AddRules(t, g, n) == r;
      AddProductionsFacts(s, k, Get(g, k, []));
      ExtendsTrans(t, s, r);
      AddRulesTermStep(t, s, r, g, n);
      AddRulesBinStep(t, s, r, g, n);
      AddRulesTerminalsStep(t, s, r, g, n);
    }
  }

  lemma KeysPrefixSnoc(g: Grammar, n: nat)
    requires 0 < n <= |g.keys|
    ensures forall x :: x in g.keys[..n] <==> x in g.keys[..n - 1] || x == g.keys[n - 1]
  {
    assert g.keys[..n] == g.keys[..n - 1] + [g.keys[n - 1]];
  }

  /** One more key: the terminal index for the first `n - 1` keys extends to the first `n`. */
  lemma AddRulesTermStep(t: Tables, s: Tables, r: Tables, g: Grammar, n: nat)
    requires 0 < n <= |g.keys|
    requires forall a, x {:trigger x in TermLhs(s.term, a)} :: x in TermLhs(s.term, a) <==>
      x in TermLhs(t.term, a) || (x in g.keys[..n - 1] && [a] in Get(g, x, []))
    requires forall a, x {:trigger x in TermLhs(r.term, a)} :: x in TermLhs(r.term, a) <==>
      x in TermLhs(s.term, a) || (x == g.keys[n - 1] && [a] in Get(g, g.keys[n - 1], []))
    ensures forall a, x {:trigger x in TermLhs(r.term, a)} :: x in TermLhs(r.term, a) <==>
      x in TermLhs(t.term, a) || (x in g.keys[..n] && [a] in Get(g, x, []))
  {
    KeysPrefixSnoc(g, n);
    forall a, x ensures x in TermLhs(r.term, a) <==>
      x in TermLhs(t.term, a) || (x in g.keys[..n] && [a] in Get(g, x, []))
    {
      assert x in TermLhs(s.term, a) <==> x in TermLhs(t.term, a) || (x in g.keys[..n - 1] && [a] in Get(g, x, []));
      assert x in g.keys[..n] <==> x in g.keys[..n - 1] || x == g.keys[n - 1];
    }
  }

  /** One more key: the binary index for the first `n - 1` keys extends to the first `n`. */
  lemma AddRulesBinStep(t: Tables, s: Tables, r: Tables, g: Grammar, n: nat)
    requires 0 < n <= |g.keys|
    requires forall b, c, x {:trigger x in BinLhs(s.bin, b, c)} :: x in BinLhs(s.bin, b, c) <==>
      x in BinLhs(t.bin, b, c) || (x in g.keys[..n - 1] && [b, c] in Get(g, x, []))
    requires forall b, c, x {:trigger x in BinLhs(r.bin, b, c)} :: x in BinLhs(r.bin, b, c) <==>
      x in BinLhs(s.bin, b, c) || (x == g.keys[n - 1] && [b, c] in Get(g, g.keys[n - 1], []))
    ensures forall b, c, x {:trigger x in BinLhs(r.bin, b, c)} :: x in BinLhs(r.bin, b, c) <==>
      x in BinLhs(t.bin, b, c) || (x in g.keys[..n] && [b, c] in Get(g, x, []))
  {
    KeysPrefixSnoc(g, n);
    forall b, c, x ensures x in BinLhs(r.bin, b, c) <==>
      x in BinLhs(t.bin, b, c) || (x in g.keys[..n] && [b, c] in Get(g, x, []))
    {
      assert x in BinLhs(s.bin, b, c) <==> x in BinLhs(t.bin, b, c) || (x in g.keys[..n - 1] && [b, c] in Get(g, x, []));
      assert x in g.keys[..n] <==> x in g.keys[..n - 1] || x == g.keys[n - 1];
    }
  }

  /** One more key: the terminals of the first `n - 1` keys extend to the first `n`. */
  lemma AddRulesTerminalsStep(t: Tables, s: Tables, r: Tables, g: Grammar, n: nat)
    requires 0 < n <= |g.keys|
    requires s.terminals ==
      t.terminals + set x, p | x in g.keys[..n - 1] && p in Get(g, x, []) && |p| == 1 :: p[0]
    requires r.terminals == s.terminals + UnitTerminals(Get(g, g.keys[n - 1], []))
    ensures r.terminals ==
      t.terminals + set x, p | x in g.keys[..n] && p in Get(g, x, []) && |p| == 1 :: p[0]
  {
    KeysPrefixSnoc(g, n);
    var before := set x, p | x in g.keys[..n - 1] && p in Get(g, x, []) && |p| == 1 :: p[0];
    var after := set x, p | x in g.keys[..n] && p in Get(g, x, []) && |p| == 1 :: p[0];
    assert after == before + UnitTerminals(Get(g, g.keys[n - 1], []));
  }

  /** `load_grammar`: every unit production `A -> a` puts A under `terminal_rules[a]`, every
      pair `A -> B C` puts A under `binary_rules[(B, C)]`, longer productions are ignored, and
      what was indexed before stays. */
  lemma LoadedTables(t: Tables, g: Grammar)
    requires Valid(g)
    ensures Extends(t, AddRules(t, g, |g.keys|))
    ensures forall a, x {:trigger x in TermLhs(AddRules(t, g, |g.keys|).term, a)} :: x in TermLhs(AddRules(t, g, |g.keys|).term, a) <==>
      x in TermLhs(t.term, a) || (x in g.m && [a] in g.m[x])
    ensures forall b, c, x {:trigger x in BinLhs(AddRules(t, g, |g.keys|).bin, b, c)} :: x in BinLhs(AddRules(t, g, |g.keys|).bin, b, c) <==>
      x in BinLhs(t.bin, b, c) || (x in g.m && [b, c] in g.m[x])
    ensures AddRules(t, g, |g.keys|).terminals ==
      t.terminals + set x, p | x in g.m && p in g.m[x] && |p| == 1 :: p[0]
  {
    AddRulesFacts(t, g, |g.keys|);
    assert g.keys[..|g.keys|] == g.keys;
  }

  // ---------------------------------------------------------------------------------------------
  // What the chart holds

  /** One call of `parse`: the indices, the words and, when tags were given, the tags. */
  datatype Input = Input(term: TermIndex, bin: BinIndex, words: seq<string>, tags: Option<seq<Symbol>>)

  predicate WellTagged(inp: Input) {
    inp.tags.Some? ==> |inp.tags.value| == |inp.words|
  }

  /** `chart[i][i]`: the given tag and what derives it, or what derives the word. */
  function Diag(inp: Input, i: nat): set<Symbol>
    requires WellTagged(inp) && i < |inp.words|
  {
    if inp.tags.Some? then {inp.tags.value[i]} + set x | x in TermLhs(inp.term, inp.tags.value[i])
    else set x | x in TermLhs(inp.term, inp.words[i])
  }

  /** The left-hand sides of binary rules whose children come from `left` and `right`. */
  function PairLhs(br: BinIndex, left: set<Symbol>, right: set<Symbol>): set<Symbol> {
    set b, c, a | b in left && c in right && a in BinLhs(br, b, c) :: a
  }

  /** `chart[i][j]` once the chart is filled. */
  ghost function Cell(inp: Input, i: nat, j: nat): set<Symbol>
    requires WellTagged(inp) && i <= j < |inp.words|
    decreases j - i, 1, 0
  {
    if i == j then Diag(inp, i) else SplitsBelow(inp, i, j, j)
  }

  /** What the splits i .. k-1 of the span [i, j] contribute. */
  ghost function SplitsBelow(inp: Input, i: nat, j: nat, k: nat): set<Symbol>
    requires WellTagged(inp) && i <= k <= j < |inp.words|
    decreases j - i, 0, k - i
  {
    if k == i then {} else SplitsBelow(inp, i, j, k - 1) + PairLhs(inp.bin, Cell(inp, i, k - 1), Cell(inp, k, j))
  }

  lemma {:induction false} SplitsBelowIff(inp: Input, i: nat, j: nat, k: nat, a: Symbol)
    requires WellTagged(inp) && i <= k <= j < |inp.words|
    ensures a in SplitsBelow(inp, i, j, k) <==>
      exists m :: i <= m < k && a in PairLhs(inp.bin, Cell(inp, i, m), Cell(inp, m + 1, j))
    decreases k - i
  {
    if k > i {
      SplitsBelowIff(inp, i, j, k - 1, a);
      var last := PairLhs(inp.bin, Cell(inp, i, k - 1), Cell(inp, k, j));
      assert SplitsBelow(inp, i, j, k) == SplitsBelow(inp, i, j, k - 1) + last;
      if a in last {
        SplitWitness(inp, i, j, k, k - 1, a);
      } else if a in SplitsBelow(inp, i, j, k - 1) {
        var m :| i <= m < k - 1 && a in PairLhs(inp.bin, Cell(inp, i, m), Cell(inp, m + 1, j));
        SplitWitness(inp, i, j, k, m, a);
      } else {
        SplitNone(inp, i, j, k, a);
      }
    }
  }

  lemma SplitNone(inp: Input, i: nat, j: nat, k: nat, a: Symbol)
    requires WellTagged(inp) && i < k <= j < |inp.words|
    requires a !in PairLhs(inp.bin, Cell(inp, i, k - 1), Cell(inp, k, j))
    requires !exists m :: i <= m < k - 1 && a in PairLhs(inp.bin, Cell(inp, i, m), Cell(inp, m + 1, j))
    ensures !exists m :: i <= m < k && a in PairLhs(inp.bin, Cell(inp, i, m), Cell(inp, m + 1, j))
  {
    forall m | i <= m < k ensures a !in PairLhs(inp.bin, Cell(inp, i, m), Cell(inp, m + 1, j)) {
      if m == k - 1 {
        assert m + 1 == k;
      }
    }
  }

  lemma SplitWitness(inp: Input, i: nat, j: nat, k: nat, m: nat, a: Symbol)
    requires WellTagged(inp) && i <= m < k <= j < |inp.words|
    requires a in PairLhs(inp.bin, Cell(inp, i, m), Cell(inp, m + 1, j))
    ensures exists m' :: i <= m' < k && a in PairLhs(inp.bin, Cell(inp, i, m'), Cell(inp, m' + 1, j))
  {
  }

  /** For i < j, A is in `chart[i][j]` iff some split k and children B in `chart[i][k]` and C
      in `chart[k+1][j]` have A under `binary_rules[(B, C)]`. */
  lemma CellSplit(inp: Input, i: nat, j: nat, a: Symbol)
    requires WellTagged(inp) && i < j < |inp.words|
    ensures a in Cell(inp, i, j) <==>
      exists k, b, c :: i <= k < j && b in Cell(inp, i, k) && c in Cell(inp, k + 1, j) && a in BinLhs(inp.bin, b, c)
  {
    SplitsBelowIff(inp, i, j, j, a);
  }

  // ---------------------------------------------------------------------------------------------
  // Parse trees, independently of the chart

  /** The trees the diagonal stands for: a preterminal over the word or, with tags, the tag over
      the word, possibly under one symbol that derives the tag. */
  predicate LexTree(inp: Input, t: Tree, i: nat)
    requires WellTagged(inp) && i < |inp.words|
  {
    if inp.tags.None? then
      t.Node? && t.kids == [Tok(inp.words[i])] && t.nt in TermLhs(inp.term, inp.words[i])
    else
      var tag := inp.tags.value[i];
      t == Node(tag, [Tok(inp.words[i])]) ||
      (t.Node? && t.nt in TermLhs(inp.term, tag) && t.nt != tag && t.kids == [Node(tag, [Tok(inp.words[i])])])
  }

  /** `t` is a parse tree of the words i..j. */
  ghost predicate Derives(inp: Input, t: Tree, i: nat, j: nat)
    requires WellTagged(inp) && i <= j < |inp.words|
    decreases t, 2
  {
    t.Node? && if i == j then LexTree(inp, t, i) else DerivesPair(inp, t, i, j)
  }

  /** A binary node over a binary rule whose children derive the two halves of some split. */
  ghost predicate DerivesPair(inp: Input, t: Tree, i: nat, j: nat)
    requires WellTagged(inp) && i < j < |inp.words| && t.Node?
    decreases t, 1
  {
    |t.kids| == 2 && t.kids[0].Node? && t.kids[1].Node? &&
    t.nt in BinLhs(inp.bin, t.kids[0].nt, t.kids[1].nt) &&
    exists k: nat :: SplitAt(inp, t, i, j, k)
  }

  /** The children of a binary node derive [i, k] and [k+1, j]. */
  ghost predicate SplitAt(inp: Input, t: Tree, i: nat, j: nat, k: nat)
    requires WellTagged(inp) && i < j < |inp.words| && t.Node? && |t.kids| == 2
    decreases t, 0
  {
    i <= k < j && Derives(inp, t.kids[0], i, k) && Derives(inp, t.kids[1], k + 1, j)
  }

  lemma {:induction false} DerivesInCell(inp: Input, t: Tree, i: nat, j: nat)
    requires WellTagged(inp) && i <= j < |inp.words| && Derives(inp, t, i, j)
    ensures t.nt in Cell(inp, i, j)
    decreases t
  {
    if i < j {
      assert DerivesPair(inp, t, i, j);
      var k: nat :| SplitAt(inp, t, i, j, k);
      DerivesInCell(inp, t.kids[0], i, k);
      DerivesInCell(inp, t.kids[1], k + 1, j);
      assert t.nt in PairLhs(inp.bin, Cell(inp, i, k), Cell(inp, k + 1, j));
      SplitsBelowIff(inp, i, j, j, t.nt);
    }
  }

  lemma {:induction false} CellTree(inp: Input, a: Symbol, i: nat, j: nat) returns (t: Tree)
    requires WellTagged(inp) && i <= j < |inp.words| && a in Cell(inp, i, j)
    ensures Derives(inp, t, i, j) && t.nt == a
    decreases j - i
  {
    if i == j {
      if inp.tags.Some? && a == inp.tags.value[i] {
        t := Node(a, [Tok(inp.words[i])]);
      } else if inp.tags.Some? {
        t := Node(a, [Node(inp.tags.value[i], [Tok(inp.words[i])])]);
      } else {
        t := Node(a, [Tok(inp.words[i])]);
      }
    } else {
      SplitsBelowIff(inp, i, j, j, a);
      var k :| i <= k < j && a in PairLhs(inp.bin, Cell(inp, i, k), Cell(inp, k + 1, j));
      var b, c :| b in Cell(inp, i, k) && c in Cell(inp, k + 1, j) && a in BinLhs(inp.bin, b, c);
      var l := CellTree(inp, b, i, k);
      var r := CellTree(inp, c, k + 1, j);
      t := Node(a, [l, r]);
      assert SplitAt(inp, t, i, j, k);
    }
  }

  /** The chart is exact: A is in `chart[i][j]` iff some parse tree of the words i..j has root A. */
  lemma CellIffDerives(inp: Input, a: Symbol, i: nat, j: nat)
    requires WellTagged(inp) && i <= j < |inp.words|
    ensures a in Cell(inp, i, j) <==> exists t :: Derives(inp, t, i, j) && t.nt == a
  {
    if a in Cell(inp, i, j) {
      var t := CellTree(inp, a, i, j);
    }
    forall t | Derives(inp, t, i, j) && t.nt == a ensures a in Cell(inp, i, j) {
      DerivesInCell(inp, t, i, j);
    }
  }

  /** A parse tree of the words i..j has exactly those words as leaves, and the tuple shape. */
  lemma {:induction false} DerivesYield(inp: Input, t: Tree, i: nat, j: nat)
    requires WellTagged(inp) && i <= j < |inp.words| && Derives(inp, t, i, j)
    ensures Yield(t) == inp.words[i..j + 1] && Tupled(t)
    decreases t
  {
    if i == j {
      if t.kids[0].Node? {
        var leaf := t.kids[0];
        assert Yield(leaf) == YieldKids([]) + Yield(leaf.kids[0]);
        assert Tupled(leaf);
      }
      assert Yield(t) == YieldKids([]) + Yield(t.kids[0]);
    } else {
      assert DerivesPair(inp, t, i, j);
      var k: nat :| SplitAt(inp, t, i, j, k);
      var l, r := t.kids[0], t.kids[1];
      DerivesYield(inp, l, i, k);
      DerivesYield(inp, r, k + 1, j);
      assert t.kids[..1] == [l];
      assert Yield(t) == YieldKids([l]) + Yield(r);
      assert YieldKids([l]) == YieldKids([]) + Yield(l);
      assert inp.words[i..j + 1] == inp.words[i..k + 1] + inp.words[k + 1..j + 1];
    }
  }

  // ---------------------------------------------------------------------------------------------
  // Back-pointers

  /** `('terminal', word)`, `('node', tag, i, i)` and `('binary', B, C, k)`. */
  datatype BackPtr = Terminal(word: string) | Unit(child: Symbol, ci: nat, cj: nat) | Binary(b: Symbol, c: Symbol, k: nat)

  /** One cell of `back`: a defaultdict(list) from symbol to back-pointers. */
  type Ptrs = map<Symbol, seq<BackPtr>>

  /** `ptrs[a]` on a defaultdict, without inserting. */
  function PtrsOf(ptrs: Ptrs, a: Symbol): seq<BackPtr> {
    if a in ptrs then ptrs[a] else []
  }

  /** One more left-hand side `nt` seen by `WordCell`: one more copy of `e` for `nt`. */
  lemma WordCellStep(e: BackPtr, s: seq<Symbol>, nt: Symbol, cell: set<Symbol>, ptrs: Ptrs)
    requires cell == set x | x in s
    requires ptrs.Keys == cell
    requires forall a :: a in ptrs ==> ptrs[a] == Repeat(e, multiset(s)[a])
    ensures cell + {nt} == set x | x in s + [nt]
    ensures ptrs[nt := PtrsOf(ptrs, nt) + [e]].Keys == cell + {nt}
    ensures forall a :: a in ptrs[nt := PtrsOf(ptrs, nt) + [e]] ==>
      ptrs[nt := PtrsOf(ptrs, nt) + [e]][a] == Repeat(e, multiset(s + [nt])[a])
  {
    SetOfSnoc(s, nt);
    var ptrs2 := ptrs[nt := PtrsOf(ptrs, nt) + [e]];
    forall a | a in ptrs2 ensures ptrs2[a] == Repeat(e, multiset(s + [nt])[a]) {
      WordCellEntry(e, s, nt, cell, ptrs, a);
    }
  }

  lemma SetOfSnoc(s: seq<Symbol>, nt: Symbol)
    ensures (set x | x in s) + {nt} == set x | x in s + [nt]
  {
  }

  /** The entry for `a` after that step. */
  lemma WordCellEntry(e: BackPtr, s: seq<Symbol>, nt: Symbol, cell: set<Symbol>, ptrs: Ptrs, a: Symbol)
    requires cell == set x | x in s
    requires ptrs.Keys == cell
    requires forall a :: a in ptrs ==> ptrs[a] == Repeat(e, multiset(s)[a])
    requires a in cell + {nt}
    ensures ptrs[nt := PtrsOf(ptrs, nt) + [e]][a] == Repeat(e, multiset(s + [nt])[a])
  {
    assert multiset(s + [nt]) == multiset(s) + multiset{nt};
    if a == nt {
      if nt !in cell {
        assert multiset(s)[nt] == 0;
      }
      assert PtrsOf(ptrs, nt) == Repeat(e, multiset(s)[nt]);
      assert multiset(s + [nt])[nt] == multiset(s)[nt] + 1;
    } else {
      assert multiset(s + [nt])[a] == multiset(s)[a];
    }
  }

  /** `n` copies of `e`. */
  function Repeat(e: BackPtr, n: nat): (r: seq<BackPtr>)
    ensures |r| == n && forall x :: x in r ==> x == e
  {
    if n == 0 then [] else Repeat(e, n - 1) + [e]
  }

  /** A defaultdict never holds an empty list: keys appear when something is appended. */
  predicate NonEmptyLists(ptrs: Ptrs) {
    forall a :: a in ptrs ==> ptrs[a] != []
  }

  /** `back[i][i]` once the diagonal is filled: without tags, one `('terminal', word)` per
      occurrence of A in `terminal_rules[word]`; with tags, the tag points at the word and
      every other symbol of the cell points at the tag. */
  ghost predicate DiagPtrsOk(inp: Input, i: nat, ptrs: Ptrs)
    requires WellTagged(inp) && i < |inp.words|
  {
    ptrs.Keys == Diag(inp, i) &&
    if inp.tags.None? then
      var nts := TermLhs(inp.term, inp.words[i]);
      forall a :: a in ptrs ==> ptrs[a] == Repeat(Terminal(inp.words[i]), multiset(nts)[a])
    else
      var tag := inp.tags.value[i];
      tag in ptrs && ptrs[tag] == [Terminal(inp.words[i])] &&
      forall a :: a in ptrs && a != tag ==> ptrs[a] == [Unit(tag, i, i)]
  }

  /** A binary back-pointer of `back[i][j][a]` with a split below `kmax`. */
  ghost predicate BinaryPtr(inp: Input, i: nat, j: nat, kmax: nat, a: Symbol, e: BackPtr)
    requires WellTagged(inp) && i <= j < |inp.words|
  {
    e.Binary? && i <= e.k < kmax && e.k < j && e.b in Cell(inp, i, e.k) && e.c in Cell(inp, e.k + 1, j) &&
    a in BinLhs(inp.bin, e.b, e.c)
  }

  /** `back[i][j]` for i < j once filled: exactly the binary back-pointers of the cell. */
  ghost predicate SpanPtrsOk(inp: Input, i: nat, j: nat, ptrs: Ptrs)
    requires WellTagged(inp) && i <= j < |inp.words|
  {
    ptrs.Keys == Cell(inp, i, j) && NonEmptyLists(ptrs) &&
    forall a, e :: Member(ptrs, a, e) <==> BinaryPtr(inp, i, j, j, a, e)
  }

  /** `e in back[i][j][a]` */
  ghost predicate Member(ptrs: Ptrs, a: Symbol, e: BackPtr) {
    a in ptrs && e in ptrs[a]
  }

  /** A back-pointer that split k adds for children from `left` and `right`. */
  ghost predicate FromPairs(br: BinIndex, left: set<Symbol>, right: set<Symbol>, k: nat, a: Symbol, e: BackPtr) {
    e.Binary? && e.b in left && e.c in right && e.k == k && a in BinLhs(br, e.b, e.c)
  }

  predicate NoUnit(es: seq<BackPtr>) {
    forall e :: e in es ==> !e.Unit?
  }

  ghost predicate Sized<T>(a: array2<T>, n: nat) {
    a.Length0 == n && a.Length1 == n
  }

  /** What `_build_trees` relies on: every entry points at the words or at smaller spans that
      have entries, and a tag pointed at by a unit entry points only at the word. */
  ghost predicate EntrySound(inp: Input, back: array2<Ptrs>, i: nat, j: nat, a: Symbol, e: BackPtr)
    requires WellTagged(inp) && Sized(back, |inp.words|) && i <= j < |inp.words|
    reads back
  {
    match e
    case Terminal(w) =>
      i == j && w == inp.words[i] &&
      (if inp.tags.Some? then a == inp.tags.value[i] else a in TermLhs(inp.term, w))
    case Unit(c, ci, cj) =>
      inp.tags.Some? && i == j && ci == i && cj == i && c == inp.tags.value[i] &&
      a in TermLhs(inp.term, c) && a != c && c in back[i, i] && NoUnit(back[i, i][c])
    case Binary(b, c, k) =>
      i <= k < j && a in BinLhs(inp.bin, b, c) && b in back[i, k] && c in back[k + 1, j]
  }

  ghost predicate BackOk(inp: Input, back: array2<Ptrs>)
    reads back
  {
    WellTagged(inp) && Sized(back, |inp.words|) &&
    forall i, j, a :: 0 <= i <= j < |inp.words| && a in back[i, j] ==>
      back[i, j][a] != [] && forall e :: e in back[i, j][a] ==> EntrySound(inp, back, i, j, a, e)
  }

  /** A filled cell: the chart cell is exact and its back-pointers are as above. */
  ghost predicate CellOk(inp: Input, i: nat, j: nat, cell: set<Symbol>, ptrs: Ptrs)
    requires WellTagged(inp) && i <= j < |inp.words|
  {
    cell == Cell(inp, i, j) && if i == j then DiagPtrsOk(inp, i, ptrs) else SpanPtrsOk(inp, i, j, ptrs)
  }

  lemma PairLhsRight(br: BinIndex, b: Symbol, right: set<Symbol>, c: Symbol)
    ensures PairLhs(br, {b}, right + {c}) == PairLhs(br, {b}, right) + set a | a in BinLhs(br, b, c)
  {
  }

  /** `for a in lhs: ptrs[a].append(x)` */
  function AppendAll(ptrs: Ptrs, lhs: seq<Symbol>, x: BackPtr): Ptrs
    decreases |lhs|
  {
    if lhs == [] then ptrs
    else
      var p := AppendAll(ptrs, lhs[..|lhs| - 1], x);
      p[lhs[|lhs| - 1] := PtrsOf(p, lhs[|lhs| - 1]) + [x]]
  }

  lemma {:induction false} AppendAllKeys(ptrs: Ptrs, lhs: seq<Symbol>, x: BackPtr)
    ensures AppendAll(ptrs, lhs, x).Keys == ptrs.Keys + set a | a in lhs
    decreases |lhs|
  {
    if lhs != [] {
      var init, last := lhs[..|lhs| - 1], lhs[|lhs| - 1];
      AppendAllKeys(ptrs, init, x);
      assert lhs == init + [last];
      assert (set a | a in lhs) == (set a | a in init) + {last};
    }
  }

  /** Each symbol gets `x` once per occurrence in `lhs`, after what it had. */
  lemma {:induction false} AppendAllAt(ptrs: Ptrs, lhs: seq<Symbol>, x: BackPtr, a: Symbol)
    ensures PtrsOf(AppendAll(ptrs, lhs, x), a) == PtrsOf(ptrs, a) + Repeat(x, multiset(lhs)[a])
    decreases |lhs|
  {
    if lhs != [] {
      var init, last := lhs[..|lhs| - 1], lhs[|lhs| - 1];
      AppendAllAt(ptrs, init, x, a);
      var p := AppendAll(ptrs, init, x);
      assert lhs == init + [last];
      if a == last {
        assert multiset(lhs)[a] == multiset(init)[a] + 1;
        assert PtrsOf(AppendAll(ptrs, lhs, x), a) == PtrsOf(p, a) + [x];
      } else {
        assert multiset(lhs)[a] == multiset(init)[a];
        assert PtrsOf(AppendAll(ptrs, lhs, x), a) == PtrsOf(p, a);
      }
    }
  }

  /** Appending `x` once per occurrence of each symbol of `lhs`. */
  lemma AppendedPtrs(ptrs0: Ptrs, ptrs: Ptrs, lhs: seq<Symbol>, x: BackPtr)
    requires ptrs == AppendAll(ptrs0, lhs, x)
    ensures ptrs.Keys == ptrs0.Keys + set a | a in lhs
    ensures NonEmptyLists(ptrs0) ==> NonEmptyLists(ptrs)
    ensures forall a, e :: Member(ptrs, a, e) <==> Member(ptrs0, a, e) || (e == x && a in lhs)
  {
    AppendAllKeys(ptrs0, lhs, x);
    forall a ensures PtrsOf(ptrs, a) == PtrsOf(ptrs0, a) + Repeat(x, multiset(lhs)[a]) {
      AppendAllAt(ptrs0, lhs, x, a);
    }
    forall a | a in lhs ensures x in PtrsOf(ptrs, a) {
      assert multiset(lhs)[a] > 0;
    }
  }

  /** After the children pairs (b', c) with b' in `left` and c in `right` of split k: the cell
      gained their left-hand sides and every one of them got exactly those back-pointers. */
  ghost predicate PairsAdded(br: BinIndex, cell0: set<Symbol>, ptrs0: Ptrs, left: set<Symbol>, right: set<Symbol>, k: nat,
                             cell: set<Symbol>, ptrs: Ptrs)
  {
    cell == cell0 + PairLhs(br, left, right) &&
    ptrs.Keys == ptrs0.Keys + PairLhs(br, left, right) &&
    (NonEmptyLists(ptrs0) ==> NonEmptyLists(ptrs)) &&
    forall a, e :: Member(ptrs, a, e) <==> Member(ptrs0, a, e) || FromPairs(br, left, right, k, a, e)
  }

  lemma NoPairs(br: BinIndex, cell0: set<Symbol>, ptrs0: Ptrs, left: set<Symbol>, right: set<Symbol>, k: nat)
    requires left == {} || right == {}
    ensures PairsAdded(br, cell0, ptrs0, left, right, k, cell0, ptrs0)
  {
    assert PairLhs(br, left, right) == {};
  }

  /** One more c in the loop over the right cell. */
  lemma RightStep(br: BinIndex, cell0: set<Symbol>, ptrs0: Ptrs, b: Symbol, done: set<Symbol>, c: Symbol, k: nat,
                  cell: set<Symbol>, ptrs: Ptrs)
    requires PairsAdded(br, cell0, ptrs0, {b}, done, k, cell, ptrs)
    ensures PairsAdded(br, cell0, ptrs0, {b}, done + {c}, k,
      cell + (set a | a in BinLhs(br, b, c)), AppendAll(ptrs, BinLhs(br, b, c), Binary(b, c, k)))
  {
    var after := AppendAll(ptrs, BinLhs(br, b, c), Binary(b, c, k));
    AppendedPtrs(ptrs, after, BinLhs(br, b, c), Binary(b, c, k));
    PairLhsRight(br, b, done, c);
    forall a, e ensures FromPairs(br, {b}, done + {c}, k, a, e) <==>
      FromPairs(br, {b}, done, k, a, e) || (e == Binary(b, c, k) && a in BinLhs(br, b, c))
    {
    }
  }

  /** One more b in the loop over the left cell. */
  lemma LeftStep(br: BinIndex, cell0: set<Symbol>, ptrs0: Ptrs, done: set<Symbol>, b: Symbol, right: set<Symbol>, k: nat,
                 cell: set<Symbol>, ptrs: Ptrs, cell2: set<Symbol>, ptrs2: Ptrs)
    requires PairsAdded(br, cell0, ptrs0, done, right, k, cell, ptrs)
    requires PairsAdded(br, cell, ptrs, {b}, right, k, cell2, ptrs2)
    ensures PairsAdded(br, cell0, ptrs0, done + {b}, right, k, cell2, ptrs2)
  {
    PairLhsLeft(br, done, b, right);
    forall a, e ensures FromPairs(br, done + {b}, right, k, a, e) <==>
      FromPairs(br, done, right, k, a, e) || FromPairs(br, {b}, right, k, a, e)
    {
    }
  }

  lemma PairLhsLeft(br: BinIndex, left: set<Symbol>, b: Symbol, right: set<Symbol>)
    ensures PairLhs(br, left + {b}, right) == PairLhs(br, left, right) + PairLhs(br, {b}, right)
  {
  }

  /** The filled back-pointer table satisfies what tree building relies on. */
  /** A filled chart whose every cell is right gives back-pointers that are right. */
  lemma CellsBackOk(inp: Input, chart: array2<set<Symbol>>, back: array2<Ptrs>)
    requires WellTagged(inp) && Sized(chart, |inp.words|) && Sized(back, |inp.words|)
    requires forall p, q :: 0 <= p <= q < |inp.words| ==> CellOk(inp, p, q, chart[p, q], back[p, q])
    ensures BackOk(inp, back)
  {
    forall p | 0 <= p < |inp.words| ensures DiagPtrsOk(inp, p, back[p, p]) {
      assert CellOk(inp, p, p, chart[p, p], back[p, p]);
    }
    forall p, q | 0 <= p < q < |inp.words| ensures SpanPtrsOk(inp, p, q, back[p, q]) {
      assert CellOk(inp, p, q, chart[p, q], back[p, q]);
    }
    FilledBackOk(inp, back);
  }

  /** Trees deriving the whole sentence spell it out. */
  lemma WholeYields(inp: Input, ts: seq<Tree>)
    requires WellTagged(inp) && |inp.words| > 0
    requires forall t :: t in ts ==> Derives(inp, t, 0, |inp.words| - 1)
    ensures forall t :: t in ts ==> Yield(t) == inp.words && Tupled(t)
  {
    forall t | t in ts ensures Yield(t) == inp.words && Tupled(t) {
      DerivesYield(inp, t, 0, |inp.words| - 1);
      assert inp.words[0..|inp.words|] == inp.words;
    }
  }

  lemma FilledBackOk(inp: Input, back: array2<Ptrs>)
    requires WellTagged(inp) && Sized(back, |inp.words|)
    requires forall p :: 0 <= p < |inp.words| ==> DiagPtrsOk(inp, p, back[p, p])
    requires forall p, q :: 0 <= p < q < |inp.words| ==> SpanPtrsOk(inp, p, q, back[p, q])
    ensures BackOk(inp, back)
  {
    forall i, j, a | 0 <= i <= j < |inp.words| && a in back[i, j]
      ensures back[i, j][a] != [] && forall e :: e in back[i, j][a] ==> EntrySound(inp, back, i, j, a, e)
    {
      if i == j {
        DiagEntries(inp, back, i, a);
      } else {
        forall e | e in back[i, j][a] ensures EntrySound(inp, back, i, j, a, e) {
          assert Member(back[i, j], a, e);
          assert BinaryPtr(inp, i, j, j, a, e);
          CellKeys(inp, back, i, e.k);
          CellKeys(inp, back, e.k + 1, j);
        }
      }
    }
  }

  lemma CellKeys(inp: Input, back: array2<Ptrs>, p: nat, q: nat)
    requires WellTagged(inp) && Sized(back, |inp.words|) && p <= q < |inp.words|
    requires p == q ==> DiagPtrsOk(inp, p, back[p, p])
    requires p < q ==> SpanPtrsOk(inp, p, q, back[p, q])
    ensures back[p, q].Keys == Cell(inp, p, q)
  {
  }

  lemma DiagEntries(inp: Input, back: array2<Ptrs>, i: nat, a: Symbol)
    requires WellTagged(inp) && Sized(back, |inp.words|) && i < |inp.words|
    requires DiagPtrsOk(inp, i, back[i, i]) && a in back[i, i]
    ensures back[i, i][a] != [] && forall e :: e in back[i, i][a] ==> EntrySound(inp, back, i, i, a, e)
  {
    if inp.tags.None? {
      assert a in TermLhs(inp.term, inp.words[i]);
      assert multiset(TermLhs(inp.term, inp.words[i]))[a] > 0;
    }
  }

  /** `trees.append((nt, word))` */
  lemma DerivesSnoc(inp: Input, trees: seq<Tree>, t: Tree, i: nat, j: nat, nt: Symbol)
    requires WellTagged(inp) && i <= j < |inp.words|
    requires forall u :: u in trees ==> Derives(inp, u, i, j) && u.nt == nt
    requires Derives(inp, t, i, j) && t.nt == nt
    ensures forall u :: u in trees + [t] ==> Derives(inp, u, i, j) && u.nt == nt
  {
  }

  lemma TerminalDerives(inp: Input, back: array2<Ptrs>, nt: Symbol, i: nat, w: string)
    requires BackOk(inp, back) && i < |inp.words| && EntrySound(inp, back, i, i, nt, Terminal(w))
    ensures Derives(inp, Node(nt, [Tok(w)]), i, i)
  {
  }

  /** `trees.append((nt, child))` for a tree of the tag the unit entry points at. */
  lemma UnitDerives(inp: Input, back: array2<Ptrs>, nt: Symbol, i: nat, c: Symbol, child: Tree)
    requires BackOk(inp, back) && i < |inp.words| && EntrySound(inp, back, i, i, nt, Unit(c, i, i))
    requires Derives(inp, child, i, i) && child.nt == c
    ensures Derives(inp, Node(nt, [child]), i, i)
  {
  }

  /** `trees.append((nt, left, right))` */
  lemma PairDerives(inp: Input, nt: Symbol, i: nat, k: nat, j: nat, l: Tree, r: Tree)
    requires WellTagged(inp) && i <= k < j < |inp.words|
    requires Derives(inp, l, i, k) && Derives(inp, r, k + 1, j) && nt in BinLhs(inp.bin, l.nt, r.nt)
    ensures Derives(inp, Node(nt, [l, r]), i, j)
  {
    assert SplitAt(inp, Node(nt, [l, r]), i, j, k);
  }

  /** `trees[:max_trees]` */
  function Take<T>(s: seq<T>, n: nat): (r: seq<T>)
    ensures |r| <= n && r <= s && (|s| <= n ==> r == s)
  {
    if |s| <= n then s else s[..n]
  }

  lemma InPrefix<T>(s: seq<T>, t: seq<T>, x: T)
    requires s <= t && x in s
    ensures x in t
  {
    var n :| 0 <= n < |s| && s[n] == x;
    assert t[n] == x;
  }

  /** `back[i][j].get(nt, [])[:max_trees]`: the entries `_build_trees` looks at. */
  function Examined(ptrs: Ptrs, nt: Symbol, maxTrees: nat): seq<BackPtr> {
    Take(PtrsOf(ptrs, nt), maxTrees)
  }

  predicate AllTerminal(es: seq<BackPtr>) {
    forall e :: e in es ==> e.Terminal?
  }

  predicate AllBinary(es: seq<BackPtr>) {
    forall e :: e in es ==> e.Binary?
  }

  /** A unit entry points at a cell whose entries are not unit entries. */
  ghost function Rank(back: array2<Ptrs>, i: nat, j: nat, nt: Symbol): nat
    requires i < back.Length0 && j < back.Length1
    reads back
  {
    if NoUnit(PtrsOf(back[i, j], nt)) then 0 else 1
  }

  /** New trees `(nt, l, r)` with l from `left` and r from `right`. */
  ghost predicate PairTrees(trees0: seq<Tree>, trees: seq<Tree>, nt: Symbol, left: seq<Tree>, right: seq<Tree>) {
    trees0 <= trees &&
    forall n :: |trees0| <= n < |trees| ==>
      trees[n].Node? && trees[n].nt == nt && |trees[n].kids| == 2 && trees[n].kids[0] in left && trees[n].kids[1] in right
  }

  lemma PairTreesTrans(t0: seq<Tree>, t1: seq<Tree>, t2: seq<Tree>, nt: Symbol, left: seq<Tree>, l: seq<Tree>, right: seq<Tree>)
    requires PairTrees(t0, t1, nt, left, right) && PairTrees(t1, t2, nt, l, right)
    requires forall x :: x in l ==> x in left
    ensures PairTrees(t0, t2, nt, left, right)
  {
    forall n | |t0| <= n < |t2| ensures t2[n].Node? && t2[n].nt == nt && |t2[n].kids| == 2 && t2[n].kids[0] in left && t2[n].kids[1] in right {
      if n < |t1| {
        assert t2[n] == t1[n];
      } else {
        assert t2[n].kids[0] in l;
      }
    }
  }

  /** `if pos_constraints`: a missing or empty tag list means no tags. */
  predicate Given(pos: Option<seq<Symbol>>) {
    pos.Some? && |pos.value| > 0
  }

  function TagsUsed(pos: Option<seq<Symbol>>): Option<seq<Symbol>> {
    if Given(pos) then pos else None
  }

  /** `pos_constraints and len(pos_constraints) != n` */
  predicate Mismatch(sentence: seq<string>, pos: Option<seq<Symbol>>) {
    Given(pos) && |pos.value| != |sentence|
  }

  // ---------------------------------------------------------------------------------------------
  // The parser

  class CkyParser {
    var grammar: Grammar
    var terminals: set<Symbol>
    var nonTerminals: set<Symbol>
    var startSymbol: Option<Symbol>
    var terminalRules: TermIndex
    var binaryRules: BinIndex

    constructor()
      ensures grammar == Empty() && terminals == {} && nonTerminals == {} && startSymbol == Some("S")
      ensures terminalRules == map[] && binaryRules == map[]
    {
      grammar := Empty();
      terminals := {};
      nonTerminals := {};
      startSymbol := Some("S");
      terminalRules := map[];
      binaryRules := map[];
    }

    function TablesOf(): Tables
      reads this
    {
      Tables(terminals, terminalRules, binaryRules)
    }

    /** `load_grammar`. The indices are not reset, so a second load appends to them; what they
        then hold is stated by `LoadedTables`. */
    method LoadGrammar(g: Grammar, start: Option<Symbol>)
      requires Valid(g)
      modifies this
      ensures grammar == g && startSymbol == start && nonTerminals == g.m.Keys
      ensures TablesOf() == AddRules(old(TablesOf()), g, |g.keys|)
    {
      ghost var t0 := TablesOf();
      grammar := g;
      startSymbol := start;
      nonTerminals := g.m.Keys;
      for n := 0 to |g.keys|
        invariant grammar == g && startSymbol == start && nonTerminals == g.m.Keys
        invariant TablesOf() == AddRules(t0, g, n)
      {
        var nt := g.keys[n];
        IndexProductions(nt, g.m[nt]);
      }
    }

    method IndexProductions(nt: Symbol, prods: seq<Production>)
      modifies this
      ensures grammar == old(grammar) && startSymbol == old(startSymbol) && nonTerminals == old(nonTerminals)
      ensures TablesOf() == AddProductions(old(TablesOf()), nt, prods)
    {
      for n := 0 to |prods|
        invariant grammar == old(grammar) && startSymbol == old(startSymbol) && nonTerminals == old(nonTerminals)
        invariant TablesOf() == AddProductions(old(TablesOf()), nt, prods[..n])
      {
        var prod := prods[n];
        if |prod| == 1 {
          var terminal := prod[0];
          terminals := terminals + {terminal};
          terminalRules := terminalRules[terminal := TermLhs(terminalRules, terminal) + [nt]];
        } else if |prod| == 2 {
          var b, c := prod[0], prod[1];
          binaryRules := binaryRules[(b, c) := BinLhs(binaryRules, b, c) + [nt]];
        }
        assert prods[..n + 1][..n] == prods[..n];
      }
      assert prods[..|prods|] == prods;
    }

    /** `load_grammar_from_converter`: the copied lists are equal values, so this is
        `load_grammar` on the converter's grammar and start symbol. */
    method LoadGrammarFromConverter(converter: CnfConversion.Converter)
      requires Valid(converter.grammar)
      modifies this
      ensures grammar == converter.grammar && startSymbol == converter.startSymbol
      ensures nonTerminals == converter.grammar.m.Keys
      ensures TablesOf() == AddRules(old(TablesOf()), converter.grammar, |converter.grammar.keys|)
    {
      var copy := converter.grammar;
      LoadGrammar(copy, converter.startSymbol);
    }

    ghost function InputOf(words: seq<string>, tags: Option<seq<Symbol>>): Input
      reads this
    {
      Input(terminalRules, binaryRules, words, tags)
    }

    /** The diagonal cell of a word without tags. */
    method WordCell(word: string) returns (cell: set<Symbol>, ptrs: Ptrs)
      ensures cell == set x | x in TermLhs(terminalRules, word)
      ensures ptrs.Keys == cell
      ensures forall a :: a in ptrs ==> ptrs[a] == Repeat(Terminal(word), multiset(TermLhs(terminalRules, word))[a])
    {
      var nts := TermLhs(terminalRules, word);
      cell, ptrs := {}, map[];
      for n := 0 to |nts|
        invariant cell == set x | x in nts[..n]
        invariant ptrs.Keys == cell
        invariant forall a :: a in ptrs ==> ptrs[a] == Repeat(Terminal(word), multiset(nts[..n])[a])
      {
        var nt := nts[n];
        assert nts[..n + 1] == nts[..n] + [nt];
        WordCellStep(Terminal(word), nts[..n], nt, cell, ptrs);
        cell := cell + {nt};
        ptrs := ptrs[nt := PtrsOf(ptrs, nt) + [Terminal(word)]];
      }
      assert nts[..|nts|] == nts;
    }

    /** The diagonal cell of a word with its tag. */
    method TagCell(word: string, tag: Symbol, i: nat) returns (cell: set<Symbol>, ptrs: Ptrs)
      ensures cell == {tag} + set x | x in TermLhs(terminalRules, tag)
      ensures ptrs.Keys == cell && tag in ptrs && ptrs[tag] == [Terminal(word)]
      ensures forall a :: a in ptrs && a != tag ==> ptrs[a] == [Unit(tag, i, i)]
    {
      var nts := TermLhs(terminalRules, tag);
      cell, ptrs := {tag}, map[tag := [Terminal(word)]];
      for n := 0 to |nts|
        invariant cell == {tag} + set x | x in nts[..n]
        invariant ptrs.Keys == cell && tag in ptrs && ptrs[tag] == [Terminal(word)]
        invariant forall a :: a in ptrs && a != tag ==> ptrs[a] == [Unit(tag, i, i)]
      {
        var nt := nts[n];
        assert nts[..n + 1] == nts[..n] + [nt];
        if nt !in cell {
          cell := cell + {nt};
          ptrs := ptrs[nt := PtrsOf(ptrs, nt) + [Unit(tag, i, i)]];
        }
      }
      assert nts[..|nts|] == nts;
    }

    /** Step 1 of `parse`: the diagonal, from the tags when they are given, else from the
        words. */
    method FillDiagonal(chart: array2<set<Symbol>>, back: array2<Ptrs>, words: seq<string>, tags: Option<seq<Symbol>>)
      requires WellTagged(InputOf(words, tags)) && Sized(chart, |words|) && Sized(back, |words|)
      modifies chart, back
      ensures forall i :: 0 <= i < |words| ==>
        chart[i, i] == Diag(InputOf(words, tags), i) && DiagPtrsOk(InputOf(words, tags), i, back[i, i])
    {
      ghost var inp := InputOf(words, tags);
      for i := 0 to |words|
        invariant forall p :: 0 <= p < i ==> chart[p, p] == Diag(inp, p) && DiagPtrsOk(inp, p, back[p, p])
      {
        var cell, ptrs;
        if tags.Some? {
          cell, ptrs := TagCell(words[i], tags.value[i], i);
        } else {
          cell, ptrs := WordCell(words[i]);
        }
        chart[i, i] := cell;
        back[i, i] := ptrs;
      }
    }

    /** The innermost loop of step 2: every A of `binary_rules[(b, c)]` enters the cell and gets
        the back-pointer `('binary', b, c, k)`, once per occurrence. */
    method AddLhs(cell0: set<Symbol>, ptrs0: Ptrs, b: Symbol, c: Symbol, k: nat) returns (cell: set<Symbol>, ptrs: Ptrs)
      ensures cell == cell0 + set a | a in BinLhs(binaryRules, b, c)
      ensures ptrs == AppendAll(ptrs0, BinLhs(binaryRules, b, c), Binary(b, c, k))
    {
      var lhs := BinLhs(binaryRules, b, c);
      cell, ptrs := cell0, ptrs0;
      for n := 0 to |lhs|
        invariant cell == cell0 + set a | a in lhs[..n]
        invariant ptrs == AppendAll(ptrs0, lhs[..n], Binary(b, c, k))
      {
        var a := lhs[n];
        assert lhs[..n + 1][..n] == lhs[..n];
        cell := cell + {a};
        ptrs := ptrs[a := PtrsOf(ptrs, a) + [Binary(b, c, k)]];
      }
      assert lhs[..|lhs|] == lhs;
    }

    /** `for c in chart[k + 1][j]` for one b, in whatever order the set is iterated. */
    method AddRight(cell0: set<Symbol>, ptrs0: Ptrs, b: Symbol, right: set<Symbol>, k: nat) returns (cell: set<Symbol>, ptrs: Ptrs)
      ensures PairsAdded(binaryRules, cell0, ptrs0, {b}, right, k, cell, ptrs)
    {
      cell, ptrs := cell0, ptrs0;
      var todo := right;
      ghost var done: set<Symbol> := {};
      NoPairs(binaryRules, cell0, ptrs0, {b}, {}, k);
      while todo != {}
        invariant todo <= right && done == right - todo
        invariant PairsAdded(binaryRules, cell0, ptrs0, {b}, done, k, cell, ptrs)
        decreases |todo|
      {
        var c :| c in todo;
        RightStep(binaryRules, cell0, ptrs0, b, done, c, k, cell, ptrs);
        cell, ptrs := AddLhs(cell, ptrs, b, c, k);
        done := done + {c};
        todo := todo - {c};
      }
    }

    /** One b of the loop below. */
    method AddLeft(ghost cell0: set<Symbol>, ghost ptrs0: Ptrs, ghost done: set<Symbol>, cell: set<Symbol>, ptrs: Ptrs,
                   b: Symbol, right: set<Symbol>, k: nat) returns (cell2: set<Symbol>, ptrs2: Ptrs)
      requires PairsAdded(binaryRules, cell0, ptrs0, done, right, k, cell, ptrs)
      ensures PairsAdded(binaryRules, cell0, ptrs0, done + {b}, right, k, cell2, ptrs2)
    {
      cell2, ptrs2 := AddRight(cell, ptrs, b, right, k);
      LeftStep(binaryRules, cell0, ptrs0, done, b, right, k, cell, ptrs, cell2, ptrs2);
    }

    /** `for b in chart[i][k]: for c in chart[k + 1][j]: ...` for one split k. */
    method AddSplit(cell0: set<Symbol>, ptrs0: Ptrs, left: set<Symbol>, right: set<Symbol>, k: nat) returns (cell: set<Symbol>, ptrs: Ptrs)
      ensures PairsAdded(binaryRules, cell0, ptrs0, left, right, k, cell, ptrs)
    {
      cell, ptrs := cell0, ptrs0;
      var todo := left;
      ghost var done: set<Symbol> := {};
      NoPairs(binaryRules, cell0, ptrs0, {}, right, k);
      while todo != {}
        invariant todo <= left && done == left - todo
        invariant PairsAdded(binaryRules, cell0, ptrs0, done, right, k, cell, ptrs)
        decreases |todo|
      {
        var b :| b in todo;
        cell, ptrs := AddLeft(cell0, ptrs0, done, cell, ptrs, b, right, k);
        done := done + {b};
        todo := todo - {b};
      }
    }

    /** `for k in range(i, j)` for one span [i, j], i < j, once all shorter spans are filled. */
    method SpanCell(chart: array2<set<Symbol>>, i: nat, j: nat, ghost words: seq<string>, ghost tags: Option<seq<Symbol>>)
      returns (cell: set<Symbol>, ptrs: Ptrs)
      requires WellTagged(InputOf(words, tags)) && Sized(chart, |words|) && i < j < |words|
      requires forall k :: i <= k < j ==>
        chart[i, k] == Cell(InputOf(words, tags), i, k) && chart[k + 1, j] == Cell(InputOf(words, tags), k + 1, j)
      ensures cell == Cell(InputOf(words, tags), i, j) && SpanPtrsOk(InputOf(words, tags), i, j, ptrs)
    {
      ghost var inp := InputOf(words, tags);
      cell, ptrs := {}, map[];
      for k := i to j
        invariant cell == SplitsBelow(inp, i, j, k)
        invariant ptrs.Keys == cell && NonEmptyLists(ptrs)
        invariant forall a, e :: Member(ptrs, a, e) <==> BinaryPtr(inp, i, j, k, a, e)
      {
        ghost var before := ptrs;
        cell, ptrs := AddSplit(cell, ptrs, chart[i, k], chart[k + 1, j], k);
        forall a, e ensures BinaryPtr(inp, i, j, k + 1, a, e) <==>
          BinaryPtr(inp, i, j, k, a, e) || FromPairs(binaryRules, Cell(inp, i, k), Cell(inp, k + 1, j), k, a, e)
        {
        }
      }
    }

    /** Step 2 of `parse`: spans of length 2 .. n, left to right. */
    method FillSpans(chart: array2<set<Symbol>>, back: array2<Ptrs>, words: seq<string>, ghost tags: Option<seq<Symbol>>)
      requires WellTagged(InputOf(words, tags)) && Sized(chart, |words|) && Sized(back, |words|) && |words| > 0
      requires forall p :: 0 <= p < |words| ==>
        chart[p, p] == Diag(InputOf(words, tags), p) && DiagPtrsOk(InputOf(words, tags), p, back[p, p])
      modifies chart, back
      ensures forall p, q :: 0 <= p <= q < |words| ==> CellOk(InputOf(words, tags), p, q, chart[p, q], back[p, q])
    {
      ghost var inp := InputOf(words, tags);
      var n := |words|;
      for span := 2 to n + 1
        invariant forall p, q :: 0 <= p <= q < n && q - p + 1 < span ==> CellOk(inp, p, q, chart[p, q], back[p, q])
      {
        for i := 0 to n - span + 1
          invariant forall p, q :: 0 <= p <= q < n && (q - p + 1 < span || (q - p + 1 == span && p < i)) ==>
            CellOk(inp, p, q, chart[p, q], back[p, q])
        {
          var j := i + span - 1;
          var cell, ptrs := SpanCell(chart, i, j, words, tags);
          chart[i, j] := cell;
          back[i, j] := ptrs;
        }
      }
    }

    /** `for right in right_trees: trees.append((nt, left, right)); if len(trees) >= max_trees:
        return trees` for one left tree; `full` says that it returned. */
    static method AppendRow(trees0: seq<Tree>, nt: Symbol, l: Tree, right: seq<Tree>, maxTrees: nat) returns (trees: seq<Tree>, full: bool)
      ensures PairTrees(trees0, trees, nt, [l], right)
      ensures full ==> |trees| == if |trees0| < maxTrees then maxTrees else |trees0| + 1
      ensures !full ==> |trees| == |trees0| + |right| && (|trees| < maxTrees || right == [])
    {
      trees := trees0;
      for n := 0 to |right|
        invariant PairTrees(trees0, trees, nt, [l], right)
        invariant |trees| == |trees0| + n
        invariant n > 0 ==> |trees| < maxTrees
      {
        trees := trees + [Node(nt, [l, right[n]])];
        if |trees| >= maxTrees {
          return trees, true;
        }
      }
      full := false;
    }

    /** The nested loop of the binary case of `_build_trees`. */
    static method AppendPairs(trees0: seq<Tree>, nt: Symbol, left: seq<Tree>, right: seq<Tree>, maxTrees: nat) returns (trees: seq<Tree>, full: bool)
      ensures PairTrees(trees0, trees, nt, left, right)
      ensures full ==> |trees| == if |trees0| < maxTrees then maxTrees else |trees0| + 1
      ensures !full ==> trees == trees0 || |trees| < maxTrees
      ensures left != [] && right != [] ==> |trees| > |trees0|
    {
      trees := trees0;
      for n := 0 to |left|
        invariant PairTrees(trees0, trees, nt, left, right)
        invariant trees == trees0 || |trees| < maxTrees
        invariant n > 0 && right != [] ==> |trees| > |trees0|
      {
        ghost var before := trees;
        trees, full := AppendRow(trees, nt, left[n], right, maxTrees);
        PairTreesTrans(trees0, before, trees, nt, left, [left[n]], right);
        if full {
          return;
        }
      }
      full := false;
    }

    /** The unit case of `_build_trees`: `(nt, child)` for every tree of the tag. */
    method WrapUnit(back: array2<Ptrs>, trees0: seq<Tree>, i: nat, nt: Symbol, c: Symbol, childTrees: seq<Tree>,
                    ghost words: seq<string>, ghost tags: Option<seq<Symbol>>) returns (trees: seq<Tree>)
      requires BackOk(InputOf(words, tags), back) && i < |words|
      requires EntrySound(InputOf(words, tags), back, i, i, nt, Unit(c, i, i))
      requires forall t :: t in trees0 ==> Derives(InputOf(words, tags), t, i, i) && t.nt == nt
      requires forall t :: t in childTrees ==> Derives(InputOf(words, tags), t, i, i) && t.nt == c
      ensures forall t :: t in trees ==> Derives(InputOf(words, tags), t, i, i) && t.nt == nt
      ensures |trees| == |trees0| + |childTrees|
    {
      ghost var inp := InputOf(words, tags);
      trees := trees0;
      for m := 0 to |childTrees|
        invariant forall t :: t in trees ==> Derives(inp, t, i, i) && t.nt == nt
        invariant |trees| == |trees0| + m
      {
        UnitDerives(inp, back, nt, i, c, childTrees[m]);
        trees := trees + [Node(nt, [childTrees[m]])];
      }
    }

    /** The binary case of `_build_trees` over split k, from the first `maxTrees` trees of each
        side. */
    method JoinPairs(trees0: seq<Tree>, ghost i: nat, ghost k: nat, ghost j: nat, nt: Symbol, leftTrees: seq<Tree>, rightTrees: seq<Tree>,
                     ghost words: seq<string>, ghost tags: Option<seq<Symbol>>, maxTrees: nat) returns (trees: seq<Tree>, full: bool)
      requires WellTagged(InputOf(words, tags)) && i <= k < j < |words|
      requires forall t :: t in trees0 ==> Derives(InputOf(words, tags), t, i, j) && t.nt == nt
      requires forall l, r :: l in leftTrees && r in rightTrees ==>
        Derives(InputOf(words, tags), l, i, k) && Derives(InputOf(words, tags), r, k + 1, j) && nt in BinLhs(binaryRules, l.nt, r.nt)
      ensures forall t :: t in trees ==> Derives(InputOf(words, tags), t, i, j) && t.nt == nt
      ensures full ==> |trees| == if |trees0| < maxTrees then maxTrees else |trees0| + 1
      ensures !full ==> trees == trees0 || |trees| < maxTrees
      ensures leftTrees != [] && rightTrees != [] && maxTrees > 0 ==> |trees| > |trees0|
    {
      ghost var inp := InputOf(words, tags);
      var left, right := Take(leftTrees, maxTrees), Take(rightTrees, maxTrees);
      trees, full := AppendPairs(trees0, nt, left, right, maxTrees);
      forall t | t in trees ensures Derives(inp, t, i, j) && t.nt == nt {
        var m :| 0 <= m < |trees| && trees[m] == t;
        if m >= |trees0| {
          assert t == Node(nt, [t.kids[0], t.kids[1]]);
          InPrefix(left, leftTrees, t.kids[0]);
          InPrefix(right, rightTrees, t.kids[1]);
          PairDerives(inp, nt, i, k, j, t.kids[0], t.kids[1]);
        } else {
          assert t in trees0;
        }
      }
    }

    /** `_build_trees`: the trees of `nt` over [i, j], from at most `maxTrees` entries of the
        cell, each a parse tree of the words with root `nt`. */
    method BuildTrees(back: array2<Ptrs>, i: nat, j: nat, nt: Symbol, ghost words: seq<string>, ghost tags: Option<seq<Symbol>>,
                      maxTrees: nat) returns (trees: seq<Tree>)
      requires BackOk(InputOf(words, tags), back) && i <= j < |words|
      ensures forall t :: t in trees ==> Derives(InputOf(words, tags), t, i, j) && t.nt == nt
      ensures nt in back[i, j] && maxTrees > 0 ==> trees != []
      ensures AllTerminal(Examined(back[i, j], nt, maxTrees)) ==> |trees| == |Examined(back[i, j], nt, maxTrees)|
      ensures AllBinary(Examined(back[i, j], nt, maxTrees)) ==> |trees| <= maxTrees
      decreases j - i, Rank(back, i, j, nt), 1
    {
      ghost var inp := InputOf(words, tags);
      var entries := Examined(back[i, j], nt, maxTrees);
      trees := [];
      for n := 0 to |entries|
        invariant forall t :: t in trees ==> Derives(inp, t, i, j) && t.nt == nt
        invariant n > 0 ==> trees != []
        invariant AllTerminal(entries) ==> |trees| == n
        invariant AllBinary(entries) ==> |trees| < maxTrees || entries == []
      {
        assert entries[n] in entries;
        var full;
        trees, full := BuildEntry(back, i, j, nt, entries[n], trees, words, tags, maxTrees);
        if full {
          return;
        }
      }
    }

    /** One pass of that loop: the trees the back-pointer `entry` of `nt` adds. */
    method BuildEntry(back: array2<Ptrs>, i: nat, j: nat, nt: Symbol, entry: BackPtr, trees0: seq<Tree>,
                      ghost words: seq<string>, ghost tags: Option<seq<Symbol>>, maxTrees: nat)
      returns (trees: seq<Tree>, full: bool)
      requires BackOk(InputOf(words, tags), back) && i <= j < |words|
      requires entry in PtrsOf(back[i, j], nt) && maxTrees > 0
      requires forall t :: t in trees0 ==> Derives(InputOf(words, tags), t, i, j) && t.nt == nt
      ensures forall t :: t in trees ==> Derives(InputOf(words, tags), t, i, j) && t.nt == nt
      ensures trees != []
      ensures entry.Terminal? ==> |trees| == |trees0| + 1
      ensures !entry.Binary? ==> !full
      ensures entry.Binary? && |trees0| < maxTrees ==> if full then |trees| <= maxTrees else |trees| < maxTrees
      decreases j - i, Rank(back, i, j, nt), 0
    {
      ghost var inp := InputOf(words, tags);
      assert EntrySound(inp, back, i, j, nt, entry);
      full := false;
      match entry {
        case Terminal(word) =>
          TerminalDerives(inp, back, nt, i, word);
          DerivesSnoc(inp, trees0, Node(nt, [Tok(word)]), i, j, nt);
          trees := trees0 + [Node(nt, [Tok(word)])];
        case Unit(child, ci, cj) =>
          assert Rank(back, ci, cj, child) == 0 && Rank(back, i, j, nt) == 1;
          var childTrees := BuildTrees(back, ci, cj, child, words, tags, maxTrees);
          trees := WrapUnit(back, trees0, i, nt, child, childTrees, words, tags);
        case Binary(b, c, k) =>
          var leftTrees := BuildTrees(back, i, k, b, words, tags, maxTrees);
          var rightTrees := BuildTrees(back, k + 1, j, c, words, tags, maxTrees);
          trees, full := JoinPairs(trees0, i, k, j, nt, leftTrees, rightTrees, words, tags, maxTrees);
      }
    }

    const MaxTrees: nat := 10

    /** `parse`. An empty tag list counts as no tags. */
    method Parse(sentence: seq<string>, posConstraints: Option<seq<Symbol>>) returns (success: bool, trees: Option<seq<Tree>>)
      ensures |sentence| == 0 || Mismatch(sentence, posConstraints) ==> !success && trees == None
      ensures |sentence| > 0 && !Mismatch(sentence, posConstraints) ==>
        (success <==>
           startSymbol.Some? && startSymbol.value in Cell(InputOf(sentence, TagsUsed(posConstraints)), 0, |sentence| - 1))
      ensures success <==> trees.Some?
      ensures success ==> trees.value != [] && forall t :: t in trees.value ==>
        Derives(InputOf(sentence, TagsUsed(posConstraints)), t, 0, |sentence| - 1) && t.nt == startSymbol.value &&
        Yield(t) == sentence && Tupled(t)
      ensures success && |sentence| > 1 ==> |trees.value| <= MaxTrees
    {
      var n := |sentence|;
      if n == 0 {
        return false, None;
      }
      if Given(posConstraints) && |posConstraints.value| != n {
        return false, None;
      }
      var tags := if Given(posConstraints) then posConstraints else None;
      ghost var inp := InputOf(sentence, tags);
      var chart := new set<Symbol>[n, n]((_, _) => {});
      var back := new Ptrs[n, n]((_, _) => map[]);
      FillDiagonal(chart, back, sentence, tags);
      FillSpans(chart, back, sentence, tags);
      CellsBackOk(inp, chart, back);
      assert CellOk(inp, 0, n - 1, chart[0, n - 1], back[0, n - 1]);
      success := startSymbol.Some? && startSymbol.value in chart[0, n - 1];
      if success {
        var ts := BuildTrees(back, 0, n - 1, startSymbol.value, sentence, tags, MaxTrees);
        WholeYields(inp, ts);
        if n > 1 {
          forall e | e in Examined(back[0, n - 1], startSymbol.value, MaxTrees) ensures e.Binary? {
            assert Member(back[0, n - 1], startSymbol.value, e);
          }
        }
        trees := Some(ts);
      } else {
        trees := None;
      }
    }
  }

  // ---------------------------------------------------------------------------------------------
  // Bracket notation

  /** Both `format_tree_bracket`s print a tuple tree as `tuple_to_bracket` does. */
  lemma {:induction false} BracketAgrees(t: Tree)
    requires Tupled(t)
    ensures TreeConversion.Bracket(t) == Parseval.TupleToBracket(t)
    decreases t, 1
  {
    if !IsLeaf(t) {
      KidsAgree(t.kids);
    }
  }

  lemma {:induction false} KidsAgree(kids: seq<Tree>)
    requires kids != [] && forall i :: 0 <= i < |kids| ==> Tupled(kids[i])
    ensures " " + Join(" ", TreeConversion.BracketKids(kids)) == Parseval.ChildParts(kids)
    decreases kids, 0
  {
    BracketAgrees(kids[0]);
    BracketKidsCons(kids);
    var parts := TreeConversion.BracketKids(kids);
    var first := TreeConversion.Bracket(kids[0]);
    assert Parseval.ChildParts(kids) == " " + first + Parseval.ChildParts(kids[1..]);
    if |kids| > 1 {
      KidsAgree(kids[1..]);
      var rest := TreeConversion.BracketKids(kids[1..]);
      assert parts[1..] == rest;
      assert Join(" ", parts) == first + " " + Join(" ", rest);
      assert " " + Join(" ", parts) == " " + first + (" " + Join(" ", rest));
    } else {
      assert parts == [first];
    }
  }

  lemma {:induction false} BracketKidsCons(kids: seq<Tree>)
    requires kids != []
    ensures TreeConversion.BracketKids(kids) == [TreeConversion.Bracket(kids[0])] + TreeConversion.BracketKids(kids[1..])
    decreases |kids|
  {
    if |kids| > 1 {
      var init := kids[..|kids| - 1];
      BracketKidsCons(init);
      assert kids[1..][..|kids[1..]| - 1] == init[1..];
    }
  }

  /** A tree the parser builds, printed in bracket notation, reads back as itself when its
      labels and words are plain words. */
  lemma BracketReadsBack(t: Tree)
    requires Tupled(t) && Parseval.PlainTree(t)
    ensures Parseval.ParseGoldTreeF(TreeConversion.Bracket(t)) == Success(t)
  {
    BracketAgrees(t);
    Parseval.RoundTrip(t);
  }
}
