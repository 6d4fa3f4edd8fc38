// The CFG-to-CNF converter: a grammar object whose five conversion steps rebuild its production
// dictionary in turn, minting fresh nonterminals from one shared counter, and a final check that
// the result is in Chomsky normal form.
module CnfConversion {
  import opened Wrappers
  import opened Text
  import opened Dicts
  import opened Grammars

  const Epsilon: Symbol := "ε"

  /** `d[k]` on a defaultdict(list), without the insertion. */
  function Prods(g: Grammar, k: Symbol): seq<Production> {
    Get(g, k, [])
  }

  /** `d[k].append(p)` on a defaultdict(list). */
  function Append(g: Grammar, k: Symbol, p: Production): (r: Grammar)
    ensures Valid(g) ==> Valid(r)
  {
    Put(g, k, Prods(g, k) + [p])
  }

  /** `if p not in d[k]: d[k].append(p)`; a present `p` means the key is present already. */
  function AppendNew(g: Grammar, k: Symbol, p: Production): (r: Grammar)
    ensures Valid(g) ==> Valid(r)
  {
    if p in Prods(g, k) then g else Append(g, k, p)
  }

  /** Every production list in the grammar is free of repeats. */
  ghost predicate NoRepeats(g: Grammar) {
    forall k :: k in g.m ==> Distinct(g.m[k])
  }

  lemma AppendNewNoRepeats(g: Grammar, k: Symbol, p: Production)
    requires NoRepeats(g)
    ensures NoRepeats(AppendNew(g, k, p))
    ensures forall a, q :: a in AppendNew(g, k, p).m && q in AppendNew(g, k, p).m[a] <==>
      (a in g.m && q in g.m[a]) || (a == k && q == p)
  {
  }

  // ---------------------------------------------------------------------------------------------
  // parse_grammar

  /** How `parse_grammar` stores one production: `['epsilon']` is spelled `['ε']`. */
  function NormalizeEpsilon(p: Production): Production {
    if p == [Epsilon] || p == ["epsilon"] then [Epsilon] else p
  }

  /** The productions of one nonterminal appended in order, spelled as `parse_grammar` stores them. */
  function ParsedProds(g: Grammar, nt: Symbol, prods: seq<Production>): Grammar {
    if prods == [] then g
    else Append(ParsedProds(g, nt, prods[..|prods| - 1]), nt, NormalizeEpsilon(prods[|prods| - 1]))
  }

  /** The grammar `parse_grammar` builds from the first `n` rule entries. */
  function ParsedRules(rules: Grammar, n: nat): Grammar
    requires n <= |rules.keys|
  {
    if n == 0 then Empty()
    else ParsedProds(ParsedRules(rules, n - 1), rules.keys[n - 1], Prods(rules, rules.keys[n - 1]))
  }

  /** The productions as `parse_grammar` stores them, in order. */
  function NormalizedList(ps: seq<Production>): (r: seq<Production>)
    ensures |r| == |ps| && forall i :: 0 <= i < |ps| ==> r[i] == NormalizeEpsilon(ps[i])
  {
    if ps == [] then [] else NormalizedList(ps[..|ps| - 1]) + [NormalizeEpsilon(ps[|ps| - 1])]
  }

  lemma {:induction false} ParsedProdsIsPut(g: Grammar, nt: Symbol, prods: seq<Production>)
    requires prods != []
    ensures ParsedProds(g, nt, prods) == Put(g, nt, Prods(g, nt) + NormalizedList(prods))
  {
    var init := prods[..|prods| - 1];
    var last := NormalizeEpsilon(prods[|prods| - 1]);
    if init != [] {
      ParsedProdsIsPut(g, nt, init);
      var x := Prods(g, nt) + NormalizedList(init);
      assert x + [last] == Prods(g, nt) + NormalizedList(prods);
    } else {
      assert NormalizedList(prods) == [last];
    }
  }

  /** What `parse_grammar` promises of its grammar: a nonterminal is a key exactly when it has
      a production, and its productions are the given ones in order, with `epsilon` spelled `ε`. */
  lemma {:induction false} ParsedRulesShape(rules: Grammar, n: nat)
    requires Valid(rules) && n <= |rules.keys|
    ensures Valid(ParsedRules(rules, n))
    ensures forall k :: k in ParsedRules(rules, n).m <==> k in rules.keys[..n] && rules.m[k] != []
    ensures forall k :: k in ParsedRules(rules, n).m ==>
      |ParsedRules(rules, n).m[k]| == |rules.m[k]| &&
      forall i :: 0 <= i < |rules.m[k]| ==> ParsedRules(rules, n).m[k][i] == NormalizeEpsilon(rules.m[k][i])
  {
    if n > 0 {
      ParsedRulesShape(rules, n - 1);
      assert ParsedShape(rules, n - 1, ParsedRules(rules, n - 1));
      assert ParsedRules(rules, n) ==
        ParsedProds(ParsedRules(rules, n - 1), rules.keys[n - 1], Prods(rules, rules.keys[n - 1]));
      ParsedRulesStep(rules, n, ParsedRules(rules, n - 1), ParsedRules(rules, n));
      assert ParsedShape(rules, n, ParsedRules(rules, n));
    }
  }

  /** The shape `ParsedRulesShape` states, of a grammar `g` built from the first `n` entries. */
  ghost predicate ParsedShape(rules: Grammar, n: nat, g: Grammar)
    requires Valid(rules) && n <= |rules.keys|
  {
    Valid(g) &&
    (forall k :: k in g.m <==> k in rules.keys[..n] && rules.m[k] != []) &&
    forall k :: k in g.m ==>
      |g.m[k]| == |rules.m[k]| && forall i :: 0 <= i < |rules.m[k]| ==> g.m[k][i] == NormalizeEpsilon(rules.m[k][i])
  }

  lemma ParsedRulesStep(rules: Grammar, n: nat, g: Grammar, g2: Grammar)
    requires Valid(rules) && 0 < n <= |rules.keys| && ParsedShape(rules, n - 1, g)
    requires g2 == ParsedProds(g, rules.keys[n - 1], Prods(rules, rules.keys[n - 1]))
    ensures ParsedShape(rules, n, g2)
  {
    var nt := rules.keys[n - 1];
    assert rules.keys[..n] == rules.keys[..n - 1] + [nt];
    assert nt !in rules.keys[..n - 1];
    assert nt !in g.m;
    assert nt in rules.m && Prods(rules, nt) == rules.m[nt];
    if Prods(rules, nt) != [] {
      ParsedProdsIsPut(g, nt, Prods(rules, nt));
      assert Prods(g, nt) == [];
      assert Prods(g, nt) + NormalizedList(rules.m[nt]) == NormalizedList(rules.m[nt]);
      ParsedShapePut(rules, n, g, g2);
    } else {
      ParsedShapeKeep(rules, n, g);
    }
  }

  lemma ParsedShapeKeep(rules: Grammar, n: nat, g: Grammar)
    requires Valid(rules) && 0 < n <= |rules.keys| && ParsedShape(rules, n - 1, g)
    requires rules.keys[..n] == rules.keys[..n - 1] + [rules.keys[n - 1]]
    requires rules.m[rules.keys[n - 1]] == []
    ensures ParsedShape(rules, n, g)
  {
  }

  lemma ParsedShapePut(rules: Grammar, n: nat, g: Grammar, g2: Grammar)
    requires Valid(rules) && 0 < n <= |rules.keys| && ParsedShape(rules, n - 1, g)
    requires rules.keys[..n] == rules.keys[..n - 1] + [rules.keys[n - 1]]
    requires rules.keys[n - 1] !in g.m && rules.m[rules.keys[n - 1]] != []
    requires g2 == Put(g, rules.keys[n - 1], NormalizedList(rules.m[rules.keys[n - 1]]))
    ensures ParsedShape(rules, n, g2)
  {
  }

  // ---------------------------------------------------------------------------------------------
  // parse_grammar_from_string

  /** One `|`-separated alternative: `epsilon` (any case) or `ε` is `['ε']`, anything else its
      whitespace-separated symbols (none at all for a blank alternative). */
  function AltProduction(alt: string): Production {
    var s := Strip(alt);
    if Lower(s) == "epsilon" || s == Epsilon then [Epsilon] else SplitWs(s)
  }

  function AltProductions(alts: seq<string>): (r: seq<Production>)
    ensures |r| == |alts| && forall i :: 0 <= i < |alts| ==> r[i] == AltProduction(alts[i])
  {
    seq(|alts|, i requires 0 <= i < |alts| => AltProduction(alts[i]))
  }

  /** What one line contributes: nothing for a blank line or one without `->`, otherwise the
      stripped text before the first `->` and the alternatives between it and the next `->`. */
  function LineRule(line: string): Option<(Symbol, seq<Production>)> {
    var l := Strip(line);
    if l == [] || !Contains(l, "->") then None
    else
      var parts := SplitOn(l, "->");
      Some((Strip(parts[0]), AltProductions(SplitOn(parts[1], "|"))))
  }

  type Entry = Option<(Symbol, seq<Production>)>

  /** What each line contributes, in order. */
  function Entries(lines: seq<string>): (r: seq<Entry>)
    ensures |r| == |lines| && forall i :: 0 <= i < |lines| ==> r[i] == LineRule(lines[i])
  {
    seq(|lines|, i requires 0 <= i < |lines| => LineRule(lines[i]))
  }

  /** The rule entries in order; a later entry for the same nonterminal replaces the earlier
      one's productions, keeping its place. */
  function EntriesRules(es: seq<Entry>): Grammar {
    if es == [] then Empty()
    else
      var d := EntriesRules(es[..|es| - 1]);
      match es[|es| - 1]
      case None => d
      case Some(r) => Put(d, r.0, r.1)
  }

  lemma EntriesRulesSnoc(es: seq<Entry>, i: nat)
    requires i < |es|
    ensures EntriesRules(es[..i + 1]) ==
      match es[i] case None => EntriesRules(es[..i]) case Some(r) => Put(EntriesRules(es[..i]), r.0, r.1)
  {
    assert es[..i + 1][..i] == es[..i];
  }

  /** The lines of `parse_grammar_from_string`'s argument. */
  function Lines(text: string): seq<string> {
    SplitOn(Strip(text), "\n")
  }

  /** The rule entries `parse_grammar_from_string` hands to `parse_grammar`. */
  function StringRules(text: string): Grammar {
    EntriesRules(Entries(Lines(text)))
  }

  ghost predicate DefinesAt(es: seq<Entry>, i: int, nt: Symbol) {
    0 <= i < |es| && es[i].Some? && es[i].value.0 == nt
  }

  /** A nonterminal has an entry exactly when some line defines it, and the entry holds the
      productions of the last line that does. */
  lemma {:induction false} LastLineWins(es: seq<Entry>)
    ensures Valid(EntriesRules(es))
    ensures forall nt :: nt in EntriesRules(es).m <==> exists i :: DefinesAt(es, i, nt)
    ensures forall nt, i :: DefinesAt(es, i, nt) && (forall j :: i < j < |es| ==> !DefinesAt(es, j, nt)) ==>
      EntriesRules(es).m[nt] == es[i].value.1
  {
    if es != [] {
      var init := es[..|es| - 1];
      var k := |es| - 1;
      LastLineWins(init);
      assert forall i, nt :: 0 <= i < k ==> (DefinesAt(init, i, nt) <==> DefinesAt(es, i, nt));
      forall nt | nt in EntriesRules(es).m ensures exists i :: DefinesAt(es, i, nt) {
        if !DefinesAt(es, k, nt) {
          var i :| DefinesAt(init, i, nt);
          assert DefinesAt(es, i, nt);
        }
      }
      forall nt, i | DefinesAt(es, i, nt) && (forall j :: i < j < |es| ==> !DefinesAt(es, j, nt))
        ensures EntriesRules(es).m[nt] == es[i].value.1
      {
        if i < k {
          assert !DefinesAt(es, k, nt);
          assert DefinesAt(init, i, nt);
        }
      }
    }
  }

  /** An alternative spelling epsilon is `['ε']`; any other is split on whitespace, so each of its
      symbols is a non-empty run of non-space characters. */
  lemma AltProductionFacts(alt: string)
    ensures Lower(Strip(alt)) == "epsilon" || Strip(alt) == Epsilon ==> AltProduction(alt) == [Epsilon]
    ensures !(Lower(Strip(alt)) == "epsilon" || Strip(alt) == Epsilon) ==>
      forall x :: x in AltProduction(alt) ==> x != [] && forall i :: 0 <= i < |x| ==> !IsSpace(x[i])
  {
    SplitWsWords(Strip(alt));
  }

  /** The terminals `parse_grammar` records: rhs symbols that are neither nonterminals nor ε. */
  ghost function TerminalsOf(g: Grammar, nts: set<Symbol>): set<Symbol> {
    RhsSymbols(g) - nts - {Epsilon}
  }

  // ---------------------------------------------------------------------------------------------
  // _generate_new_variable

  /** The candidate name `f"{prefix}{counter}"`. */
  function Name(prefix: string, k: nat): string {
    prefix + NatToString(k)
  }

  /** The counter a name was made from, read back off its digits. */
  function Unname(prefix: string, s: string): nat {
    if |s| >= |prefix| then DigitsValue(s[|prefix|..]) else 0
  }

  lemma UnnameName(prefix: string, k: nat)
    ensures Unname(prefix, Name(prefix, k)) == k
  {
    assert Name(prefix, k)[|prefix|..] == NatToString(k);
    DigitsValueOfNatToString(k);
  }

  /** The names made from the counters `lo` up to but excluding `hi`. */
  ghost function NamesBetween(prefix: string, lo: nat, hi: nat): (r: set<string>)
    requires lo <= hi
    ensures |r| == hi - lo
    ensures forall k :: lo <= k < hi ==> Name(prefix, k) in r
    ensures forall x :: x in r ==> lo <= Unname(prefix, x) < hi && x == Name(prefix, Unname(prefix, x))
    decreases hi - lo
  {
    if lo == hi then {}
    else
      var rest := NamesBetween(prefix, lo, hi - 1);
      UnnameName(prefix, hi - 1);
      assert Name(prefix, hi - 1) !in rest;
      rest + {Name(prefix, hi - 1)}
  }

  /** Names from `lo` up to `hi` all taken bounds how far the counter can have run. */
  lemma TakenNamesBound(prefix: string, nts: set<string>, lo: nat, hi: nat)
    requires lo <= hi
    requires forall k :: lo <= k < hi ==> Name(prefix, k) in nts
    ensures hi - lo <= |nts|
  {
    var taken := NamesBetween(prefix, lo, hi);
    assert taken <= nts;
    SubsetCard(taken, nts);
  }

  lemma {:induction false} SubsetCard<T>(a: set<T>, b: set<T>)
    requires a <= b
    ensures |a| <= |b|
  {
    if a != {} {
      var x :| x in a;
      SubsetCard(a - {x}, b - {x});
    }
  }

  /** The first counter from `k` on whose name is not taken; the counters from `lo` to `k` are. */
  function FreshFrom(prefix: string, nts: set<string>, lo: nat, k: nat): (r: nat)
    requires lo <= k
    requires forall j :: lo <= j < k ==> Name(prefix, j) in nts
    ensures k <= r && Name(prefix, r) !in nts
    ensures forall j :: lo <= j < r ==> Name(prefix, j) in nts
    decreases |nts| - (k - lo)
  {
    TakenNamesBound(prefix, nts, lo, k);
    if Name(prefix, k) !in nts then k
    else
      TakenNamesBound(prefix, nts, lo, k + 1);
      FreshFrom(prefix, nts, lo, k + 1)
  }

  /** The counter `_generate_new_variable` settles on. */
  function Fresh(prefix: string, nts: set<string>, counter: nat): nat {
    FreshFrom(prefix, nts, counter, counter)
  }

  /** The name `_generate_new_variable` returns is the first untaken one from the counter on. */
  lemma FreshIsFirstUntaken(prefix: string, nts: set<string>, counter: nat)
    ensures counter <= Fresh(prefix, nts, counter)
    ensures Name(prefix, Fresh(prefix, nts, counter)) !in nts
    ensures forall j :: counter <= j < Fresh(prefix, nts, counter) ==> Name(prefix, j) in nts
  {
  }

  // ---------------------------------------------------------------------------------------------
  // _start_symbol_on_rhs

  /** `start` occurs in some production listed under one of the first `n` keys. */
  predicate OnRhsBefore(g: Grammar, start: Symbol, n: nat)
    requires n <= |g.keys|
  {
    n > 0 && (OnRhsBefore(g, start, n - 1) || exists p :: p in Prods(g, g.keys[n - 1]) && start in p)
  }

  /** `start` occurs on the right-hand side of some production. */
  ghost predicate OnRhs(g: Grammar, start: Symbol) {
    exists k, p :: k in g.m && p in g.m[k] && start in p
  }

  lemma {:induction false} OnRhsBeforeMeans(g: Grammar, start: Symbol, n: nat)
    requires Valid(g) && n <= |g.keys|
    ensures OnRhsBefore(g, start, n) <==> exists i, p :: 0 <= i < n && p in Prods(g, g.keys[i]) && start in p
  {
    if n > 0 {
      OnRhsBeforeMeans(g, start, n - 1);
    }
  }

  /** Scanning every key finds the start symbol exactly when it is on some right-hand side. */
  lemma OnRhsComplete(g: Grammar, start: Symbol)
    requires Valid(g)
    ensures OnRhsBefore(g, start, |g.keys|) <==> OnRhs(g, start)
  {
    OnRhsBeforeMeans(g, start, |g.keys|);
    if OnRhs(g, start) {
      var k, p :| k in g.m && p in g.m[k] && start in p;
      var i :| 0 <= i < |g.keys| && g.keys[i] == k;
      assert p in Prods(g, g.keys[i]);
    }
  }

  // ---------------------------------------------------------------------------------------------
  // _find_nullable_variables

  /** Every symbol of `p` is in `s`: Python's `all(symbol in s for symbol in p)`. */
  predicate AllIn(p: Production, s: set<Symbol>) {
    forall i :: 0 <= i < |p| ==> p[i] in s
  }

  /** The nonterminals with an `['ε']` production. */
  ghost function DirectlyNullable(g: Grammar): set<Symbol> {
    set k | k in g.m && [Epsilon] in g.m[k]
  }

  /** Closed under "every rhs symbol nullable makes the lhs nullable". */
  ghost predicate NullableClosed(g: Grammar, s: set<Symbol>) {
    forall k, p :: k in g.m && p in g.m[k] && AllIn(p, s) ==> k in s
  }

  /** `s` is the least set containing the direct ε-nonterminals that is closed. */
  ghost predicate LeastNullable(g: Grammar, s: set<Symbol>) {
    DirectlyNullable(g) <= s && NullableClosed(g, s) &&
    forall t :: DirectlyNullable(g) <= t && NullableClosed(g, t) ==> s <= t
  }

  /** The least closed set is unique, so the nullable set is a function of the grammar. */
  lemma LeastNullableUnique(g: Grammar, s: set<Symbol>, t: set<Symbol>)
    requires LeastNullable(g, s) && LeastNullable(g, t)
    ensures s == t
  {
  }

  ghost predicate BelowEveryClosed(g: Grammar, s: set<Symbol>) {
    forall t :: DirectlyNullable(g) <= t && NullableClosed(g, t) ==> s <= t
  }

  /** No production in `prods` has all its symbols in `s`. */
  ghost predicate NoneAllIn(prods: seq<Production>, s: set<Symbol>) {
    forall p :: p in prods ==> !AllIn(p, s)
  }

  lemma BelowAdd(g: Grammar, s: set<Symbol>, k: Symbol, p: Production)
    requires BelowEveryClosed(g, s) && k in g.m && p in g.m[k] && AllIn(p, s)
    ensures BelowEveryClosed(g, s + {k})
  {
    forall t | DirectlyNullable(g) <= t && NullableClosed(g, t) ensures s + {k} <= t {
      assert AllIn(p, t);
    }
  }

  lemma StrictShrink<T>(all: set<T>, before: set<T>, after: set<T>)
    requires before < after <= all
    ensures |all - after| < |all - before|
  {
    assert after - before != {};
    var x :| x in after - before;
    SubsetCard(all - after, all - before - {x});
  }

  // ---------------------------------------------------------------------------------------------
  // _step2_eliminate_epsilon_productions

  /** `[i for i, symbol in enumerate(prod) if symbol in nullable]` */
  function NullablePositions(p: Production, nullable: set<Symbol>): (r: seq<nat>)
    ensures forall i :: i in r <==> 0 <= i < |p| && p[i] in nullable
  {
    if p == [] then []
    else
      var k := |p| - 1;
      assert forall i :: 0 <= i < k ==> p[..k][i] == p[i];
      NullablePositions(p[..k], nullable) + (if p[k] in nullable then [k] else [])
  }

  /** `[symbol for i, symbol in enumerate(prod) if i not in positions_to_remove]` */
  function Without(p: Production, drop: seq<nat>): Production {
    if p == [] then []
    else
      var k := |p| - 1;
      Without(p[..k], drop) + (if k in drop then [] else [p[k]])
  }

  /** `[[x] + c for c in cs]` */
  function Prepend(x: nat, cs: seq<seq<nat>>): (r: seq<seq<nat>>)
    ensures |r| == |cs| && forall i :: 0 <= i < |cs| ==> r[i] == [x] + cs[i]
  {
    seq(|cs|, i requires 0 <= i < |cs| => [x] + cs[i])
  }

  /** `itertools.combinations(xs, r)`, in its lexicographic order. */
  function Combinations(xs: seq<nat>, r: nat): seq<seq<nat>>
    decreases |xs|
  {
    if r == 0 then [[]]
    else if xs == [] then []
    else Prepend(xs[0], Combinations(xs[1..], r - 1)) + Combinations(xs[1..], r)
  }

  /** The combinations of every size below `r`, smaller sizes first. */
  function CombinationsBelow(xs: seq<nat>, r: nat): seq<seq<nat>> {
    if r == 0 then [] else CombinationsBelow(xs, r - 1) + Combinations(xs, r - 1)
  }

  /** One generated production is kept when it is non-empty and new to the nonterminal. */
  function Step2One(g: Grammar, nt: Symbol, q: Production): Grammar {
    if q != [] then AppendNew(g, nt, q) else g
  }

  function Step2Subsets(g: Grammar, nt: Symbol, p: Production, subsets: seq<seq<nat>>): Grammar {
    if subsets == [] then g
    else Step2One(Step2Subsets(g, nt, p, subsets[..|subsets| - 1]), nt, Without(p, subsets[|subsets| - 1]))
  }

  lemma {:induction false} Step2SubsetsConcat(g: Grammar, nt: Symbol, p: Production, a: seq<seq<nat>>, b: seq<seq<nat>>)
    ensures Step2Subsets(g, nt, p, a + b) == Step2Subsets(Step2Subsets(g, nt, p, a), nt, p, b)
  {
    if b == [] {
      assert a + b == a;
    } else {
      var b' := b[..|b| - 1];
      assert (a + b)[..|a + b| - 1] == a + b';
      Step2SubsetsConcat(g, nt, p, a, b');
    }
  }

  /** Every variant of one production with a subset of its nullable positions removed. */
  function Step2Prod(g: Grammar, nt: Symbol, p: Production, nullable: set<Symbol>): Grammar {
    if p == [Epsilon] then g
    else
      var positions := NullablePositions(p, nullable);
      Step2Subsets(g, nt, p, CombinationsBelow(positions, |positions| + 1))
  }

  function Step2Prods(g: Grammar, nt: Symbol, prods: seq<Production>, nullable: set<Symbol>): Grammar {
    if prods == [] then g
    else Step2Prod(Step2Prods(g, nt, prods[..|prods| - 1], nullable), nt, prods[|prods| - 1], nullable)
  }

  function Step2Keys(old_g: Grammar, n: nat, nullable: set<Symbol>): Grammar
    requires n <= |old_g.keys|
  {
    if n == 0 then Empty()
    else Step2Prods(Step2Keys(old_g, n - 1, nullable), old_g.keys[n - 1], Prods(old_g, old_g.keys[n - 1]), nullable)
  }

  /** The grammar step 2 builds. */
  function Step2Result(old_g: Grammar, nullable: set<Symbol>, start: Option<Symbol>): Grammar {
    var g := Step2Keys(old_g, |old_g.keys|, nullable);
    if start.Some? && start.value in nullable then Append(g, start.value, [Epsilon]) else g
  }

  /** `a` lists `q` among its productions. */
  ghost predicate Has(g: Grammar, a: Symbol, q: Production) {
    a in g.m && q in g.m[a]
  }

  /** defaultdict keys appear only when something is appended, so no list is empty. */
  ghost predicate NonEmptyLists(g: Grammar) {
    forall k :: k in g.m ==> g.m[k] != []
  }

  /** The bookkeeping every rebuild of the dictionary keeps. */
  ghost predicate WellBuilt(g: Grammar) {
    Valid(g) && NoRepeats(g) && NonEmptyLists(g)
  }

  lemma AppendNewFacts(g: Grammar, k: Symbol, p: Production)
    requires WellBuilt(g)
    ensures WellBuilt(AppendNew(g, k, p))
    ensures AppendNew(g, k, p).m.Keys == g.m.Keys + {k}
    ensures forall a, q :: Has(AppendNew(g, k, p), a, q) <==> Has(g, a, q) || (a == k && q == p)
  {
    AppendNewNoRepeats(g, k, p);
  }

  /** `drop` names only nullable positions of `p`. */
  predicate DropsNullable(p: Production, drop: seq<nat>, nullable: set<Symbol>) {
    forall i :: i in drop ==> i < |p| && p[i] in nullable
  }

  /** `q` is `p` with some of its nullable symbols left out, and not empty. */
  ghost predicate VariantOf(p: Production, nullable: set<Symbol>, q: Production) {
    p != [Epsilon] && q != [] && exists drop :: DropsNullable(p, drop, nullable) && q == Without(p, drop)
  }

  /** `q` is a non-empty `p` with the positions of one of `subsets` removed. */
  ghost predicate ViaSubset(p: Production, subsets: seq<seq<nat>>, q: Production) {
    q != [] && exists c :: c in subsets && q == Without(p, c)
  }

  lemma {:induction false} Step2SubsetsFacts(g: Grammar, nt: Symbol, p: Production, subsets: seq<seq<nat>>)
    requires WellBuilt(g)
    ensures WellBuilt(Step2Subsets(g, nt, p, subsets))
    ensures Step2Subsets(g, nt, p, subsets).m.Keys <= g.m.Keys + {nt}
    ensures forall a, q :: Has(Step2Subsets(g, nt, p, subsets), a, q) <==>
      Has(g, a, q) || (a == nt && ViaSubset(p, subsets, q))
  {
    if subsets != [] {
      var init := subsets[..|subsets| - 1];
      var c := subsets[|subsets| - 1];
      Step2SubsetsFacts(g, nt, p, init);
      var h := Step2Subsets(g, nt, p, init);
      if Without(p, c) != [] {
        AppendNewFacts(h, nt, Without(p, c));
      }
      assert forall d :: d in subsets <==> d in init || d == c;
    }
  }

  /** A combination picks its elements from `xs`. */
  lemma CombinationMembers(xs: seq<nat>, r: nat, c: seq<nat>)
    requires c in Combinations(xs, r)
    ensures forall i :: i in c ==> i in xs
  {
    var k :| 0 <= k < |Combinations(xs, r)| && Combinations(xs, r)[k] == c;
    CombinationAtMembers(xs, r, k);
  }

  lemma {:induction false} CombinationAtMembers(xs: seq<nat>, r: nat, k: nat)
    requires k < |Combinations(xs, r)|
    ensures forall i :: i in Combinations(xs, r)[k] ==> i in xs
    decreases |xs|
  {
    if r > 0 && xs != [] {
      var sub := Combinations(xs[1..], r - 1);
      var rest := Combinations(xs[1..], r);
      assert Combinations(xs, r) == Prepend(xs[0], sub) + rest;
      if k < |sub| {
        CombinationAtMembers(xs[1..], r - 1, k);
        HeadMembers(xs, sub[k], Combinations(xs, r)[k]);
      } else {
        CombinationAtMembers(xs[1..], r, k - |sub|);
        assert Combinations(xs, r)[k] == rest[k - |sub|];
        TailMembers(xs, rest[k - |sub|]);
      }
    }
  }

  lemma HeadMembers(xs: seq<nat>, d: seq<nat>, c: seq<nat>)
    requires xs != [] && c == [xs[0]] + d && forall i :: i in d ==> i in xs[1..]
    ensures forall i :: i in c ==> i in xs
  {
    forall i | i in c ensures i in xs {
      if i != xs[0] {
        assert i in d && i in xs[1..];
      }
    }
  }

  lemma TailMembers(xs: seq<nat>, c: seq<nat>)
    requires xs != [] && forall i :: i in c ==> i in xs[1..]
    ensures forall i :: i in c ==> i in xs
  {
    forall i | i in c ensures i in xs {
      assert i in xs[1..];
    }
  }

  lemma {:induction false} CombinationsBelowMembers(xs: seq<nat>, r: nat, c: seq<nat>)
    requires c in CombinationsBelow(xs, r)
    ensures forall i :: i in c ==> i in xs
  {
    if c in CombinationsBelow(xs, r - 1) {
      CombinationsBelowMembers(xs, r - 1, c);
    } else {
      CombinationMembers(xs, r - 1, c);
    }
  }

  /** The elements of `xs` that `d` lists, in the order of `xs`. */
  function Filter(xs: seq<nat>, d: seq<nat>): (r: seq<nat>)
    ensures |r| <= |xs|
    ensures forall i :: i in r <==> i in xs && i in d
  {
    if xs == [] then [] else (if xs[0] in d then [xs[0]] else []) + Filter(xs[1..], d)
  }

  /** Every sub-list of `xs` is one of its combinations of that size. */
  lemma {:induction false} FilterIsCombination(xs: seq<nat>, d: seq<nat>)
    ensures Filter(xs, d) in Combinations(xs, |Filter(xs, d)|)
    decreases |xs|
  {
    if xs != [] {
      var rest := Filter(xs[1..], d);
      FilterIsCombination(xs[1..], d);
      if xs[0] in d {
        var cs := Combinations(xs[1..], |rest|);
        var j :| 0 <= j < |cs| && cs[j] == rest;
        assert Prepend(xs[0], cs)[j] == Filter(xs, d);
      } else if rest != [] {
        assert Filter(xs, d) == rest;
      }
    }
  }

  lemma {:induction false} CombinationInBelow(xs: seq<nat>, k: nat, r: nat, c: seq<nat>)
    requires k < r && c in Combinations(xs, k)
    ensures c in CombinationsBelow(xs, r)
  {
    var before, now := CombinationsBelow(xs, r - 1), Combinations(xs, r - 1);
    assert CombinationsBelow(xs, r) == before + now;
    if k < r - 1 {
      CombinationInBelow(xs, k, r - 1, c);
      assert c in before;
    } else {
      assert c in now;
    }
  }

  /** Leaving out positions depends only on which positions of `p` are listed. */
  lemma {:induction false} WithoutSameMembers(p: Production, c: seq<nat>, d: seq<nat>)
    requires forall i :: 0 <= i < |p| ==> (i in c <==> i in d)
    ensures Without(p, c) == Without(p, d)
  {
    if p != [] {
      WithoutSameMembers(p[..|p| - 1], c, d);
    }
  }

  lemma {:induction false} WithoutSymbols(p: Production, d: seq<nat>)
    ensures forall x :: x in Without(p, d) ==> x in p
  {
    if p != [] {
      WithoutSymbols(p[..|p| - 1], d);
    }
  }

  /** Trying every combination of every size reaches exactly the variants of `p`. */
  lemma VariantsByCombinations(p: Production, nullable: set<Symbol>, q: Production)
    requires p != [Epsilon]
    ensures ViaSubset(p, CombinationsBelow(NullablePositions(p, nullable), |NullablePositions(p, nullable)| + 1), q)
      <==> VariantOf(p, nullable, q)
  {
    var xs := NullablePositions(p, nullable);
    var all := CombinationsBelow(xs, |xs| + 1);
    if q != [] && exists c :: c in all && q == Without(p, c) {
      var c :| c in all && q == Without(p, c);
      CombinationsBelowMembers(xs, |xs| + 1, c);
      assert DropsNullable(p, c, nullable);
    }
    if VariantOf(p, nullable, q) {
      var drop :| DropsNullable(p, drop, nullable) && q == Without(p, drop);
      var c := Filter(xs, drop);
      FilterIsCombination(xs, drop);
      CombinationInBelow(xs, |c|, |xs| + 1, c);
      WithoutSameMembers(p, c, drop);
    }
  }

  lemma Step2ProdFacts(g: Grammar, nt: Symbol, p: Production, nullable: set<Symbol>)
    requires WellBuilt(g)
    ensures WellBuilt(Step2Prod(g, nt, p, nullable))
    ensures Step2Prod(g, nt, p, nullable).m.Keys <= g.m.Keys + {nt}
    ensures forall a, q :: Has(Step2Prod(g, nt, p, nullable), a, q) <==>
      Has(g, a, q) || (a == nt && VariantOf(p, nullable, q))
  {
    if p != [Epsilon] {
      var xs := NullablePositions(p, nullable);
      Step2VariantsFacts(g, nt, p, nullable);
      assert Step2Prod(g, nt, p, nullable) == Step2Subsets(g, nt, p, CombinationsBelow(xs, |xs| + 1));
    }
  }

  lemma Step2VariantsFacts(g: Grammar, nt: Symbol, p: Production, nullable: set<Symbol>)
    requires WellBuilt(g) && p != [Epsilon]
    ensures var xs := NullablePositions(p, nullable);
      var r := Step2Subsets(g, nt, p, CombinationsBelow(xs, |xs| + 1));
      WellBuilt(r) && r.m.Keys <= g.m.Keys + {nt} &&
      forall a, q :: Has(r, a, q) <==> Has(g, a, q) || (a == nt && VariantOf(p, nullable, q))
  {
    var xs := NullablePositions(p, nullable);
    var subsets := CombinationsBelow(xs, |xs| + 1);
    var r := Step2Subsets(g, nt, p, subsets);
    Step2SubsetsFacts(g, nt, p, subsets);
    forall a, q ensures Has(r, a, q) <==> Has(g, a, q) || (a == nt && VariantOf(p, nullable, q)) {
      VariantsByCombinations(p, nullable, q);
    }
  }

  lemma {:induction false} Step2ProdsFacts(g: Grammar, nt: Symbol, prods: seq<Production>, nullable: set<Symbol>)
    requires WellBuilt(g)
    ensures WellBuilt(Step2Prods(g, nt, prods, nullable))
    ensures Step2Prods(g, nt, prods, nullable).m.Keys <= g.m.Keys + {nt}
    ensures forall a, q :: Has(Step2Prods(g, nt, prods, nullable), a, q) <==>
      Has(g, a, q) || (a == nt && exists p :: p in prods && VariantOf(p, nullable, q))
  {
    if prods != [] {
      var init := prods[..|prods| - 1];
      Step2ProdsFacts(g, nt, init, nullable);
      Step2ProdFacts(Step2Prods(g, nt, init, nullable), nt, prods[|prods| - 1], nullable);
      assert forall p :: p in prods <==> p in init || p == prods[|prods| - 1];
    }
  }

  /** `q` is a variant of some production of `nt` in the grammar before step 2. */
  ghost predicate Step2Variant(old_g: Grammar, nullable: set<Symbol>, nt: Symbol, q: Production) {
    exists p :: p in Prods(old_g, nt) && VariantOf(p, nullable, q)
  }

  lemma {:induction false} Step2KeysFacts(old_g: Grammar, n: nat, nullable: set<Symbol>)
    requires Valid(old_g) && n <= |old_g.keys|
    ensures WellBuilt(Step2Keys(old_g, n, nullable))
    ensures Step2Keys(old_g, n, nullable).m.Keys <= set k | k in old_g.keys[..n]
    ensures forall a, q :: Has(Step2Keys(old_g, n, nullable), a, q) <==>
      a in old_g.keys[..n] && Step2Variant(old_g, nullable, a, q)
  {
    if n > 0 {
      Step2KeysFacts(old_g, n - 1, nullable);
      var nt := old_g.keys[n - 1];
      var prev := Step2Keys(old_g, n - 1, nullable);
      Step2ProdsFacts(prev, nt, Prods(old_g, nt), nullable);
      assert Step2Keys(old_g, n, nullable) == Step2Prods(prev, nt, Prods(old_g, nt), nullable);
      assert old_g.keys[..n] == old_g.keys[..n - 1] + [nt];
      Step2KeysStep(old_g, n, nullable, prev, Step2Keys(old_g, n, nullable));
    }
  }

  /** One more key: its variants join those of the earlier keys. */
  lemma Step2KeysStep(old_g: Grammar, n: nat, nullable: set<Symbol>, prev: Grammar, next: Grammar)
    requires Valid(old_g) && 0 < n <= |old_g.keys|
    requires forall a, q :: Has(prev, a, q) <==> a in old_g.keys[..n - 1] && Step2Variant(old_g, nullable, a, q)
    requires forall a, q :: Has(next, a, q) <==> (Has(prev, a, q) ||
      (a == old_g.keys[n - 1] && exists p :: p in Prods(old_g, old_g.keys[n - 1]) && VariantOf(p, nullable, q)))
    ensures forall a, q :: Has(next, a, q) <==> a in old_g.keys[..n] && Step2Variant(old_g, nullable, a, q)
  {
    var nt := old_g.keys[n - 1];
    assert old_g.keys[..n] == old_g.keys[..n - 1] + [nt];
    assert nt !in old_g.keys[..n - 1];
    forall a, q ensures Has(next, a, q) <==> a in old_g.keys[..n] && Step2Variant(old_g, nullable, a, q) {
      if a == nt {
        assert !Has(prev, a, q);
      }
    }
  }

  /** Step 2's whole effect: a nonterminal lists exactly the non-empty variants of its old
      non-ε productions, plus `['ε']` for a nullable start symbol; no list is empty. */
  lemma Step2ResultFacts(old_g: Grammar, nullable: set<Symbol>, start: Option<Symbol>)
    requires Valid(old_g)
    ensures Valid(Step2Result(old_g, nullable, start)) && NonEmptyLists(Step2Result(old_g, nullable, start))
    ensures Step2Result(old_g, nullable, start).m.Keys <=
      old_g.m.Keys + (if start.Some? && start.value in nullable then {start.value} else {})
    ensures forall a, q :: Has(Step2Result(old_g, nullable, start), a, q) <==>
      Step2Variant(old_g, nullable, a, q) ||
      (start.Some? && start.value in nullable && a == start.value && q == [Epsilon])
  {
    var n := |old_g.keys|;
    Step2KeysFacts(old_g, n, nullable);
    assert old_g.keys[..n] == old_g.keys;
    forall a, q | Step2Variant(old_g, nullable, a, q) ensures a in old_g.keys {
      var p :| p in Prods(old_g, a) && VariantOf(p, nullable, q);
    }
  }

  /** Step 2 never lists an empty production. */
  lemma Step2NoEmptyProduction(old_g: Grammar, nullable: set<Symbol>, start: Option<Symbol>, a: Symbol)
    requires Valid(old_g)
    ensures [] !in Prods(Step2Result(old_g, nullable, start), a)
  {
    Step2ResultFacts(old_g, nullable, start);
    assert !Has(Step2Result(old_g, nullable, start), a, []);
  }

  /** Every non-ε production survives with each choice of its nullable positions left out,
      whenever something is left. */
  lemma Step2KeepsEveryVariant(old_g: Grammar, nullable: set<Symbol>, start: Option<Symbol>,
                               nt: Symbol, p: Production, drop: seq<nat>)
    requires Valid(old_g)
    requires p in Prods(old_g, nt) && p != [Epsilon]
    requires DropsNullable(p, drop, nullable) && Without(p, drop) != []
    ensures Without(p, drop) in Prods(Step2Result(old_g, nullable, start), nt)
  {
    Step2ResultFacts(old_g, nullable, start);
    assert VariantOf(p, nullable, Without(p, drop));
    assert Step2Variant(old_g, nullable, nt, Without(p, drop));
  }

  /** `ε` appears only as the whole production `['ε']`. */
  ghost predicate EpsilonAlone(g: Grammar) {
    forall k, p :: Has(g, k, p) && Epsilon in p ==> p == [Epsilon]
  }

  /** When `ε` only ever stands alone, step 2 leaves `['ε']` at a nullable start symbol and
      nowhere else, and no nonterminal lists a production twice. */
  lemma Step2EpsilonOnlyAtStart(old_g: Grammar, nullable: set<Symbol>, start: Option<Symbol>)
    requires Valid(old_g) && EpsilonAlone(old_g)
    ensures NoRepeats(Step2Result(old_g, nullable, start))
    ensures forall a :: Has(Step2Result(old_g, nullable, start), a, [Epsilon]) ==>
      start == Some(a) && a in nullable
  {
    Step2NoEpsilonVariant(old_g, nullable);
    Step2ResultFacts(old_g, nullable, start);
    Step2ResultNoRepeats(old_g, nullable, start);
  }

  /** With `ε` standing alone, dropping nullable symbols never leaves `['ε']`. */
  lemma Step2NoEpsilonVariant(old_g: Grammar, nullable: set<Symbol>)
    requires EpsilonAlone(old_g)
    ensures forall a :: !Step2Variant(old_g, nullable, a, [Epsilon])
  {
    forall a, p, drop | p in Prods(old_g, a) && p != [Epsilon] && DropsNullable(p, drop, nullable)
      ensures Without(p, drop) != [Epsilon]
    {
      WithoutSymbols(p, drop);
      assert Has(old_g, a, p);
    }
  }

  lemma Step2ResultNoRepeats(old_g: Grammar, nullable: set<Symbol>, start: Option<Symbol>)
    requires Valid(old_g)
    requires forall a :: !Step2Variant(old_g, nullable, a, [Epsilon])
    ensures NoRepeats(Step2Result(old_g, nullable, start))
  {
    var n := |old_g.keys|;
    Step2KeysFacts(old_g, n, nullable);
    var g := Step2Keys(old_g, n, nullable);
    if start.Some? && start.value in nullable {
      assert !Has(g, start.value, [Epsilon]);
      assert [Epsilon] !in Prods(g, start.value);
    }
  }

  // ---------------------------------------------------------------------------------------------
  // _step3_eliminate_unit_productions

  type Pair = (Symbol, Symbol)

  /** `len(prod) == 1 and prod[0] in self.non_terminals` */
  predicate IsUnit(p: Production, nts: set<Symbol>) {
    |p| == 1 && p[0] in nts
  }

  /** The pairs the closure starts from: `(A, A)` for every nonterminal, `(A, B)` for `A -> B`. */
  ghost function UnitSeeds(g: Grammar, nts: set<Symbol>): set<Pair> {
    (set a | a in nts :: (a, a)) + (set k, p | k in g.m && p in g.m[k] && IsUnit(p, nts) :: (k, p[0]))
  }

  /** The direct unit pairs of the first `i + 1` keys: those of the first `i` and those of key `i`. */
  lemma UnitPairsSnoc(g: Grammar, nts: set<Symbol>, i: nat)
    requires i < |g.keys|
    ensures (set k, p | k in g.keys[..i + 1] && p in Prods(g, k) && IsUnit(p, nts) :: (k, p[0])) ==
      (set k, p | k in g.keys[..i] && p in Prods(g, k) && IsUnit(p, nts) :: (k, p[0])) +
      (set p | p in Prods(g, g.keys[i]) && IsUnit(p, nts) :: (g.keys[i], p[0]))
  {
    assert g.keys[..i + 1] == g.keys[..i] + [g.keys[i]];
  }

  ghost predicate TransitivelyClosed(s: set<Pair>) {
    forall x, y :: x in s && y in s && x.1 == y.0 ==> (x.0, y.1) in s
  }

  /** `s` is the least transitively closed set of pairs containing the seeds. */
  ghost predicate LeastUnitPairs(g: Grammar, nts: set<Symbol>, s: set<Pair>) {
    UnitSeeds(g, nts) <= s && TransitivelyClosed(s) &&
    forall t :: UnitSeeds(g, nts) <= t && TransitivelyClosed(t) ==> s <= t
  }

  ghost predicate BelowEveryTransitive(g: Grammar, nts: set<Symbol>, s: set<Pair>) {
    forall t :: UnitSeeds(g, nts) <= t && TransitivelyClosed(t) ==> s <= t
  }

  /** One round of the closure loop: the composed pairs not yet present. */
  ghost function Composed(s: set<Pair>): set<Pair> {
    set x, y | x in s && y in s && x.1 == y.0 :: (x.0, y.1)
  }

  ghost function Square(c: set<Symbol>): set<Pair> {
    set a, b | a in c && b in c :: (a, b)
  }

  lemma BelowCompose(g: Grammar, nts: set<Symbol>, s: set<Pair>)
    requires BelowEveryTransitive(g, nts, s)
    ensures BelowEveryTransitive(g, nts, s + Composed(s))
  {
    forall t | UnitSeeds(g, nts) <= t && TransitivelyClosed(t) ensures s + Composed(s) <= t {
      forall z | z in Composed(s) ensures z in t {
        var x, y :| x in s && y in s && x.1 == y.0 && z == (x.0, y.1);
      }
    }
  }

  lemma SeedsInSquare(g: Grammar, nts: set<Symbol>)
    requires g.m.Keys <= nts
    ensures UnitSeeds(g, nts) <= Square(nts)
  {
  }

  lemma ComposedInSquare(nts: set<Symbol>, s: set<Pair>)
    requires s <= Square(nts)
    ensures Composed(s) <= Square(nts)
  {
    forall z | z in Composed(s) ensures z in Square(nts) {
      var x, y :| x in s && y in s && x.1 == y.0 && z == (x.0, y.1);
    }
  }

  /** `a` inherits `q` through some unit pair `(a, b)`: a non-unit production of `b`. */
  ghost predicate Inherited(g: Grammar, nts: set<Symbol>, pairs: set<Pair>, a: Symbol, q: Production) {
    exists b :: (a, b) in pairs && q in Prods(g, b) && !IsUnit(q, nts)
  }

  /** What step 3 builds: every nonterminal lists, once each, exactly its inherited productions. */
  ghost predicate Step3Built(g: Grammar, nts: set<Symbol>, pairs: set<Pair>, r: Grammar) {
    WellBuilt(r) && forall a, q :: Has(r, a, q) <==> Inherited(g, nts, pairs, a, q)
  }

  /** The inner loop over the productions of `b`, appending the non-unit ones to `a`. */
  function Step3Prods(g: Grammar, a: Symbol, prods: seq<Production>, nts: set<Symbol>): Grammar {
    if prods == [] then g
    else
      var h := Step3Prods(g, a, prods[..|prods| - 1], nts);
      var q := prods[|prods| - 1];
      if IsUnit(q, nts) then h else AppendNew(h, a, q)
  }

  lemma {:induction false} Step3ProdsFacts(g: Grammar, a: Symbol, prods: seq<Production>, nts: set<Symbol>)
    requires WellBuilt(g)
    ensures WellBuilt(Step3Prods(g, a, prods, nts))
    ensures Step3Prods(g, a, prods, nts).m.Keys <= g.m.Keys + {a}
    ensures forall x, q :: Has(Step3Prods(g, a, prods, nts), x, q) <==>
      Has(g, x, q) || (x == a && q in prods && !IsUnit(q, nts))
  {
    if prods != [] {
      var init := prods[..|prods| - 1];
      Step3ProdsFacts(g, a, init, nts);
      var q := prods[|prods| - 1];
      if !IsUnit(q, nts) {
        AppendNewFacts(Step3Prods(g, a, init, nts), a, q);
      }
      assert forall p :: p in prods <==> p in init || p == q;
    }
  }

  /** Handling one more unit pair `(a, b)` adds the non-unit productions of `b` to `a`. */
  lemma Step3BuiltStep(g: Grammar, nts: set<Symbol>, done: set<Pair>, ab: Pair, r: Grammar, r2: Grammar)
    requires Step3Built(g, nts, done, r)
    requires r2 == if ab.1 in g.m then Step3Prods(r, ab.0, Prods(g, ab.1), nts) else r
    ensures Step3Built(g, nts, done + {ab}, r2)
    ensures r2.m.Keys <= r.m.Keys + {ab.0}
  {
    Step3ProdsFacts(r, ab.0, Prods(g, ab.1), nts);
    assert r2 == Step3Prods(r, ab.0, Prods(g, ab.1), nts);
    forall a, q ensures Has(r2, a, q) <==> Inherited(g, nts, done + {ab}, a, q) {
      if Inherited(g, nts, done + {ab}, a, q) {
        var b :| (a, b) in done + {ab} && q in Prods(g, b) && !IsUnit(q, nts);
        if (a, b) != ab {
          assert Inherited(g, nts, done, a, q);
        }
      }
      if Inherited(g, nts, done, a, q) {
        var b :| (a, b) in done && q in Prods(g, b) && !IsUnit(q, nts);
        assert (a, b) in done + {ab};
      }
      if a == ab.0 && q in Prods(g, ab.1) && !IsUnit(q, nts) {
        assert (a, ab.1) in done + {ab};
      }
    }
  }

  /** Step 3 leaves no unit production behind. */
  lemma Step3NoUnitProduction(g: Grammar, nts: set<Symbol>, pairs: set<Pair>, r: Grammar, a: Symbol, q: Production)
    requires Step3Built(g, nts, pairs, r) && q in Prods(r, a)
    ensures !IsUnit(q, nts)
  {
    assert Has(r, a, q);
  }

  /** After step 3, `a` lists every non-unit production of every `b` it reaches by unit steps. */
  lemma Step3InheritsAll(g: Grammar, nts: set<Symbol>, pairs: set<Pair>, r: Grammar, a: Symbol, b: Symbol, q: Production)
    requires Step3Built(g, nts, pairs, r) && (a, b) in pairs && q in Prods(g, b) && !IsUnit(q, nts)
    ensures q in Prods(r, a)
  {
    assert Inherited(g, nts, pairs, a, q);
  }

  // ---------------------------------------------------------------------------------------------
  // _step4_replace_terminals_in_mixed_rules

  /** What step 4 threads through its loops: the dictionary being built, the nonterminals and
      counter `_generate_new_variable` updates, and `terminal_vars`. */
  datatype Step4State = Step4State(g: Grammar, nts: set<Symbol>, counter: nat, tvars: map<Symbol, Symbol>)

  /** One symbol of a production of length other than one: a terminal is replaced by its `T`
      variable, minted with its rule `T -> [terminal]` on first use. */
  function Step4Symbol(s: Step4State, terminals: set<Symbol>, x: Symbol): (Step4State, Symbol) {
    if x !in terminals then (s, x)
    else if x in s.tvars then (s, s.tvars[x])
    else
      var k := Fresh("T", s.nts, s.counter);
      var v := Name("T", k);
      (Step4State(Put(s.g, v, [[x]]), s.nts + {v}, k + 1, s.tvars[x := v]), v)
  }

  function Step4Symbols(s: Step4State, terminals: set<Symbol>, p: Production): (Step4State, Production) {
    if p == [] then (s, [])
    else
      var r1 := Step4Symbols(s, terminals, p[..|p| - 1]);
      var r2 := Step4Symbol(r1.0, terminals, p[|p| - 1]);
      (r2.0, r1.1 + [r2.1])
  }

  function Step4Prod(s: Step4State, terminals: set<Symbol>, nt: Symbol, p: Production): Step4State {
    if |p| == 1 then s.(g := AppendNew(s.g, nt, p))
    else
      var r := Step4Symbols(s, terminals, p);
      r.0.(g := AppendNew(r.0.g, nt, r.1))
  }

  function Step4Prods(s: Step4State, terminals: set<Symbol>, nt: Symbol, prods: seq<Production>): Step4State {
    if prods == [] then s
    else Step4Prod(Step4Prods(s, terminals, nt, prods[..|prods| - 1]), terminals, nt, prods[|prods| - 1])
  }

  function Step4Keys(old_g: Grammar, n: nat, s: Step4State, terminals: set<Symbol>): Step4State
    requires n <= |old_g.keys|
  {
    if n == 0 then s
    else
      var nt := old_g.keys[n - 1];
      Step4Prods(Step4Keys(old_g, n - 1, s, terminals), terminals, nt, Prods(old_g, nt))
  }

  /** The state step 4 ends in, from the grammar, nonterminals and counter it starts with. */
  function Step4Result(old_g: Grammar, nts: set<Symbol>, counter: nat, terminals: set<Symbol>): Step4State {
    Step4Keys(old_g, |old_g.keys|, Step4State(Empty(), nts, counter, map[]), terminals)
  }

  /** `new_prod`: every terminal of `p` replaced by its variable. */
  function Replaced(p: Production, terminals: set<Symbol>, tv: map<Symbol, Symbol>): (r: Production)
    ensures |r| == |p|
  {
    seq(|p|, i requires 0 <= i < |p| => if p[i] in terminals && p[i] in tv then tv[p[i]] else p[i])
  }

  /** What step 4 makes of one production: single symbols stay, longer rules are replaced. */
  function Step4Image(p: Production, terminals: set<Symbol>, tv: map<Symbol, Symbol>): Production {
    if |p| == 1 then p else Replaced(p, terminals, tv)
  }

  /** Every terminal of `p` has its variable. */
  predicate Covered(p: Production, terminals: set<Symbol>, tv: map<Symbol, Symbol>) {
    forall i :: 0 <= i < |p| && p[i] in terminals ==> p[i] in tv
  }

  ghost predicate Extends(tv: map<Symbol, Symbol>, tv2: map<Symbol, Symbol>) {
    forall t :: t in tv ==> t in tv2 && tv2[t] == tv[t]
  }

  /** The minted variables: each is fresh, named `T<k>`, and has the sole rule `[terminal]`. */
  ghost predicate Step4Inv(s: Step4State, nts0: set<Symbol>, terminals: set<Symbol>) {
    WellBuilt(s.g) && s.g.m.Keys <= s.nts && nts0 <= s.nts &&
    (forall a :: a in s.g.m ==> a in nts0 || a in s.tvars.Values) &&
    forall t :: t in s.tvars ==>
      t in terminals && s.tvars[t] in s.nts && s.tvars[t] !in nts0 &&
      Prods(s.g, s.tvars[t]) == [[t]] && s.tvars[t] == Name("T", Unname("T", s.tvars[t]))
  }

  lemma ImageStable(p: Production, terminals: set<Symbol>, tv: map<Symbol, Symbol>, tv2: map<Symbol, Symbol>)
    requires (|p| != 1 ==> Covered(p, terminals, tv)) && Extends(tv, tv2)
    ensures Step4Image(p, terminals, tv) == Step4Image(p, terminals, tv2)
  {
  }

  lemma Step4SymbolFacts(s: Step4State, terminals: set<Symbol>, x: Symbol, nts0: set<Symbol>)
    requires Step4Inv(s, nts0, terminals)
    ensures Step4Inv(Step4Symbol(s, terminals, x).0, nts0, terminals)
    ensures Extends(s.tvars, Step4Symbol(s, terminals, x).0.tvars)
    ensures x in terminals ==>
      x in Step4Symbol(s, terminals, x).0.tvars && Step4Symbol(s, terminals, x).1 == Step4Symbol(s, terminals, x).0.tvars[x]
    ensures x !in terminals ==> Step4Symbol(s, terminals, x).1 == x
    ensures forall a :: a in nts0 ==> Prods(Step4Symbol(s, terminals, x).0.g, a) == Prods(s.g, a)
  {
    if x in terminals && x !in s.tvars {
      var k := Fresh("T", s.nts, s.counter);
      FreshIsFirstUntaken("T", s.nts, s.counter);
      Step4MintFacts(s, terminals, x, nts0, k);
    }
  }

  /** Minting `T<k>` for a terminal met for the first time keeps the invariant. */
  lemma Step4MintFacts(s: Step4State, terminals: set<Symbol>, x: Symbol, nts0: set<Symbol>, k: nat)
    requires Step4Inv(s, nts0, terminals)
    requires x in terminals && x !in s.tvars && Name("T", k) !in s.nts
    ensures var v := Name("T", k);
      var s2 := Step4State(Put(s.g, v, [[x]]), s.nts + {v}, k + 1, s.tvars[x := v]);
      Step4Inv(s2, nts0, terminals) && Extends(s.tvars, s2.tvars) &&
      forall a :: a in nts0 ==> Prods(s2.g, a) == Prods(s.g, a)
  {
    var v := Name("T", k);
    var s2 := Step4State(Put(s.g, v, [[x]]), s.nts + {v}, k + 1, s.tvars[x := v]);
    Step4MintKeys(s, terminals, x, nts0, k, s2);
    Step4MintTvars(s, terminals, x, nts0, k, s2);
  }

  /** The minted variable is a key of its own, tied to `x`; no old key changes. */
  lemma Step4MintKeys(s: Step4State, terminals: set<Symbol>, x: Symbol, nts0: set<Symbol>, k: nat, s2: Step4State)
    requires Step4Inv(s, nts0, terminals)
    requires x in terminals && x !in s.tvars && Name("T", k) !in s.nts
    requires s2 == Step4State(Put(s.g, Name("T", k), [[x]]), s.nts + {Name("T", k)}, k + 1, s.tvars[x := Name("T", k)])
    ensures WellBuilt(s2.g) && s2.g.m.Keys <= s2.nts && nts0 <= s2.nts
    ensures forall a :: a in s2.g.m ==> a in nts0 || a in s2.tvars.Values
    ensures Extends(s.tvars, s2.tvars)
    ensures forall a :: a in nts0 ==> Prods(s2.g, a) == Prods(s.g, a)
  {
    var v := Name("T", k);
    assert v !in s.g.m && v !in nts0;
    forall a | a in s.tvars.Values ensures a in s2.tvars.Values {
      var t :| t in s.tvars && s.tvars[t] == a;
      assert s2.tvars[t] == a;
    }
    assert s2.tvars[x] == v;
  }

  /** The variable minted for `x` joins the others: each names its one rule `T -> [t]`. */
  lemma Step4MintTvars(s: Step4State, terminals: set<Symbol>, x: Symbol, nts0: set<Symbol>, k: nat, s2: Step4State)
    requires Step4Inv(s, nts0, terminals)
    requires x in terminals && x !in s.tvars && Name("T", k) !in s.nts
    requires s2 == Step4State(Put(s.g, Name("T", k), [[x]]), s.nts + {Name("T", k)}, k + 1, s.tvars[x := Name("T", k)])
    ensures forall t :: t in s2.tvars ==>
      t in terminals && s2.tvars[t] in s2.nts && s2.tvars[t] !in nts0 &&
      Prods(s2.g, s2.tvars[t]) == [[t]] && s2.tvars[t] == Name("T", Unname("T", s2.tvars[t]))
  {
    var v := Name("T", k);
    UnnameName("T", k);
    forall t | t in s2.tvars
      ensures t in terminals && s2.tvars[t] in s2.nts && s2.tvars[t] !in nts0 &&
        Prods(s2.g, s2.tvars[t]) == [[t]] && s2.tvars[t] == Name("T", Unname("T", s2.tvars[t]))
    {
      if t == x {
        assert s2.tvars[t] == v && Prods(s2.g, v) == [[x]];
      } else {
        assert s2.tvars[t] == s.tvars[t] && s.tvars[t] in s.nts;
        assert s.tvars[t] != v;
        assert Prods(s2.g, s.tvars[t]) == Prods(s.g, s.tvars[t]);
      }
    }
  }

  lemma {:induction false} Step4SymbolsFacts(s: Step4State, terminals: set<Symbol>, p: Production, nts0: set<Symbol>)
    requires Step4Inv(s, nts0, terminals)
    ensures Step4Inv(Step4Symbols(s, terminals, p).0, nts0, terminals)
    ensures Extends(s.tvars, Step4Symbols(s, terminals, p).0.tvars)
    ensures Covered(p, terminals, Step4Symbols(s, terminals, p).0.tvars)
    ensures Step4Symbols(s, terminals, p).1 == Replaced(p, terminals, Step4Symbols(s, terminals, p).0.tvars)
    ensures forall a :: a in nts0 ==> Prods(Step4Symbols(s, terminals, p).0.g, a) == Prods(s.g, a)
  {
    if p != [] {
      Step4SymbolsFacts(s, terminals, p[..|p| - 1], nts0);
      var r1 := Step4Symbols(s, terminals, p[..|p| - 1]);
      var r2 := Step4Symbol(r1.0, terminals, p[|p| - 1]);
      assert Step4Symbols(s, terminals, p) == (r2.0, r1.1 + [r2.1]);
      Step4SymbolFacts(r1.0, terminals, p[|p| - 1], nts0);
      Step4SymbolsStep(p, terminals, r1, r2);
    }
  }

  /** `r1` is what the symbols of `p` but the last give, `r2` what the last one then gives
      under the table `r1` leaves. */
  lemma Step4SymbolsStep(p: Production, terminals: set<Symbol>, r1: (Step4State, Production), r2: (Step4State, Symbol))
    requires p != []
    requires Covered(p[..|p| - 1], terminals, r1.0.tvars) && r1.1 == Replaced(p[..|p| - 1], terminals, r1.0.tvars)
    requires Extends(r1.0.tvars, r2.0.tvars)
    requires p[|p| - 1] in terminals ==> p[|p| - 1] in r2.0.tvars && r2.1 == r2.0.tvars[p[|p| - 1]]
    requires p[|p| - 1] !in terminals ==> r2.1 == p[|p| - 1]
    ensures Covered(p, terminals, r2.0.tvars)
    ensures r1.1 + [r2.1] == Replaced(p, terminals, r2.0.tvars)
  {
    var init := p[..|p| - 1];
    var x := p[|p| - 1];
    assert p == init + [x];
    ReplacedSnoc(init, x, terminals, r1.0.tvars, r2.0.tvars, r2.1);
  }

  /** Replacing one more symbol under an extended table leaves the earlier replacements alone. */
  lemma ReplacedSnoc(init: Production, x: Symbol, terminals: set<Symbol>, tv1: map<Symbol, Symbol>,
                     tv2: map<Symbol, Symbol>, y: Symbol)
    requires Covered(init, terminals, tv1) && Extends(tv1, tv2)
    requires x in terminals ==> x in tv2 && y == tv2[x]
    requires x !in terminals ==> y == x
    ensures Covered(init + [x], terminals, tv2)
    ensures Replaced(init + [x], terminals, tv2) == Replaced(init, terminals, tv1) + [y]
  {
    var p := init + [x];
    forall i | 0 <= i < |p| && p[i] in terminals ensures p[i] in tv2 {
      if i < |init| {
        assert init[i] == p[i];
      }
    }
    assert Replaced(init, terminals, tv1) == Replaced(init, terminals, tv2);
  }

  lemma Step4AppendFacts(s: Step4State, terminals: set<Symbol>, nt: Symbol, q: Production, nts0: set<Symbol>)
    requires Step4Inv(s, nts0, terminals) && nt in nts0
    ensures Step4Inv(s.(g := AppendNew(s.g, nt, q)), nts0, terminals)
    ensures forall a, q' :: Has(AppendNew(s.g, nt, q), a, q') <==> Has(s.g, a, q') || (a == nt && q' == q)
  {
    AppendNewFacts(s.g, nt, q);
    var s2 := s.(g := AppendNew(s.g, nt, q));
    forall t | t in s2.tvars ensures Prods(s2.g, s2.tvars[t]) == [[t]] {
      assert s.tvars[t] != nt;
    }
  }

  lemma Step4ProdFacts(s: Step4State, terminals: set<Symbol>, nt: Symbol, p: Production, nts0: set<Symbol>)
    requires Step4Inv(s, nts0, terminals) && nt in nts0
    ensures Step4Inv(Step4Prod(s, terminals, nt, p), nts0, terminals)
    ensures Extends(s.tvars, Step4Prod(s, terminals, nt, p).tvars)
    ensures |p| != 1 ==> Covered(p, terminals, Step4Prod(s, terminals, nt, p).tvars)
    ensures forall a, q :: a in nts0 ==>
      (Has(Step4Prod(s, terminals, nt, p).g, a, q) <==>
       Has(s.g, a, q) || (a == nt && q == Step4Image(p, terminals, Step4Prod(s, terminals, nt, p).tvars)))
  {
    if |p| == 1 {
      Step4AppendFacts(s, terminals, nt, p, nts0);
    } else {
      Step4SymbolsFacts(s, terminals, p, nts0);
      var r := Step4Symbols(s, terminals, p);
      Step4AppendFacts(r.0, terminals, nt, r.1, nts0);
      forall a, q | a in nts0 ensures Has(r.0.g, a, q) <==> Has(s.g, a, q) {
        assert Prods(r.0.g, a) == Prods(s.g, a);
      }
    }
  }

  lemma {:induction false} Step4ProdsFacts(s: Step4State, terminals: set<Symbol>, nt: Symbol, prods: seq<Production>, nts0: set<Symbol>)
    requires Step4Inv(s, nts0, terminals) && nt in nts0
    ensures Step4Inv(Step4Prods(s, terminals, nt, prods), nts0, terminals)
    ensures Extends(s.tvars, Step4Prods(s, terminals, nt, prods).tvars)
    ensures forall p :: p in prods && |p| != 1 ==> Covered(p, terminals, Step4Prods(s, terminals, nt, prods).tvars)
    ensures forall a, q :: a in nts0 ==>
      (Has(Step4Prods(s, terminals, nt, prods).g, a, q) <==>
       Has(s.g, a, q) || (a == nt && exists p :: p in prods && q == Step4Image(p, terminals, Step4Prods(s, terminals, nt, prods).tvars)))
  {
    if prods != [] {
      var init := prods[..|prods| - 1];
      var p := prods[|prods| - 1];
      Step4ProdsFacts(s, terminals, nt, init, nts0);
      var s1 := Step4Prods(s, terminals, nt, init);
      Step4ProdFacts(s1, terminals, nt, p, nts0);
      var s2 := Step4Prod(s1, terminals, nt, p);
      assert forall p' :: p' in prods <==> p' in init || p' == p;
      forall p' | p' in init ensures Step4Image(p', terminals, s1.tvars) == Step4Image(p', terminals, s2.tvars) {
        ImageStable(p', terminals, s1.tvars, s2.tvars);
      }
    }
  }

  lemma {:induction false} Step4KeysFacts(old_g: Grammar, n: nat, s0: Step4State, terminals: set<Symbol>)
    requires Valid(old_g) && n <= |old_g.keys| && old_g.m.Keys <= s0.nts
    requires s0.g == Empty() && s0.tvars == map[]
    ensures Step4Inv(Step4Keys(old_g, n, s0, terminals), s0.nts, terminals)
    ensures forall a, p :: a in old_g.keys[..n] && p in Prods(old_g, a) && |p| != 1 ==>
      Covered(p, terminals, Step4Keys(old_g, n, s0, terminals).tvars)
    ensures forall a, q :: a in s0.nts ==>
      (Has(Step4Keys(old_g, n, s0, terminals).g, a, q) <==>
       a in old_g.keys[..n] && exists p :: p in Prods(old_g, a) && q == Step4Image(p, terminals, Step4Keys(old_g, n, s0, terminals).tvars))
  {
    if n > 0 {
      Step4KeysFacts(old_g, n - 1, s0, terminals);
      var s1 := Step4Keys(old_g, n - 1, s0, terminals);
      var nt := old_g.keys[n - 1];
      assert nt in s0.nts;
      Step4ProdsFacts(s1, terminals, nt, Prods(old_g, nt), s0.nts);
      Step4KeysStep(old_g, n, s0.nts, terminals, s1, Step4Keys(old_g, n, s0, terminals));
    }
  }

  /** One more key of step 4: the facts about the first `n - 1` keys and about the productions
      of key `n - 1` give the facts about the first `n` keys. */
  lemma Step4KeysStep(old_g: Grammar, n: nat, nts0: set<Symbol>, terminals: set<Symbol>, s1: Step4State, s2: Step4State)
    requires Valid(old_g) && 0 < n <= |old_g.keys|
    requires forall a, p :: a in old_g.keys[..n - 1] && p in Prods(old_g, a) && |p| != 1 ==> Covered(p, terminals, s1.tvars)
    requires forall a, q :: a in nts0 ==>
      (Has(s1.g, a, q) <==>
       a in old_g.keys[..n - 1] && exists p :: p in Prods(old_g, a) && q == Step4Image(p, terminals, s1.tvars))
    requires Extends(s1.tvars, s2.tvars)
    requires forall p :: p in Prods(old_g, old_g.keys[n - 1]) && |p| != 1 ==> Covered(p, terminals, s2.tvars)
    requires forall a, q :: a in nts0 ==>
      (Has(s2.g, a, q) <==>
       Has(s1.g, a, q) || (a == old_g.keys[n - 1] && exists p :: p in Prods(old_g, old_g.keys[n - 1]) && q == Step4Image(p, terminals, s2.tvars)))
    ensures forall a, p :: a in old_g.keys[..n] && p in Prods(old_g, a) && |p| != 1 ==> Covered(p, terminals, s2.tvars)
    ensures forall a, q :: a in nts0 ==>
      (Has(s2.g, a, q) <==>
       a in old_g.keys[..n] && exists p :: p in Prods(old_g, a) && q == Step4Image(p, terminals, s2.tvars))
  {
    var nt := old_g.keys[n - 1];
    assert old_g.keys[..n] == old_g.keys[..n - 1] + [nt];
    assert nt !in old_g.keys[..n - 1];
    forall a, p | a in old_g.keys[..n - 1] && p in Prods(old_g, a)
      ensures Step4Image(p, terminals, s1.tvars) == Step4Image(p, terminals, s2.tvars)
    {
      ImageStable(p, terminals, s1.tvars, s2.tvars);
    }
  }

  /** Step 4's whole effect: each terminal met in a rule of length other than one has one
      variable `T<k>`, fresh, whose sole rule is `[terminal]`; every old nonterminal lists exactly
      the images of its old productions, all using those same variables. */
  lemma Step4ResultFacts(old_g: Grammar, nts: set<Symbol>, counter: nat, terminals: set<Symbol>)
    requires Valid(old_g) && old_g.m.Keys <= nts
    ensures var s := Step4Result(old_g, nts, counter, terminals);
      && WellBuilt(s.g) && s.g.m.Keys <= s.nts && nts <= s.nts
      && (forall t :: t in s.tvars ==> t in terminals && s.tvars[t] !in nts && Prods(s.g, s.tvars[t]) == [[t]])
      && (forall t, u :: t in s.tvars && u in s.tvars && s.tvars[t] == s.tvars[u] ==> t == u)
      && (forall a :: a in s.g.m ==> a in nts || a in s.tvars.Values)
      && (forall a, p :: p in Prods(old_g, a) && |p| != 1 ==> Covered(p, terminals, s.tvars))
      && (forall a, q :: a in nts ==>
           (Has(s.g, a, q) <==> exists p :: p in Prods(old_g, a) && q == Step4Image(p, terminals, s.tvars)))
  {
    var s0 := Step4State(Empty(), nts, counter, map[]);
    Step4KeysFacts(old_g, |old_g.keys|, s0, terminals);
    assert old_g.keys[..|old_g.keys|] == old_g.keys;
    var s := Step4Result(old_g, nts, counter, terminals);
    forall t, u | t in s.tvars && u in s.tvars && s.tvars[t] == s.tvars[u] ensures t == u {
      assert [[t]] == Prods(s.g, s.tvars[t]) == [[u]];
    }
  }

  /** `T<k>` is never a terminal. */
  ghost predicate TNamesFree(terminals: set<Symbol>) {
    forall k :: Name("T", k) !in terminals
  }

  /** After step 4 no rule of length two or more mentions a terminal, provided no terminal is
      itself named like a `T` variable (the generator avoids only nonterminal names). */
  lemma Step4NoTerminalInLongRules(old_g: Grammar, nts: set<Symbol>, counter: nat, terminals: set<Symbol>,
                                   a: Symbol, q: Production, i: nat)
    requires Valid(old_g) && old_g.m.Keys <= nts && TNamesFree(terminals)
    requires q in Prods(Step4Result(old_g, nts, counter, terminals).g, a) && |q| >= 2 && i < |q|
    ensures q[i] !in terminals
  {
    Step4ResultFacts(old_g, nts, counter, terminals);
    var s := Step4Result(old_g, nts, counter, terminals);
    assert Has(s.g, a, q);
    forall t | t in s.tvars ensures s.tvars[t] != a {
      assert Prods(s.g, s.tvars[t]) == [[t]];
    }
    assert a in nts;
    var p :| p in Prods(old_g, a) && q == Step4Image(p, terminals, s.tvars);
    if p[i] in terminals {
      Step4TNamed(old_g, nts, counter, terminals, p[i]);
    }
  }

  /** Every variable step 4 mints for a terminal is a `T` name. */
  lemma Step4TNamed(old_g: Grammar, nts: set<Symbol>, counter: nat, terminals: set<Symbol>, t: Symbol)
    requires Valid(old_g) && old_g.m.Keys <= nts
    requires t in Step4Result(old_g, nts, counter, terminals).tvars
    ensures var v := Step4Result(old_g, nts, counter, terminals).tvars[t]; v == Name("T", Unname("T", v))
  {
    Step4KeysFacts(old_g, |old_g.keys|, Step4State(Empty(), nts, counter, map[]), terminals);
  }

  // ---------------------------------------------------------------------------------------------
  // _step5_break_long_productions

  /** What step 5 threads through its loops. */
  datatype Step5State = Step5State(g: Grammar, nts: set<Symbol>, counter: nat)

  /** The first `i` links of the chain for `nt -> p`, and the variable the next link hangs on. */
  function Chain(s: Step5State, nt: Symbol, p: Production, i: nat): (Step5State, Symbol)
    requires i <= |p|
  {
    if i == 0 then (s, nt)
    else
      var prev := Chain(s, nt, p, i - 1);
      ChainLink(prev.0, prev.1, p[i - 1])
  }

  lemma ChainNext(s: Step5State, nt: Symbol, p: Production, i: nat, prev: Step5State, current: Symbol)
    requires i < |p| && Chain(s, nt, p, i) == (prev, current)
    ensures Chain(s, nt, p, i + 1) == ChainLink(prev, current, p[i])
  {
  }

  /** One link: a fresh `Y` variable and `current -> [x, Y]`. */
  function ChainLink(s: Step5State, current: Symbol, x: Symbol): (Step5State, Symbol) {
    var k := Fresh("Y", s.nts, s.counter);
    var v := Name("Y", k);
    (Step5State(Append(s.g, current, [x, v]), s.nts + {v}, k + 1), v)
  }

  function Step5Prod(s: Step5State, nt: Symbol, p: Production): Step5State {
    if |p| <= 2 then s.(g := AppendNew(s.g, nt, p))
    else
      var chain := Chain(s, nt, p, |p| - 2);
      chain.0.(g := Append(chain.0.g, chain.1, [p[|p| - 2], p[|p| - 1]]))
  }

  function Step5Prods(s: Step5State, nt: Symbol, prods: seq<Production>): Step5State {
    if prods == [] then s
    else Step5Prod(Step5Prods(s, nt, prods[..|prods| - 1]), nt, prods[|prods| - 1])
  }

  function Step5Keys(old_g: Grammar, n: nat, s: Step5State): Step5State
    requires n <= |old_g.keys|
  {
    if n == 0 then s
    else
      var nt := old_g.keys[n - 1];
      Step5Prods(Step5Keys(old_g, n - 1, s), nt, Prods(old_g, nt))
  }

  /** The state step 5 ends in. */
  function Step5Result(old_g: Grammar, nts: set<Symbol>, counter: nat): Step5State {
    Step5Keys(old_g, |old_g.keys|, Step5State(Empty(), nts, counter))
  }

  /** Rules of length two or more use only symbols from `n`. */
  ghost predicate LongRulesOver(g: Grammar, n: set<Symbol>) {
    forall a, p :: Has(g, a, p) && |p| >= 2 ==> AllIn(p, n)
  }

  /** What step 5 keeps while it runs: rules have at most two symbols, the short ones are old
      rules, and pairs use nonterminals when the old long rules did. */
  ghost predicate Step5Inv(s: Step5State, old_g: Grammar, nts0: set<Symbol>) {
    Valid(s.g) && NonEmptyLists(s.g) && s.g.m.Keys <= s.nts && nts0 <= s.nts &&
    (forall a, q :: Has(s.g, a, q) ==> |q| <= 2 && (|q| <= 1 ==> Has(old_g, a, q))) &&
    (LongRulesOver(old_g, nts0) ==> forall a, q :: Has(s.g, a, q) && |q| == 2 ==> AllIn(q, s.nts))
  }

  lemma ChainLinkFacts(s: Step5State, old_g: Grammar, nts0: set<Symbol>, current: Symbol, x: Symbol)
    requires Step5Inv(s, old_g, nts0) && current in s.nts
    requires LongRulesOver(old_g, nts0) ==> x in nts0
    ensures Step5Inv(ChainLink(s, current, x).0, old_g, nts0)
    ensures ChainLink(s, current, x).1 !in s.nts && ChainLink(s, current, x).1 in ChainLink(s, current, x).0.nts
    ensures ChainLink(s, current, x).0.nts == s.nts + {ChainLink(s, current, x).1}
  {
    FreshIsFirstUntaken("Y", s.nts, s.counter);
    var v := ChainLink(s, current, x).1;
    AppendFacts(s.g, current, [x, v]);
    var s2 := ChainLink(s, current, x).0;
    forall a, q | Has(s2.g, a, q) && LongRulesOver(old_g, nts0) && |q| == 2 ensures AllIn(q, s2.nts) {
      if !Has(s.g, a, q) {
        assert q == [x, v];
      }
    }
  }

  lemma AppendFacts(g: Grammar, k: Symbol, p: Production)
    requires Valid(g) && NonEmptyLists(g)
    ensures Valid(Append(g, k, p)) && NonEmptyLists(Append(g, k, p))
    ensures Append(g, k, p).m.Keys == g.m.Keys + {k}
    ensures forall a, q :: Has(Append(g, k, p), a, q) <==> Has(g, a, q) || (a == k && q == p)
  {
  }

  lemma {:induction false} ChainFacts(s: Step5State, old_g: Grammar, nts0: set<Symbol>, nt: Symbol, p: Production, i: nat)
    requires Step5Inv(s, old_g, nts0) && nt in nts0 && i <= |p| && (LongRulesOver(old_g, nts0) ==> AllIn(p, nts0))
    ensures Step5Inv(Chain(s, nt, p, i).0, old_g, nts0)
    ensures Chain(s, nt, p, i).1 in Chain(s, nt, p, i).0.nts
    ensures s.nts <= Chain(s, nt, p, i).0.nts
  {
    if i > 0 {
      ChainFacts(s, old_g, nts0, nt, p, i - 1);
      var prev := Chain(s, nt, p, i - 1);
      assert LongRulesOver(old_g, nts0) ==> p[i - 1] in nts0;
      ChainLinkFacts(prev.0, old_g, nts0, prev.1, p[i - 1]);
    }
  }

  lemma Step5ProdFacts(s: Step5State, old_g: Grammar, nts0: set<Symbol>, nt: Symbol, p: Production)
    requires Step5Inv(s, old_g, nts0) && nt in nts0 && Has(old_g, nt, p)
    ensures Step5Inv(Step5Prod(s, nt, p), old_g, nts0)
    ensures s.nts <= Step5Prod(s, nt, p).nts
  {
    if |p| <= 2 {
      Step5ShortProdFacts(s, old_g, nts0, nt, p);
    } else {
      Step5LongProdFacts(s, old_g, nts0, nt, p);
    }
  }

  lemma Step5ShortProdFacts(s: Step5State, old_g: Grammar, nts0: set<Symbol>, nt: Symbol, p: Production)
    requires Step5Inv(s, old_g, nts0) && nt in nts0 && Has(old_g, nt, p) && |p| <= 2
    ensures Step5Inv(s.(g := AppendNew(s.g, nt, p)), old_g, nts0)
  {
    AppendNewFacts'(s.g, nt, p);
    var s2 := s.(g := AppendNew(s.g, nt, p));
    forall a, q | Has(s2.g, a, q) ensures |q| <= 2 && (|q| <= 1 ==> Has(old_g, a, q)) &&
      (LongRulesOver(old_g, nts0) && |q| == 2 ==> AllIn(q, s2.nts)) {
      if !Has(s.g, a, q) {
        assert a == nt && q == p;
        if LongRulesOver(old_g, nts0) && |q| == 2 {
          assert AllIn(p, nts0);
        }
      }
    }
  }

  lemma Step5LongProdFacts(s: Step5State, old_g: Grammar, nts0: set<Symbol>, nt: Symbol, p: Production)
    requires Step5Inv(s, old_g, nts0) && nt in nts0 && Has(old_g, nt, p) && |p| > 2
    ensures Step5Inv(Step5Prod(s, nt, p), old_g, nts0)
    ensures s.nts <= Step5Prod(s, nt, p).nts
  {
    assert LongRulesOver(old_g, nts0) ==> AllIn(p, nts0);
    ChainFacts(s, old_g, nts0, nt, p, |p| - 2);
    var chain := Chain(s, nt, p, |p| - 2);
    var q := [p[|p| - 2], p[|p| - 1]];
    assert LongRulesOver(old_g, nts0) ==> AllIn(q, nts0) by {
      if LongRulesOver(old_g, nts0) {
        assert AllIn(p, nts0) && q[0] == p[|p| - 2] && q[1] == p[|p| - 1];
      }
    }
    ChainCapFacts(chain.0, chain.1, old_g, nts0, q);
    assert Step5Prod(s, nt, p) == chain.0.(g := Append(chain.0.g, chain.1, q));
  }

  /** Hanging the last pair on the last chain variable keeps the step-5 invariant. */
  lemma ChainCapFacts(c: Step5State, cur: Symbol, old_g: Grammar, nts0: set<Symbol>, q: Production)
    requires Step5Inv(c, old_g, nts0) && cur in c.nts && |q| == 2
    requires LongRulesOver(old_g, nts0) ==> AllIn(q, nts0)
    ensures Step5Inv(c.(g := Append(c.g, cur, q)), old_g, nts0)
  {
    AppendFacts(c.g, cur, q);
    var s2 := c.(g := Append(c.g, cur, q));
    forall a, q' | Has(s2.g, a, q') ensures |q'| <= 2 && (|q'| <= 1 ==> Has(old_g, a, q')) &&
      (LongRulesOver(old_g, nts0) && |q'| == 2 ==> AllIn(q', s2.nts)) {
      if !Has(c.g, a, q') {
        assert q' == q;
      }
    }
  }

  /** `AppendNew` without the no-repeats bookkeeping, for step 5 where repeats may arise. */
  lemma AppendNewFacts'(g: Grammar, k: Symbol, p: Production)
    requires Valid(g) && NonEmptyLists(g)
    ensures Valid(AppendNew(g, k, p)) && NonEmptyLists(AppendNew(g, k, p))
    ensures AppendNew(g, k, p).m.Keys == g.m.Keys + {k}
    ensures forall a, q :: Has(AppendNew(g, k, p), a, q) <==> Has(g, a, q) || (a == k && q == p)
  {
  }

  lemma {:induction false} Step5ProdsFacts(s: Step5State, old_g: Grammar, nts0: set<Symbol>, nt: Symbol, prods: seq<Production>)
    requires Step5Inv(s, old_g, nts0) && nt in nts0 && forall p :: p in prods ==> Has(old_g, nt, p)
    ensures Step5Inv(Step5Prods(s, nt, prods), old_g, nts0)
    ensures s.nts <= Step5Prods(s, nt, prods).nts
  {
    if prods != [] {
      Step5ProdsFacts(s, old_g, nts0, nt, prods[..|prods| - 1]);
      Step5ProdFacts(Step5Prods(s, nt, prods[..|prods| - 1]), old_g, nts0, nt, prods[|prods| - 1]);
    }
  }

  /** The productions listed under a key are its productions. */
  lemma KeyProds(g: Grammar, i: nat, nts: set<Symbol>)
    requires Valid(g) && i < |g.keys| && g.m.Keys <= nts
    ensures g.keys[i] in g.m && g.keys[i] in nts
    ensures forall p :: p in Prods(g, g.keys[i]) ==> Has(g, g.keys[i], p)
  {
  }

  lemma {:induction false} Step5KeysFacts(old_g: Grammar, n: nat, s0: Step5State)
    requires Valid(old_g) && n <= |old_g.keys| && old_g.m.Keys <= s0.nts && s0.g == Empty()
    ensures Step5Inv(Step5Keys(old_g, n, s0), old_g, s0.nts)
  {
    if n > 0 {
      Step5KeysFacts(old_g, n - 1, s0);
      var nt := old_g.keys[n - 1];
      assert Step5Keys(old_g, n, s0) == Step5Prods(Step5Keys(old_g, n - 1, s0), nt, Prods(old_g, nt));
      Step5KeyStep(old_g, n, s0, Step5Keys(old_g, n - 1, s0), Step5Keys(old_g, n, s0));
    }
  }

  lemma Step5KeyStep(old_g: Grammar, n: nat, s0: Step5State, prev: Step5State, next: Step5State)
    requires Valid(old_g) && 0 < n <= |old_g.keys| && old_g.m.Keys <= s0.nts
    requires Step5Inv(prev, old_g, s0.nts)
    requires next == Step5Prods(prev, old_g.keys[n - 1], Prods(old_g, old_g.keys[n - 1]))
    ensures Step5Inv(next, old_g, s0.nts)
  {
    var nt := old_g.keys[n - 1];
    KeyProds(old_g, n - 1, s0.nts);
    assert nt in s0.nts;
    assert forall p :: p in Prods(old_g, nt) ==> Has(old_g, nt, p);
    Step5ProdsFacts(prev, old_g, s0.nts, nt, Prods(old_g, nt));
  }

  /** The fresh variables `Chain` mints, in order. */
  ghost function ChainVars(s: Step5State, nt: Symbol, p: Production, i: nat): seq<Symbol>
    requires i <= |p|
  {
    if i == 0 then [] else ChainVars(s, nt, p, i - 1) + [Chain(s, nt, p, i).1]
  }

  /** The rules that break `nt -> p` into pairs: `nt -> p[0] ys[0]`, `ys[j] -> p[j+1] ys[j+1]`,
      and the last variable derives the last two symbols of `p`. */
  ghost predicate ChainSpells(g: Grammar, nt: Symbol, p: Production, ys: seq<Symbol>) {
    |p| > 2 && |ys| == |p| - 2 && Has(g, nt, [p[0], ys[0]]) &&
    (forall j {:trigger Prods(g, ys[j])} :: 0 <= j < |ys| - 1 ==> Prods(g, ys[j]) == [[p[j + 1], ys[j + 1]]]) &&
    Prods(g, ys[|ys| - 1]) == [[p[|p| - 2], p[|p| - 1]]]
  }

  /** A later grammar that keeps every rule and leaves the rules of fresh variables alone. */
  ghost predicate Grows(s: Step5State, s2: Step5State, nts0: set<Symbol>) {
    s.nts <= s2.nts &&
    (forall a, q :: Has(s.g, a, q) ==> Has(s2.g, a, q)) &&
    (forall a :: a in s.g.m && a !in nts0 ==> a in s2.g.m && Prods(s2.g, a) == Prods(s.g, a))
  }

  lemma GrowsTrans(s1: Step5State, s2: Step5State, s3: Step5State, nts0: set<Symbol>)
    requires Grows(s1, s2, nts0) && Grows(s2, s3, nts0)
    ensures Grows(s1, s3, nts0)
  {
  }

  /** Chains whose variables are fresh survive growth. */
  ghost predicate FreshChain(g: Grammar, nt: Symbol, p: Production, ys: seq<Symbol>, nts0: set<Symbol>) {
    ChainSpells(g, nt, p, ys) && forall j :: 0 <= j < |ys| ==> ys[j] in g.m && ys[j] !in nts0
  }

  /** Some chain of fresh variables spells `nt -> p`. */
  ghost predicate Spelled(g: Grammar, nt: Symbol, p: Production, nts0: set<Symbol>) {
    exists ys :: FreshChain(g, nt, p, ys, nts0)
  }

  lemma SpelledGrows(s: Step5State, s2: Step5State, nt: Symbol, p: Production, nts0: set<Symbol>)
    requires Spelled(s.g, nt, p, nts0) && Grows(s, s2, nts0)
    ensures Spelled(s2.g, nt, p, nts0)
  {
    var ys :| FreshChain(s.g, nt, p, ys, nts0);
    FreshChainGrows(s, s2, nt, p, ys, nts0);
  }

  lemma FreshChainGrows(s: Step5State, s2: Step5State, nt: Symbol, p: Production, ys: seq<Symbol>, nts0: set<Symbol>)
    requires FreshChain(s.g, nt, p, ys, nts0) && Grows(s, s2, nts0)
    ensures FreshChain(s2.g, nt, p, ys, nts0)
  {
    forall j | 0 <= j < |ys| ensures ys[j] in s2.g.m && Prods(s2.g, ys[j]) == Prods(s.g, ys[j]) {
    }
  }

  /** What the first `i` links of a chain have built. */
  ghost predicate ChainBuilt(s: Step5State, nt: Symbol, p: Production, i: nat, c: (Step5State, Symbol), ys: seq<Symbol>)
    requires i <= |p|
  {
    Valid(c.0.g) && NonEmptyLists(c.0.g) && c.0.g.m.Keys <= c.0.nts && s.nts <= c.0.nts &&
    |ys| == i && c.1 == (if i == 0 then nt else ys[i - 1]) && c.1 in c.0.nts &&
    (i > 0 ==> c.1 !in c.0.g.m) &&
    (forall j :: 0 <= j < i ==> ys[j] !in s.nts) &&
    (forall a :: a in s.g.m && a != nt ==> a in c.0.g.m && Prods(c.0.g, a) == Prods(s.g, a)) &&
    (forall q :: Has(s.g, nt, q) ==> Has(c.0.g, nt, q)) &&
    (nt in s.g.m ==> nt in c.0.g.m) &&
    (i >= 1 ==> Has(c.0.g, nt, [p[0], ys[0]])) &&
    (forall j {:trigger Prods(c.0.g, ys[j])} :: 0 <= j < i - 1 ==> ys[j] in c.0.g.m && Prods(c.0.g, ys[j]) == [[p[j + 1], ys[j + 1]]])
  }

  lemma {:induction false} ChainShape(s: Step5State, nt: Symbol, p: Production, i: nat)
    requires Valid(s.g) && NonEmptyLists(s.g) && s.g.m.Keys <= s.nts && nt in s.nts && i <= |p|
    ensures ChainBuilt(s, nt, p, i, Chain(s, nt, p, i), ChainVars(s, nt, p, i))
  {
    if i > 0 {
      ChainShape(s, nt, p, i - 1);
      var prev := Chain(s, nt, p, i - 1);
      var ys0 := ChainVars(s, nt, p, i - 1);
      ChainLinkStep(s, nt, p, i - 1, prev, ys0);
    }
  }

  lemma ChainLinkStep(s: Step5State, nt: Symbol, p: Production, i: nat, prev: (Step5State, Symbol), ys0: seq<Symbol>)
    requires i < |p| && nt in s.nts && ChainBuilt(s, nt, p, i, prev, ys0)
    ensures ChainBuilt(s, nt, p, i + 1, ChainLink(prev.0, prev.1, p[i]), ys0 + [ChainLink(prev.0, prev.1, p[i]).1])
  {
    FreshIsFirstUntaken("Y", prev.0.nts, prev.0.counter);
    var c := ChainLink(prev.0, prev.1, p[i]);
    var v := c.1;
    AppendFacts(prev.0.g, prev.1, [p[i], v]);
    assert c.0.g == Append(prev.0.g, prev.1, [p[i], v]);
    var ys := ys0 + [v];
    ChainLinkKept(s, nt, p, i, prev, ys0);
    ChainLinkLinks(s, nt, p, i, prev, ys0);
    forall j | 0 <= j < i ensures ys[j] in c.0.g.m && Prods(c.0.g, ys[j]) == [[p[j + 1], ys[j + 1]]] {
      assert Prods(c.0.g, ys[j]) == [[p[j + 1], ys[j + 1]]];
    }
    assert c.0.g.m.Keys <= c.0.nts && s.nts <= c.0.nts;
    assert |ys| == i + 1 && c.1 == ys[i] && c.1 in c.0.nts && c.1 !in c.0.g.m;
    forall j | 0 <= j < i + 1 ensures ys[j] !in s.nts {
      if j < i {
        assert ys[j] == ys0[j];
      }
    }
    forall q | Has(s.g, nt, q) ensures Has(c.0.g, nt, q) {
      assert Has(prev.0.g, nt, q);
    }
    if i == 0 {
      assert Has(c.0.g, nt, [p[0], ys[0]]);
    } else {
      assert Has(prev.0.g, nt, [p[0], ys0[0]]);
    }
  }

  /** A new link leaves every other left-hand side of the original grammar alone. */
  lemma ChainLinkKept(s: Step5State, nt: Symbol, p: Production, i: nat, prev: (Step5State, Symbol), ys0: seq<Symbol>)
    requires i < |p| && ChainBuilt(s, nt, p, i, prev, ys0)
    ensures var c := ChainLink(prev.0, prev.1, p[i]);
      forall a :: a in s.g.m && a != nt ==> a in c.0.g.m && Prods(c.0.g, a) == Prods(s.g, a)
  {
    var c := ChainLink(prev.0, prev.1, p[i]);
    forall a | a in s.g.m && a != nt ensures a in c.0.g.m && Prods(c.0.g, a) == Prods(s.g, a) {
      assert a in prev.0.g.m && Prods(prev.0.g, a) == Prods(s.g, a);
      if i > 0 {
        assert a != prev.1;
      }
    }
  }

  /** A new link hangs one pair on the previous variable and keeps the earlier links. */
  lemma ChainLinkLinks(s: Step5State, nt: Symbol, p: Production, i: nat, prev: (Step5State, Symbol), ys0: seq<Symbol>)
    requires i < |p| && ChainBuilt(s, nt, p, i, prev, ys0)
    ensures var c := ChainLink(prev.0, prev.1, p[i]); var ys := ys0 + [c.1];
      forall j {:trigger Prods(c.0.g, ys[j])} :: 0 <= j < i ==> ys[j] in c.0.g.m && Prods(c.0.g, ys[j]) == [[p[j + 1], ys[j + 1]]]
  {
    var c := ChainLink(prev.0, prev.1, p[i]);
    assert c.0.g == Append(prev.0.g, prev.1, [p[i], c.1]);
    assert |ys0| == i;
    assert i > 0 ==> prev.1 == ys0[i - 1] && prev.1 !in prev.0.g.m;
    forall j | 0 <= j < i - 1 ensures ys0[j] in prev.0.g.m && Prods(prev.0.g, ys0[j]) == [[p[j + 1], ys0[j + 1]]] {
      assert Prods(prev.0.g, ys0[j]) == [[p[j + 1], ys0[j + 1]]];
    }
    LinksGrow(prev.0.g, prev.1, c.1, p, i, ys0);
  }

  lemma LinksGrow(g: Grammar, cur: Symbol, v: Symbol, p: Production, i: nat, ys0: seq<Symbol>)
    requires i < |p| && |ys0| == i && (i > 0 ==> cur == ys0[i - 1] && cur !in g.m)
    requires forall j {:trigger Prods(g, ys0[j])} :: 0 <= j < i - 1 ==> ys0[j] in g.m && Prods(g, ys0[j]) == [[p[j + 1], ys0[j + 1]]]
    ensures var g2 := Append(g, cur, [p[i], v]); var ys := ys0 + [v];
      forall j {:trigger Prods(g2, ys[j])} :: 0 <= j < i ==> ys[j] in g2.m && Prods(g2, ys[j]) == [[p[j + 1], ys[j + 1]]]
  {
    var g2 := Append(g, cur, [p[i], v]);
    var ys := ys0 + [v];
    assert g2.m == g.m[cur := Prods(g, cur) + [[p[i], v]]];
    forall j | 0 <= j < i ensures ys[j] in g2.m && Prods(g2, ys[j]) == [[p[j + 1], ys[j + 1]]] {
      if j < i - 1 {
        assert ys[j] == ys0[j] && ys[j + 1] == ys0[j + 1];
        assert Prods(g, ys0[j]) == [[p[j + 1], ys0[j + 1]]];
        assert ys0[j] in g.m && ys0[j] != cur;
      } else {
        assert ys[j] == cur && ys[j + 1] == v;
        assert Prods(g, cur) == [];
      }
    }
  }

  lemma Step5ProdGrows(s: Step5State, old_g: Grammar, nts0: set<Symbol>, nt: Symbol, p: Production)
    requires Step5Inv(s, old_g, nts0) && nt in nts0
    ensures Grows(s, Step5Prod(s, nt, p), nts0)
    ensures |p| > 2 ==> FreshChain(Step5Prod(s, nt, p).g, nt, p, ChainVars(s, nt, p, |p| - 2), nts0)
  {
    if |p| <= 2 {
      AppendNewFacts'(s.g, nt, p);
    } else {
      Step5LongProdGrows(s, nt, p, nts0);
    }
  }

  lemma Step5LongProdGrows(s: Step5State, nt: Symbol, p: Production, nts0: set<Symbol>)
    requires Valid(s.g) && NonEmptyLists(s.g) && s.g.m.Keys <= s.nts && nts0 <= s.nts && nt in nts0 && |p| > 2
    ensures Grows(s, Step5Prod(s, nt, p), nts0)
    ensures FreshChain(Step5Prod(s, nt, p).g, nt, p, ChainVars(s, nt, p, |p| - 2), nts0)
  {
    ChainShape(s, nt, p, |p| - 2);
    var c := Chain(s, nt, p, |p| - 2);
    ChainCap(s, nt, p, nts0, c, ChainVars(s, nt, p, |p| - 2));
  }

  /** The last pair, hung on the last variable of a built chain. */
  lemma ChainCap(s: Step5State, nt: Symbol, p: Production, nts0: set<Symbol>, c: (Step5State, Symbol), ys: seq<Symbol>)
    requires |p| > 2 && nts0 <= s.nts && nt in nts0 && ChainBuilt(s, nt, p, |p| - 2, c, ys)
    ensures var s2 := c.0.(g := Append(c.0.g, c.1, [p[|p| - 2], p[|p| - 1]]));
      Grows(s, s2, nts0) && FreshChain(s2.g, nt, p, ys, nts0)
  {
    var last := [p[|p| - 2], p[|p| - 1]];
    var g2 := Append(c.0.g, c.1, last);
    AppendFacts(c.0.g, c.1, last);
    assert Prods(c.0.g, c.1) == [];
    forall a | a in s.g.m && a !in nts0 ensures a in g2.m && Prods(g2, a) == Prods(s.g, a) {
      assert a in c.0.g.m;
    }
    forall a, q | Has(s.g, a, q) ensures Has(g2, a, q) {
      if a != nt {
        assert Prods(c.0.g, a) == Prods(s.g, a);
      }
    }
    forall j | 0 <= j < |ys| - 1 ensures ys[j] in g2.m && Prods(g2, ys[j]) == [[p[j + 1], ys[j + 1]]] {
      var y := ys[j];
      assert Prods(c.0.g, y) == [[p[j + 1], ys[j + 1]]] && y in c.0.g.m;
      assert y != c.1;
      assert g2.m[y] == c.0.g.m[y];
    }
  }

  lemma {:induction false} Step5ProdsGrows(s: Step5State, old_g: Grammar, nts0: set<Symbol>, nt: Symbol, prods: seq<Production>)
    requires Step5Inv(s, old_g, nts0) && nt in nts0 && forall p :: p in prods ==> Has(old_g, nt, p)
    ensures Grows(s, Step5Prods(s, nt, prods), nts0)
    ensures forall p :: p in prods && |p| > 2 ==> Spelled(Step5Prods(s, nt, prods).g, nt, p, nts0)
  {
    if prods != [] {
      var init := prods[..|prods| - 1];
      var last := prods[|prods| - 1];
      var s1 := Step5Prods(s, nt, init);
      var s2 := Step5Prods(s, nt, prods);
      assert s2 == Step5Prod(s1, nt, last);
      Step5ProdsGrows(s, old_g, nts0, nt, init);
      Step5ProdsFacts(s, old_g, nts0, nt, init);
      Step5ProdGrows(s1, old_g, nts0, nt, last);
      GrowsTrans(s, s1, s2, nts0);
      forall p | p in prods && |p| > 2 ensures Spelled(s2.g, nt, p, nts0) {
        if p in init {
          SpelledGrows(s1, s2, nt, p, nts0);
        } else {
          assert p == last;
          assert FreshChain(s2.g, nt, p, ChainVars(s1, nt, p, |p| - 2), nts0);
        }
      }
    }
  }

  /** A long rule of the `k`-th key stays spelled by the grammar after the first `n` keys. */
  lemma {:induction false} Step5KeysSpell(old_g: Grammar, n: nat, s0: Step5State, k: nat, p: Production)
    requires Valid(old_g) && n <= |old_g.keys| && old_g.m.Keys <= s0.nts && s0.g == Empty()
    requires k < n && p in Prods(old_g, old_g.keys[k]) && |p| > 2
    ensures Spelled(Step5Keys(old_g, n, s0).g, old_g.keys[k], p, s0.nts)
  {
    if k < n - 1 {
      Step5KeysSpell(old_g, n - 1, s0, k, p);
      Step5KeySpellKept(old_g, n, s0, old_g.keys[k], p);
    } else {
      Step5KeyGrows(old_g, n, s0);
    }
  }

  lemma Step5KeySpellKept(old_g: Grammar, n: nat, s0: Step5State, nt: Symbol, p: Production)
    requires Valid(old_g) && 0 < n <= |old_g.keys| && old_g.m.Keys <= s0.nts && s0.g == Empty()
    requires Spelled(Step5Keys(old_g, n - 1, s0).g, nt, p, s0.nts)
    ensures Spelled(Step5Keys(old_g, n, s0).g, nt, p, s0.nts)
  {
    Step5KeyGrows(old_g, n, s0);
    SpelledGrows(Step5Keys(old_g, n - 1, s0), Step5Keys(old_g, n, s0), nt, p, s0.nts);
  }

  /** The `n`-th key of step 5 keeps what the earlier keys built and spells its own long rules. */
  lemma Step5KeyGrows(old_g: Grammar, n: nat, s0: Step5State)
    requires Valid(old_g) && 0 < n <= |old_g.keys| && old_g.m.Keys <= s0.nts && s0.g == Empty()
    ensures Grows(Step5Keys(old_g, n - 1, s0), Step5Keys(old_g, n, s0), s0.nts)
    ensures forall p :: p in Prods(old_g, old_g.keys[n - 1]) && |p| > 2 ==>
      Spelled(Step5Keys(old_g, n, s0).g, old_g.keys[n - 1], p, s0.nts)
  {
    var s1 := Step5Keys(old_g, n - 1, s0);
    var nt := old_g.keys[n - 1];
    assert Step5Keys(old_g, n, s0) == Step5Prods(s1, nt, Prods(old_g, nt));
    Step5KeysFacts(old_g, n - 1, s0);
    KeyProds(old_g, n - 1, s0.nts);
    assert Step5Inv(s1, old_g, s0.nts);
    assert forall q :: q in Prods(old_g, nt) ==> Has(old_g, nt, q);
    Step5ProdsGrows(s1, old_g, s0.nts, nt, Prods(old_g, nt));
  }

  /** Step 5 breaks every rule `nt -> p` with more than two symbols into a chain of pairs through
      variables that were not nonterminals before, and the chain spells `p` from left to right. */
  lemma Step5SpellsLongRules(old_g: Grammar, nts: set<Symbol>, counter: nat)
    requires Valid(old_g) && old_g.m.Keys <= nts
    ensures forall nt, p :: Has(old_g, nt, p) && |p| > 2 ==>
      exists ys :: FreshChain(Step5Result(old_g, nts, counter).g, nt, p, ys, nts)
  {
    var s0 := Step5State(Empty(), nts, counter);
    forall nt, p | Has(old_g, nt, p) && |p| > 2
      ensures exists ys :: FreshChain(Step5Result(old_g, nts, counter).g, nt, p, ys, nts)
    {
      var k :| 0 <= k < |old_g.keys| && old_g.keys[k] == nt;
      assert p in Prods(old_g, old_g.keys[k]);
      Step5KeysSpell(old_g, |old_g.keys|, s0, k, p);
      assert Step5Result(old_g, nts, counter) == Step5Keys(old_g, |old_g.keys|, s0);
    }
  }

  /** After step 5 every rule has at most two symbols; rules of one symbol (or none) are old
      rules of the same nonterminal; and when every old long rule used only nonterminals, so does
      every pair. */
  lemma Step5ResultFacts(old_g: Grammar, nts: set<Symbol>, counter: nat)
    requires Valid(old_g) && old_g.m.Keys <= nts
    ensures var s := Step5Result(old_g, nts, counter);
      && Valid(s.g) && s.g.m.Keys <= s.nts && nts <= s.nts
      && (forall a, q :: Has(s.g, a, q) ==> |q| <= 2)
      && (forall a, q :: Has(s.g, a, q) && |q| <= 1 ==> Has(old_g, a, q))
      && (LongRulesOver(old_g, nts) ==> forall a, q :: Has(s.g, a, q) && |q| == 2 ==> AllIn(q, s.nts))
  {
    Step5KeysFacts(old_g, |old_g.keys|, Step5State(Empty(), nts, counter));
  }

  /** The outer loop of `CollectTerminals` adds the terminals of key `i`. */
  lemma TerminalsSnoc(g: Grammar, nts: set<Symbol>, i: nat, before: set<Symbol>, after: set<Symbol>)
    requires i < |g.keys|
    requires before == (set k, p, x | k in g.keys[..i] && p in Prods(g, k) && x in p :: x) - nts - {Epsilon}
    requires after == before + ((set p, x | p in Prods(g, g.keys[i]) && x in p :: x) - nts - {Epsilon})
    ensures after == (set k, p, x | k in g.keys[..i + 1] && p in Prods(g, k) && x in p :: x) - nts - {Epsilon}
  {
    assert g.keys[..i + 1] == g.keys[..i] + [g.keys[i]];
    assert (set k, p, x | k in g.keys[..i + 1] && p in Prods(g, k) && x in p :: x) ==
      (set k, p, x | k in g.keys[..i] && p in Prods(g, k) && x in p :: x) +
      (set p, x | p in Prods(g, g.keys[i]) && x in p :: x);
  }

  lemma RhsSymbolsByKeys(g: Grammar)
    requires Valid(g)
    ensures (set k, p, x | k in g.keys && p in Prods(g, k) && x in p :: x) == RhsSymbols(g)
  {
    var l := set k, p, x | k in g.keys && p in Prods(g, k) && x in p :: x;
    forall x | x in RhsSymbols(g) ensures x in l {
      var k, p :| k in g.m && p in g.m[k] && x in p;
      assert p in Prods(g, k);
    }
  }

  // ---------------------------------------------------------------------------------------------
  // is_valid_cnf and the whole conversion

  /** The test `is_valid_cnf` applies to the production `q` of `a`. */
  ghost predicate CnfRule(g: Grammar, start: Option<Symbol>, terminals: set<Symbol>, nts: set<Symbol>,
                          a: Symbol, q: Production) {
    if q == [Epsilon] then start == Some(a) && !OnRhs(g, a)
    else if |q| == 1 then q[0] in terminals
    else |q| == 2 && q[0] in nts && q[1] in nts
  }

  /** Chomsky normal form as `is_valid_cnf` checks it: `A -> a` with `a` a terminal, `A -> B C`
      with `B` and `C` nonterminals, and `S -> ε` only for a start symbol on no right-hand side. */
  ghost predicate ValidCnf(g: Grammar, start: Option<Symbol>, terminals: set<Symbol>, nts: set<Symbol>) {
    forall a, q :: Has(g, a, q) ==> CnfRule(g, start, terminals, nts, a, q)
  }

  /** A grammar the conversion is meant for: no ε anywhere, no empty production, and every
      right-hand symbol a known nonterminal or terminal. */
  ghost predicate EpsilonFree(g: Grammar, nts: set<Symbol>, terminals: set<Symbol>) {
    Valid(g) && g.m.Keys <= nts && Epsilon !in nts && Epsilon !in terminals &&
    forall a, q :: Has(g, a, q) ==> q != [] && AllIn(q, nts + terminals)
  }

  /** Rule entries with no ε, no `epsilon` production and no empty production parse into an
      ε-free grammar over their keys and the terminals `parse_grammar` records. */
  lemma ParsedIsEpsilonFree(rules: Grammar)
    requires Valid(rules) && Epsilon !in rules.m
    requires forall a, p :: Has(rules, a, p) ==> p != [] && p != ["epsilon"] && Epsilon !in p
    ensures var g := ParsedRules(rules, |rules.keys|);
      EpsilonFree(g, rules.m.Keys, TerminalsOf(g, rules.m.Keys))
  {
    var n := |rules.keys|;
    ParsedRulesShape(rules, n);
    assert rules.keys[..n] == rules.keys;
    var g := ParsedRules(rules, n);
    forall a, q | Has(g, a, q) ensures q != [] && AllIn(q, rules.m.Keys + TerminalsOf(g, rules.m.Keys)) {
      var i :| 0 <= i < |g.m[a]| && g.m[a][i] == q;
      assert Has(rules, a, rules.m[a][i]);
      assert q == rules.m[a][i];
      forall j | 0 <= j < |q| ensures q[j] in rules.m.Keys + TerminalsOf(g, rules.m.Keys) {
        assert a in g.m && q in g.m[a] && q[j] in q;
        assert q[j] in RhsSymbols(g);
        assert q[j] != Epsilon;
      }
    }
  }

  /** Adding `S<k> -> [start]` for a start symbol that is on some right-hand side keeps the
      grammar ε-free. */
  lemma Step1KeepsEpsilonFree(g: Grammar, nts: set<Symbol>, terminals: set<Symbol>, start: Symbol, k: nat)
    requires EpsilonFree(g, nts, terminals) && OnRhs(g, start)
    ensures EpsilonFree(Put(g, Name("S", k), [[start]]), nts + {Name("S", k)}, terminals)
  {
    var b, p :| b in g.m && p in g.m[b] && start in p;
    assert Has(g, b, p);
    var v := Name("S", k);
    assert v[0] == 'S' && v != Epsilon;
    var g2 := Put(g, v, [[start]]);
    forall a, q | Has(g2, a, q) ensures q != [] && AllIn(q, nts + {v} + terminals) {
      if a == v {
        assert q == [start];
      } else {
        assert Has(g, a, q);
      }
    }
  }

  /** Without ε and empty productions nothing is nullable. */
  lemma NothingNullable(g: Grammar, nts: set<Symbol>, terminals: set<Symbol>, nullable: set<Symbol>)
    requires EpsilonFree(g, nts, terminals) && LeastNullable(g, nullable)
    ensures nullable == {}
  {
    forall k, q | k in g.m && q in g.m[k] ensures q != [Epsilon] {
      assert Has(g, k, q);
      assert q[0] in nts + terminals;
    }
    assert DirectlyNullable(g) == {};
    var none: set<Symbol> := {};
    forall k, p | k in g.m && p in g.m[k] ensures !AllIn(p, none) {
      assert Has(g, k, p) && p != [];
      assert p[0] !in none;
    }
    assert NullableClosed(g, none);
  }

  lemma {:induction false} WithoutNothing(p: Production)
    ensures Without(p, []) == p
  {
    if p != [] {
      WithoutNothing(p[..|p| - 1]);
    }
  }

  /** With nothing nullable, step 2 keeps exactly the productions it was given. */
  lemma Step2KeepsEpsilonFree(g: Grammar, nts: set<Symbol>, terminals: set<Symbol>, start: Option<Symbol>)
    requires EpsilonFree(g, nts, terminals)
    ensures forall a, q :: Has(Step2Result(g, {}, start), a, q) <==> Has(g, a, q)
    ensures EpsilonFree(Step2Result(g, {}, start), nts, terminals)
  {
    Step2ResultFacts(g, {}, start);
    WithoutNothing([]);
    forall a, q ensures Step2Variant(g, {}, a, q) <==> Has(g, a, q) {
      if Step2Variant(g, {}, a, q) {
        var p :| p in Prods(g, a) && VariantOf(p, {}, q);
        var drop :| DropsNullable(p, drop, {}) && q == Without(p, drop);
        WithoutSameMembers(p, drop, []);
        WithoutNothing(p);
      }
      if Has(g, a, q) {
        assert q != [] && q[0] in nts + terminals;
        assert q != [Epsilon];
        WithoutNothing(q);
        assert DropsNullable(q, [], {});
        assert q in Prods(g, a) && VariantOf(q, {}, q);
      }
    }
  }

  /** After step 3 on an ε-free grammar, every production of one symbol is a terminal. */
  ghost predicate UnitFree(g: Grammar, nts: set<Symbol>, terminals: set<Symbol>) {
    EpsilonFree(g, nts, terminals) && forall a, q :: Has(g, a, q) && |q| == 1 ==> q[0] in terminals
  }

  lemma Step3KeepsEpsilonFree(g: Grammar, nts: set<Symbol>, terminals: set<Symbol>, pairs: set<Pair>, r: Grammar)
    requires EpsilonFree(g, nts, terminals) && Step3Built(g, nts, pairs, r) && r.m.Keys <= nts
    ensures UnitFree(r, nts, terminals)
  {
    forall a, q | Has(r, a, q) ensures q != [] && AllIn(q, nts + terminals) && (|q| == 1 ==> q[0] in terminals) {
      var b :| (a, b) in pairs && q in Prods(g, b) && !IsUnit(q, nts);
      assert Has(g, b, q);
    }
  }

  /** Step 4's output: single symbols are terminals, longer rules use only nonterminals. */
  ghost predicate MixedFree(g: Grammar, nts: set<Symbol>, terminals: set<Symbol>) {
    Valid(g) && g.m.Keys <= nts &&
    forall a, q :: Has(g, a, q) ==> q != [] && (|q| == 1 ==> q[0] in terminals) && (|q| >= 2 ==> AllIn(q, nts))
  }

  lemma Step4MakesMixedFree(g: Grammar, nts: set<Symbol>, terminals: set<Symbol>, counter: nat)
    requires UnitFree(g, nts, terminals)
    ensures var s := Step4Result(g, nts, counter, terminals); MixedFree(s.g, s.nts, terminals)
  {
    Step4ResultFacts(g, nts, counter, terminals);
    var s := Step4Result(g, nts, counter, terminals);
    forall a, q | Has(s.g, a, q)
      ensures q != [] && (|q| == 1 ==> q[0] in terminals) && (|q| >= 2 ==> AllIn(q, s.nts))
    {
      if a in nts {
        var p :| p in Prods(g, a) && q == Step4Image(p, terminals, s.tvars);
        assert Has(g, a, p);
        if |p| != 1 {
          assert Covered(p, terminals, s.tvars);
          forall i | 0 <= i < |q| ensures q[i] in s.nts {
            if p[i] in terminals {
              var v := s.tvars[p[i]];
              assert Prods(s.g, v) == [[p[i]]];
              assert v in s.g.m;
            } else {
              assert p[i] in nts + terminals;
            }
          }
        }
      } else {
        var t :| t in s.tvars && s.tvars[t] == a;
        assert Prods(s.g, a) == [[t]];
      }
    }
  }

  /** Step 5 on step 4's output yields a grammar `is_valid_cnf` accepts. */
  lemma Step5MakesCnf(g: Grammar, nts: set<Symbol>, terminals: set<Symbol>, counter: nat, start: Option<Symbol>)
    requires MixedFree(g, nts, terminals) && Epsilon !in terminals
    ensures var s := Step5Result(g, nts, counter); ValidCnf(s.g, start, terminals, s.nts)
  {
    Step5ResultFacts(g, nts, counter);
    var s := Step5Result(g, nts, counter);
    assert LongRulesOver(g, nts);
    forall a, q | Has(s.g, a, q) ensures CnfRule(s.g, start, terminals, s.nts, a, q) {
      if |q| <= 1 {
        assert Has(g, a, q);
        assert q[0] in terminals;
        assert q[0] != Epsilon;
      }
    }
  }

  class Converter {
    var grammar: Grammar
    var terminals: set<Symbol>
    var nonTerminals: set<Symbol>
    var startSymbol: Option<Symbol>
    var newVarCounter: nat

    /** The dictionary is well formed and every key is a known nonterminal. */
    ghost predicate Consistent()
      reads this
    {
      Valid(grammar) && grammar.m.Keys <= nonTerminals
    }

    constructor()
      ensures grammar == Empty() && terminals == {} && nonTerminals == {}
      ensures startSymbol == None && newVarCounter == 0
      ensures Consistent()
    {
      grammar := Empty();
      terminals := {};
      nonTerminals := {};
      startSymbol := None;
      newVarCounter := 0;
    }

    /** `parse_grammar(grammar_rules, start_symbol)` on list productions. */
    method ParseGrammar(rules: Grammar, start: Symbol)
      requires Valid(rules)
      modifies this
      ensures grammar == ParsedRules(rules, |rules.keys|)
      ensures nonTerminals == rules.m.Keys
      ensures terminals == TerminalsOf(grammar, nonTerminals)
      ensures startSymbol == Some(if start in nonTerminals then start else "S")
      ensures newVarCounter == old(newVarCounter)
      ensures Consistent()
    {
      var nts: set<Symbol> := {};
      var i := 0;
      while i < |rules.keys|
        invariant 0 <= i <= |rules.keys|
        invariant nts == set k | k in rules.keys[..i]
      {
        nts := nts + {rules.keys[i]};
        i := i + 1;
      }
      assert rules.keys[..i] == rules.keys;
      var g := BuildParsed(rules);
      ParsedRulesShape(rules, |rules.keys|);
      grammar := g;
      nonTerminals := nts;
      terminals := CollectTerminals(g, nts);
      startSymbol := Some(if start in nts then start else "S");
    }

    /** `parse_grammar_from_string(grammar_string)`: one rule entry per `->` line, then
        `parse_grammar` with the default start symbol. */
    method ParseGrammarFromString(text: string)
      modifies this
      ensures grammar == ParsedRules(StringRules(text), |StringRules(text).keys|)
      ensures nonTerminals == StringRules(text).m.Keys
      ensures terminals == TerminalsOf(grammar, nonTerminals)
      ensures startSymbol == Some("S")
      ensures Consistent()
    {
      var rules := RulesOfLines(SplitOn(Strip(text), "\n"));
      LastLineWins(Entries(Lines(text)));
      ParseGrammar(rules, "S");
    }

    /** The loop over lines, building `grammar_rules`. */
    static method RulesOfLines(lines: seq<string>) returns (rules: Grammar)
      ensures rules == EntriesRules(Entries(lines))
    {
      ghost var es := Entries(lines);
      rules := Empty();
      var i := 0;
      while i < |lines|
        invariant 0 <= i <= |lines|
        invariant rules == EntriesRules(es[..i])
      {
        var e := ParseLine(lines[i]);
        EntriesRulesSnoc(es, i);
        if e.Some? {
          rules := Put(rules, e.value.0, e.value.1);
        }
        i := i + 1;
      }
      assert es[..i] == es;
    }

    /** The body of the loop over lines: the entry one line contributes. */
    static method ParseLine(line: string) returns (e: Entry)
      ensures e == LineRule(line)
    {
      var l := Strip(line);
      if l == [] || !Contains(l, "->") {
        return None;
      }
      var parts := SplitOn(l, "->");
      var prods := ParseAlternatives(SplitOn(parts[1], "|"));
      e := Some((Strip(parts[0]), prods));
    }

    /** The loop over `raw_productions`. */
    static method ParseAlternatives(alts: seq<string>) returns (prods: seq<Production>)
      ensures prods == AltProductions(alts)
    {
      prods := [];
      for j := 0 to |alts|
        invariant |prods| == j && forall k :: 0 <= k < j ==> prods[k] == AltProduction(alts[k])
      {
        prods := prods + [AltProduction(alts[j])];
      }
    }

    /** The second pass of `parse_grammar`, over the rule entries in order. */
    static method BuildParsed(rules: Grammar) returns (g: Grammar)
      ensures g == ParsedRules(rules, |rules.keys|)
    {
      g := Empty();
      var i := 0;
      while i < |rules.keys|
        invariant 0 <= i <= |rules.keys|
        invariant g == ParsedRules(rules, i)
      {
        var nt := rules.keys[i];
        g := AppendParsed(g, nt, Prods(rules, nt));
        i := i + 1;
      }
    }

    static method AppendParsed(g0: Grammar, nt: Symbol, prods: seq<Production>) returns (g: Grammar)
      ensures g == ParsedProds(g0, nt, prods)
    {
      g := g0;
      var j := 0;
      while j < |prods|
        invariant 0 <= j <= |prods|
        invariant g == ParsedProds(g0, nt, prods[..j])
      {
        assert prods[..j + 1][..j] == prods[..j];
        g := Append(g, nt, NormalizeEpsilon(prods[j]));
        j := j + 1;
      }
      assert prods[..j] == prods;
    }

    /** The loop of `parse_grammar` that records the terminals. */
    static method CollectTerminals(g: Grammar, nts: set<Symbol>) returns (ts: set<Symbol>)
      requires Valid(g)
      ensures ts == TerminalsOf(g, nts)
    {
      ts := {};
      var i := 0;
      while i < |g.keys|
        invariant 0 <= i <= |g.keys|
        invariant ts == (set k, p, x | k in g.keys[..i] && p in Prods(g, k) && x in p :: x) - nts - {Epsilon}
      {
        ghost var before := ts;
        ts := ProdsTerminals(Prods(g, g.keys[i]), nts, ts);
        TerminalsSnoc(g, nts, i, before, ts);
        i := i + 1;
      }
      assert g.keys[..i] == g.keys;
      RhsSymbolsByKeys(g);
    }

    /** The loop over the productions of one nonterminal. */
    static method ProdsTerminals(prods: seq<Production>, nts: set<Symbol>, ts0: set<Symbol>) returns (ts: set<Symbol>)
      ensures ts == ts0 + ((set p, x | p in prods && x in p :: x) - nts - {Epsilon})
    {
      ts := ts0;
      var j := 0;
      while j < |prods|
        invariant 0 <= j <= |prods|
        invariant ts == ts0 + ((set p, x | p in prods[..j] && x in p :: x) - nts - {Epsilon})
      {
        ghost var mid := ts;
        ts := ProdTerminals(prods[j], nts, ts);
        assert prods[..j + 1] == prods[..j] + [prods[j]];
        assert (set p, x | p in prods[..j + 1] && x in p :: x) ==
          (set p, x | p in prods[..j] && x in p :: x) + (set x | x in prods[j]);
        j := j + 1;
      }
      assert prods[..j] == prods;
    }

    /** The loop over the symbols of one production. */
    static method ProdTerminals(p: Production, nts: set<Symbol>, ts0: set<Symbol>) returns (ts: set<Symbol>)
      ensures ts == ts0 + ((set x | x in p) - nts - {Epsilon})
    {
      ts := ts0;
      var l := 0;
      while l < |p|
        invariant 0 <= l <= |p|
        invariant ts == ts0 + ((set x | x in p[..l]) - nts - {Epsilon})
      {
        assert p[..l + 1] == p[..l] + [p[l]];
        if p[l] !in nts && p[l] != Epsilon {
          ts := ts + {p[l]};
        }
        l := l + 1;
      }
      assert p[..l] == p;
    }

    /** `_generate_new_variable(prefix)`. */
    method GenerateNewVariable(prefix: string) returns (v: Symbol)
      modifies this`nonTerminals, this`newVarCounter
      ensures v == Name(prefix, Fresh(prefix, old(nonTerminals), old(newVarCounter)))
      ensures v !in old(nonTerminals)
      ensures nonTerminals == old(nonTerminals) + {v}
      ensures newVarCounter == Fresh(prefix, old(nonTerminals), old(newVarCounter)) + 1
      ensures newVarCounter > old(newVarCounter)
    {
      ghost var lo := newVarCounter;
      while true
        invariant lo <= newVarCounter
        invariant nonTerminals == old(nonTerminals)
        invariant forall j :: lo <= j < newVarCounter ==> Name(prefix, j) in nonTerminals
        invariant FreshFrom(prefix, nonTerminals, lo, newVarCounter) == Fresh(prefix, nonTerminals, lo)
        decreases |nonTerminals| - (newVarCounter - lo)
      {
        TakenNamesBound(prefix, nonTerminals, lo, newVarCounter);
        v := Name(prefix, newVarCounter);
        newVarCounter := newVarCounter + 1;
        if v !in nonTerminals {
          nonTerminals := nonTerminals + {v};
          return;
        }
        TakenNamesBound(prefix, nonTerminals, lo, newVarCounter);
      }
    }

    /** `_step1_add_new_start_symbol()` */
    method Step1AddNewStartSymbol()
      requires Consistent()
      modifies this`grammar, this`startSymbol, this`nonTerminals, this`newVarCounter
      ensures Consistent()
      ensures old(startSymbol).Some? && OnRhs(old(grammar), old(startSymbol).value) ==>
        var v := Name("S", Fresh("S", old(nonTerminals), old(newVarCounter)));
        && v !in old(nonTerminals)
        && grammar == Put(old(grammar), v, [[old(startSymbol).value]])
        && grammar.keys == old(grammar).keys + [v]
        && startSymbol == Some(v)
        && nonTerminals == old(nonTerminals) + {v}
        && newVarCounter == Fresh("S", old(nonTerminals), old(newVarCounter)) + 1
      ensures !(old(startSymbol).Some? && OnRhs(old(grammar), old(startSymbol).value)) ==>
        grammar == old(grammar) && startSymbol == old(startSymbol) &&
        nonTerminals == old(nonTerminals) && newVarCounter == old(newVarCounter)
    {
      var onRhs := StartSymbolOnRhs();
      if onRhs {
        var newStart := GenerateNewVariable("S");
        grammar := Put(grammar, newStart, [[startSymbol.value]]);
        startSymbol := Some(newStart);
      }
    }

    /** `_find_nullable_variables()` */
    method FindNullableVariables() returns (nullable: set<Symbol>)
      requires Valid(grammar)
      ensures LeastNullable(grammar, nullable)
      ensures nullable <= grammar.m.Keys
    {
      nullable := DirectEpsilonLhs(grammar);
      var changed := true;
      while changed
        invariant DirectlyNullable(grammar) <= nullable <= grammar.m.Keys
        invariant BelowEveryClosed(grammar, nullable)
        invariant !changed ==> NullableClosed(grammar, nullable)
        decreases |grammar.m.Keys - nullable| + (if changed then 1 else 0)
      {
        ghost var before := nullable;
        nullable, changed := NullablePass(grammar, nullable);
        if changed {
          StrictShrink(grammar.m.Keys, before, nullable);
        }
      }
    }

    /** The initial pass: every lhs with an `['ε']` production. */
    static method DirectEpsilonLhs(g: Grammar) returns (s: set<Symbol>)
      requires Valid(g)
      ensures s == DirectlyNullable(g)
    {
      s := {};
      var i := 0;
      while i < |g.keys|
        invariant 0 <= i <= |g.keys|
        invariant s == set k | k in g.keys[..i] && [Epsilon] in Prods(g, k)
      {
        var nt := g.keys[i];
        var prods := Prods(g, nt);
        var j := 0;
        ghost var before := s;
        while j < |prods|
          invariant 0 <= j <= |prods|
          invariant s == before + (if [Epsilon] in prods[..j] then {nt} else {})
        {
          if prods[j] == [Epsilon] {
            s := s + {nt};
          }
          assert prods[..j + 1] == prods[..j] + [prods[j]];
          j := j + 1;
        }
        assert prods[..j] == prods;
        assert g.keys[..i + 1] == g.keys[..i] + [nt];
        i := i + 1;
      }
      assert g.keys[..i] == g.keys;
    }

    /** One sweep of the `while changed` loop, adding lhs symbols as it goes. */
    static method NullablePass(g: Grammar, s0: set<Symbol>) returns (s: set<Symbol>, changed: bool)
      requires Valid(g) && BelowEveryClosed(g, s0) && s0 <= g.m.Keys
      ensures s0 <= s <= g.m.Keys && BelowEveryClosed(g, s)
      ensures changed <==> s != s0
      ensures !changed ==> NullableClosed(g, s)
    {
      s := s0;
      changed := false;
      var i := 0;
      while i < |g.keys|
        invariant 0 <= i <= |g.keys|
        invariant s0 <= s <= g.m.Keys && BelowEveryClosed(g, s)
        invariant changed <==> s != s0
        invariant !changed ==> forall k :: k in g.keys[..i] ==> k in s || NoneAllIn(Prods(g, k), s)
      {
        var nt := g.keys[i];
        if nt !in s {
          var found := FindAllIn(Prods(g, nt), s);
          if found {
            var p :| p in Prods(g, nt) && AllIn(p, s);
            BelowAdd(g, s, nt, p);
            s := s + {nt};
            changed := true;
          }
        }
        assert g.keys[..i + 1] == g.keys[..i] + [nt];
        i := i + 1;
      }
      assert g.keys[..i] == g.keys;
    }

    /** The inner `for prod in productions` loop with its `break`. */
    static method FindAllIn(prods: seq<Production>, s: set<Symbol>) returns (found: bool)
      ensures found <==> !NoneAllIn(prods, s)
    {
      var j := 0;
      while j < |prods|
        invariant 0 <= j <= |prods|
        invariant NoneAllIn(prods[..j], s)
      {
        if AllIn(prods[j], s) {
          return true;
        }
        assert prods[..j + 1] == prods[..j] + [prods[j]];
        j := j + 1;
      }
      assert prods[..j] == prods;
      return false;
    }

    /** `_step2_eliminate_epsilon_productions()`; the nullable set it computes is returned too. */
    method Step2EliminateEpsilonProductions() returns (ghost nullable: set<Symbol>)
      requires Consistent()
      modifies this`grammar
      ensures LeastNullable(old(grammar), nullable) && nullable <= old(grammar).m.Keys
      ensures grammar == Step2Result(old(grammar), nullable, startSymbol)
    {
      var n := FindNullableVariables();
      nullable := n;
      var source := grammar;
      var g := Empty();
      var i := 0;
      while i < |source.keys|
        invariant 0 <= i <= |source.keys|
        invariant g == Step2Keys(source, i, n)
      {
        var nt := source.keys[i];
        g := Step2Nonterminal(g, nt, Prods(source, nt), n);
        i := i + 1;
      }
      if startSymbol.Some? && startSymbol.value in n {
        g := Append(g, startSymbol.value, [Epsilon]);
      }
      grammar := g;
    }

    static method Step2Nonterminal(g0: Grammar, nt: Symbol, prods: seq<Production>, nullable: set<Symbol>)
      returns (g: Grammar)
      ensures g == Step2Prods(g0, nt, prods, nullable)
    {
      g := g0;
      var j := 0;
      while j < |prods|
        invariant 0 <= j <= |prods|
        invariant g == Step2Prods(g0, nt, prods[..j], nullable)
      {
        assert prods[..j + 1][..j] == prods[..j];
        g := Step2Production(g, nt, prods[j], nullable);
        j := j + 1;
      }
      assert prods[..j] == prods;
    }

    static method Step2Production(g0: Grammar, nt: Symbol, p: Production, nullable: set<Symbol>)
      returns (g: Grammar)
      ensures g == Step2Prod(g0, nt, p, nullable)
    {
      g := g0;
      if p == [Epsilon] {
        return;
      }
      var positions := NullablePositions(p, nullable);
      g := Step2AllSizes(g0, nt, p, positions);
    }

    /** The `for r in range(len(nullable_positions) + 1)` loop. */
    static method Step2AllSizes(g0: Grammar, nt: Symbol, p: Production, positions: seq<nat>)
      returns (g: Grammar)
      ensures g == Step2Subsets(g0, nt, p, CombinationsBelow(positions, |positions| + 1))
    {
      g := g0;
      var r := 0;
      while r < |positions| + 1
        invariant 0 <= r <= |positions| + 1
        invariant g == Step2Subsets(g0, nt, p, CombinationsBelow(positions, r))
      {
        var combos := Combinations(positions, r);
        assert CombinationsBelow(positions, r + 1) == CombinationsBelow(positions, r) + combos;
        Step2SubsetsConcat(g0, nt, p, CombinationsBelow(positions, r), combos);
        g := Step2Combinations(g, nt, p, combos);
        r := r + 1;
      }
    }

    /** The `for positions_to_remove in combinations(...)` loop for one size. */
    static method Step2Combinations(g0: Grammar, nt: Symbol, p: Production, combos: seq<seq<nat>>)
      returns (g: Grammar)
      ensures g == Step2Subsets(g0, nt, p, combos)
    {
      g := g0;
      var j := 0;
      while j < |combos|
        invariant 0 <= j <= |combos|
        invariant g == Step2Subsets(g0, nt, p, combos[..j])
      {
        assert combos[..j + 1][..j] == combos[..j];
        var newProd := Without(p, combos[j]);
        if newProd != [] {
          g := AppendNew(g, nt, newProd);
        }
        j := j + 1;
      }
      assert combos[..j] == combos;
    }
    /** The unit-pair closure of `_step3_eliminate_unit_productions`. */
    method UnitPairs() returns (pairs: set<Pair>)
      requires Consistent()
      ensures LeastUnitPairs(grammar, nonTerminals, pairs)
      ensures pairs <= Square(nonTerminals)
    {
      pairs := IdentityPairs(nonTerminals);
      pairs := AddDirectUnitPairs(grammar, nonTerminals, pairs);
      SeedsInSquare(grammar, nonTerminals);
      var changed := true;
      while changed
        invariant UnitSeeds(grammar, nonTerminals) <= pairs <= Square(nonTerminals)
        invariant BelowEveryTransitive(grammar, nonTerminals, pairs)
        invariant !changed ==> TransitivelyClosed(pairs)
        decreases |Square(nonTerminals) - pairs| + (if changed then 1 else 0)
      {
        ghost var before := pairs;
        pairs, changed := ClosureRound(grammar, nonTerminals, pairs);
        if changed {
          StrictShrink(Square(nonTerminals), before, pairs);
        }
      }
    }

    /** One round of `while changed`: add the composed pairs, report whether any was new. */
    static method ClosureRound(g: Grammar, nts: set<Symbol>, pairs0: set<Pair>) returns (pairs: set<Pair>, changed: bool)
      requires pairs0 <= Square(nts) && BelowEveryTransitive(g, nts, pairs0)
      ensures pairs0 <= pairs <= Square(nts) && BelowEveryTransitive(g, nts, pairs)
      ensures changed <==> pairs != pairs0
      ensures !changed ==> TransitivelyClosed(pairs)
    {
      var newPairs := ComposePass(pairs0);
      changed := newPairs != {};
      BelowCompose(g, nts, pairs0);
      ComposedInSquare(nts, pairs0);
      pairs := pairs0 + newPairs;
    }

    static method IdentityPairs(nts: set<Symbol>) returns (pairs: set<Pair>)
      ensures pairs == set a | a in nts :: (a, a)
    {
      pairs := {};
      var todo := nts;
      while todo != {}
        invariant todo <= nts
        invariant pairs == set a | a in nts - todo :: (a, a)
        decreases todo
      {
        var nt :| nt in todo;
        pairs := pairs + {(nt, nt)};
        todo := todo - {nt};
      }
    }

    static method AddDirectUnitPairs(g: Grammar, nts: set<Symbol>, pairs0: set<Pair>) returns (pairs: set<Pair>)
      requires Valid(g)
      ensures pairs == pairs0 + (set k, p | k in g.m && p in g.m[k] && IsUnit(p, nts) :: (k, p[0]))
    {
      pairs := pairs0;
      var i := 0;
      while i < |g.keys|
        invariant 0 <= i <= |g.keys|
        invariant pairs == pairs0 + (set k, p | k in g.keys[..i] && p in Prods(g, k) && IsUnit(p, nts) :: (k, p[0]))
      {
        var nt := g.keys[i];
        pairs := AddUnitPairsOf(nt, Prods(g, nt), nts, pairs);
        UnitPairsSnoc(g, nts, i);
        i := i + 1;
      }
      assert g.keys[..i] == g.keys;
    }

    /** The inner loop of the seeding, over the productions of one nonterminal. */
    static method AddUnitPairsOf(nt: Symbol, prods: seq<Production>, nts: set<Symbol>, pairs0: set<Pair>)
      returns (pairs: set<Pair>)
      ensures pairs == pairs0 + (set p | p in prods && IsUnit(p, nts) :: (nt, p[0]))
    {
      pairs := pairs0;
      var j := 0;
      while j < |prods|
        invariant 0 <= j <= |prods|
        invariant pairs == pairs0 + (set p | p in prods[..j] && IsUnit(p, nts) :: (nt, p[0]))
      {
        if |prods[j]| == 1 && prods[j][0] in nts {
          pairs := pairs + {(nt, prods[j][0])};
        }
        assert prods[..j + 1] == prods[..j] + [prods[j]];
        j := j + 1;
      }
      assert prods[..j] == prods;
    }

    /** The doubly nested loop of one closure round. */
    static method ComposePass(pairs: set<Pair>) returns (newPairs: set<Pair>)
      ensures newPairs == Composed(pairs) - pairs
    {
      newPairs := {};
      var todo := pairs;
      while todo != {}
        invariant todo <= pairs
        invariant newPairs == (set x, y | x in pairs - todo && y in pairs && x.1 == y.0 :: (x.0, y.1)) - pairs
        decreases todo
      {
        var x :| x in todo;
        var more := ComposeWith(pairs, x);
        newPairs := newPairs + more;
        todo := todo - {x};
      }
    }

    static method ComposeWith(pairs: set<Pair>, x: Pair) returns (more: set<Pair>)
      ensures more == (set y | y in pairs && x.1 == y.0 :: (x.0, y.1)) - pairs
    {
      more := {};
      var todo := pairs;
      while todo != {}
        invariant todo <= pairs
        invariant more == (set y | y in pairs - todo && x.1 == y.0 :: (x.0, y.1)) - pairs
        decreases todo
      {
        var y :| y in todo;
        if x.1 == y.0 && (x.0, y.1) !in pairs {
          more := more + {(x.0, y.1)};
        }
        todo := todo - {y};
      }
    }

    /** `_step3_eliminate_unit_productions()`; the unit pairs are returned too. The rebuilt
        dictionary's order follows Python's set iteration, so it is characterised, not fixed. */
    method Step3EliminateUnitProductions() returns (ghost pairs: set<Pair>)
      requires Consistent()
      modifies this`grammar
      ensures LeastUnitPairs(old(grammar), nonTerminals, pairs)
      ensures Step3Built(old(grammar), nonTerminals, pairs, grammar)
      ensures Consistent()
    {
      var up := UnitPairs();
      pairs := up;
      var source := grammar;
      var g := Empty();
      var todo := up;
      while todo != {}
        invariant todo <= up
        invariant Step3Built(source, nonTerminals, up - todo, g)
        invariant g.m.Keys <= nonTerminals
        decreases todo
      {
        var ab :| ab in todo;
        ghost var done := up - todo;
        g := Step3Pair(source, nonTerminals, done, ab, g);
        todo := todo - {ab};
        assert up - todo == done + {ab};
      }
      grammar := g;
    }

    /** One pass of that loop: the unit pair `(a, b)` gives `a` the non-unit productions of `b`. */
    static method Step3Pair(source: Grammar, nts: set<Symbol>, ghost done: set<Pair>, ab: Pair, g0: Grammar)
      returns (g: Grammar)
      requires Step3Built(source, nts, done, g0) && g0.m.Keys <= nts && ab.0 in nts
      ensures Step3Built(source, nts, done + {ab}, g) && g.m.Keys <= nts
    {
      g := g0;
      if ab.1 in source.m {
        g := Step3Inherit(g, ab.0, Prods(source, ab.1), nts);
      }
      Step3BuiltStep(source, nts, done, ab, g0, g);
    }

    static method Step3Inherit(g0: Grammar, a: Symbol, prods: seq<Production>, nts: set<Symbol>)
      returns (g: Grammar)
      ensures g == Step3Prods(g0, a, prods, nts)
    {
      g := g0;
      var j := 0;
      while j < |prods|
        invariant 0 <= j <= |prods|
        invariant g == Step3Prods(g0, a, prods[..j], nts)
      {
        assert prods[..j + 1][..j] == prods[..j];
        if !(|prods[j]| == 1 && prods[j][0] in nts) {
          g := AppendNew(g, a, prods[j]);
        }
        j := j + 1;
      }
      assert prods[..j] == prods;
    }

    /** `_step4_replace_terminals_in_mixed_rules()`; `terminal_vars` is returned too. */
    method Step4ReplaceTerminalsInMixedRules() returns (ghost tvars: map<Symbol, Symbol>)
      modifies this`grammar, this`nonTerminals, this`newVarCounter
      ensures Step4State(grammar, nonTerminals, newVarCounter, tvars) ==
        Step4Result(old(grammar), old(nonTerminals), old(newVarCounter), terminals)
    {
      var source := grammar;
      var g := Empty();
      var tv: map<Symbol, Symbol> := map[];
      var i := 0;
      while i < |source.keys|
        invariant 0 <= i <= |source.keys|
        invariant Step4State(g, nonTerminals, newVarCounter, tv) ==
          Step4Keys(source, i, Step4State(Empty(), old(nonTerminals), old(newVarCounter), map[]), terminals)
      {
        var nt := source.keys[i];
        g, tv := Step4Nonterminal(g, tv, nt, Prods(source, nt));
        i := i + 1;
      }
      grammar := g;
      tvars := tv;
    }

    method Step4Nonterminal(g0: Grammar, tv0: map<Symbol, Symbol>, nt: Symbol, prods: seq<Production>)
      returns (g: Grammar, tv: map<Symbol, Symbol>)
      modifies this`nonTerminals, this`newVarCounter
      ensures Step4State(g, nonTerminals, newVarCounter, tv) ==
        Step4Prods(Step4State(g0, old(nonTerminals), old(newVarCounter), tv0), terminals, nt, prods)
    {
      g, tv := g0, tv0;
      var j := 0;
      while j < |prods|
        invariant 0 <= j <= |prods|
        invariant Step4State(g, nonTerminals, newVarCounter, tv) ==
          Step4Prods(Step4State(g0, old(nonTerminals), old(newVarCounter), tv0), terminals, nt, prods[..j])
      {
        assert prods[..j + 1][..j] == prods[..j];
        var p := prods[j];
        if |p| == 1 {
          g := AppendNew(g, nt, p);
        } else {
          var q;
          g, tv, q := Step4Replace(g, tv, p);
          g := AppendNew(g, nt, q);
        }
        j := j + 1;
      }
      assert prods[..j] == prods;
    }

    /** The `for symbol in prod` loop that builds `new_prod`. */
    method Step4Replace(g0: Grammar, tv0: map<Symbol, Symbol>, p: Production)
      returns (g: Grammar, tv: map<Symbol, Symbol>, q: Production)
      modifies this`nonTerminals, this`newVarCounter
      ensures (Step4State(g, nonTerminals, newVarCounter, tv), q) ==
        Step4Symbols(Step4State(g0, old(nonTerminals), old(newVarCounter), tv0), terminals, p)
    {
      g, tv, q := g0, tv0, [];
      var l := 0;
      while l < |p|
        invariant 0 <= l <= |p|
        invariant (Step4State(g, nonTerminals, newVarCounter, tv), q) ==
          Step4Symbols(Step4State(g0, old(nonTerminals), old(newVarCounter), tv0), terminals, p[..l])
      {
        assert p[..l + 1][..l] == p[..l];
        var x := p[l];
        if x in terminals {
          if x !in tv {
            var v := GenerateNewVariable("T");
            tv := tv[x := v];
            g := Put(g, v, [[x]]);
          }
          q := q + [tv[x]];
        } else {
          q := q + [x];
        }
        l := l + 1;
      }
      assert p[..l] == p;
    }

    /** `_step5_break_long_productions()` */
    method Step5BreakLongProductions()
      modifies this`grammar, this`nonTerminals, this`newVarCounter
      ensures Step5State(grammar, nonTerminals, newVarCounter) ==
        Step5Result(old(grammar), old(nonTerminals), old(newVarCounter))
    {
      var source := grammar;
      var g := Empty();
      var i := 0;
      while i < |source.keys|
        invariant 0 <= i <= |source.keys|
        invariant Step5State(g, nonTerminals, newVarCounter) ==
          Step5Keys(source, i, Step5State(Empty(), old(nonTerminals), old(newVarCounter)))
      {
        var nt := source.keys[i];
        g := Step5Nonterminal(g, nt, Prods(source, nt));
        i := i + 1;
      }
      grammar := g;
    }

    method Step5Nonterminal(g0: Grammar, nt: Symbol, prods: seq<Production>) returns (g: Grammar)
      modifies this`nonTerminals, this`newVarCounter
      ensures Step5State(g, nonTerminals, newVarCounter) ==
        Step5Prods(Step5State(g0, old(nonTerminals), old(newVarCounter)), nt, prods)
    {
      g := g0;
      var j := 0;
      while j < |prods|
        invariant 0 <= j <= |prods|
        invariant Step5State(g, nonTerminals, newVarCounter) ==
          Step5Prods(Step5State(g0, old(nonTerminals), old(newVarCounter)), nt, prods[..j])
      {
        assert prods[..j + 1][..j] == prods[..j];
        g := Step5Production(g, nt, prods[j]);
        j := j + 1;
      }
      assert prods[..j] == prods;
    }

    method Step5Production(g0: Grammar, nt: Symbol, p: Production) returns (g: Grammar)
      modifies this`nonTerminals, this`newVarCounter
      ensures Step5State(g, nonTerminals, newVarCounter) ==
        Step5Prod(Step5State(g0, old(nonTerminals), old(newVarCounter)), nt, p)
    {
      if |p| <= 2 {
        g := AppendNew(g0, nt, p);
      } else {
        var current;
        g, current := Step5Chain(g0, nt, p);
        g := Append(g, current, [p[|p| - 2], p[|p| - 1]]);
      }
    }

    /** The `for i in range(len(prod) - 2)` loop. */
    method Step5Chain(g0: Grammar, nt: Symbol, p: Production) returns (g: Grammar, current: Symbol)
      requires |p| > 2
      modifies this`nonTerminals, this`newVarCounter
      ensures (Step5State(g, nonTerminals, newVarCounter), current) ==
        Chain(Step5State(g0, old(nonTerminals), old(newVarCounter)), nt, p, |p| - 2)
    {
      g, current := g0, nt;
      ghost var s0 := Step5State(g0, nonTerminals, newVarCounter);
      var i := 0;
      while i < |p| - 2
        invariant 0 <= i <= |p| - 2
        invariant (Step5State(g, nonTerminals, newVarCounter), current) == Chain(s0, nt, p, i)
      {
        g, current := Step5Link(g, current, s0, nt, p, i);
        i := i + 1;
      }
    }

    /** One pass of that loop: `new_grammar[current_nt].append([prod[i], new_var])`, taking
        the chain of `p` from link `i` to link `i + 1`. */
    method Step5Link(g0: Grammar, current0: Symbol, ghost s0: Step5State, nt: Symbol, p: Production, i: nat)
      returns (g: Grammar, current: Symbol)
      requires i < |p|
      requires (Step5State(g0, nonTerminals, newVarCounter), current0) == Chain(s0, nt, p, i)
      modifies this`nonTerminals, this`newVarCounter
      ensures (Step5State(g, nonTerminals, newVarCounter), current) == Chain(s0, nt, p, i + 1)
    {
      ghost var before := Step5State(g0, nonTerminals, newVarCounter);
      ChainNext(s0, nt, p, i, before, current0);
      var v := GenerateNewVariable("Y");
      g := Append(g0, current0, [p[i], v]);
      current := v;
      assert (Step5State(g, nonTerminals, newVarCounter), current) == ChainLink(before, current0, p[i]);
    }

    /** `_start_symbol_on_rhs()`. */
    method StartSymbolOnRhs() returns (b: bool)
      requires Valid(grammar)
      ensures b <==> startSymbol.Some? && OnRhs(grammar, startSymbol.value)
    {
      if startSymbol.Some? {
        OnRhsComplete(grammar, startSymbol.value);
      }
      var i := 0;
      while i < |grammar.keys|
        invariant 0 <= i <= |grammar.keys|
        invariant startSymbol.Some? ==> !OnRhsBefore(grammar, startSymbol.value, i)
      {
        var prods := Prods(grammar, grammar.keys[i]);
        var j := 0;
        while j < |prods|
          invariant 0 <= j <= |prods|
          invariant startSymbol.Some? ==> forall q :: q in prods[..j] ==> startSymbol.value !in q
        {
          if startSymbol.Some? && startSymbol.value in prods[j] {
            return true;
          }
          assert prods[..j + 1] == prods[..j] + [prods[j]];
          j := j + 1;
        }
        assert prods[..j] == prods;
        i := i + 1;
      }
      return false;
    }

    /** `convert_to_cnf()`: the five steps in order; the grammar it returns is the converter's.
        On an ε-free grammar the result is in Chomsky normal form as `is_valid_cnf` checks it. */
    method ConvertToCnf() returns (cnf: Grammar)
      requires Consistent()
      modifies this
      ensures cnf == grammar && Consistent()
      ensures terminals == old(terminals)
      ensures EpsilonFree(old(grammar), old(nonTerminals), old(terminals)) ==>
        ValidCnf(grammar, startSymbol, terminals, nonTerminals)
    {
      ghost var ready := EpsilonFree(grammar, nonTerminals, terminals);
      ghost var g0, nts0, start0, c0, ts := grammar, nonTerminals, startSymbol, newVarCounter, terminals;
      Step1AddNewStartSymbol();
      assert terminals == ts;
      if ready && start0.Some? && OnRhs(g0, start0.value) {
        Step1KeepsEpsilonFree(g0, nts0, terminals, start0.value, Fresh("S", nts0, c0));
      }
      ghost var g1 := grammar;
      ghost var nullable := Step2EliminateEpsilonProductions();
      assert terminals == ts;
      Step2ResultFacts(g1, nullable, startSymbol);
      if ready {
        NothingNullable(g1, nonTerminals, terminals, nullable);
        Step2KeepsEpsilonFree(g1, nonTerminals, terminals, startSymbol);
      }
      ghost var g2 := grammar;
      ghost var pairs := Step3EliminateUnitProductions();
      assert terminals == ts;
      if ready {
        Step3KeepsEpsilonFree(g2, nonTerminals, terminals, pairs, grammar);
      }
      ghost var g3, nts3, c3 := grammar, nonTerminals, newVarCounter;
      ghost var tvars := Step4ReplaceTerminalsInMixedRules();
      assert terminals == ts;
      Step4ResultFacts(g3, nts3, c3, terminals);
      if ready {
        Step4MakesMixedFree(g3, nts3, terminals, c3);
      }
      ghost var g4, nts4, c4 := grammar, nonTerminals, newVarCounter;
      Step5BreakLongProductions();
      assert terminals == ts;
      Step5ResultFacts(g4, nts4, c4);
      if ready {
        Step5MakesCnf(g4, nts4, terminals, c4, startSymbol);
      }
      cnf := grammar;
    }

    /** One production's test in `is_valid_cnf()`. */
    method RuleIsCnf(nt: Symbol, q: Production) returns (ok: bool)
      requires Valid(grammar)
      ensures ok == CnfRule(grammar, startSymbol, terminals, nonTerminals, nt, q)
    {
      if q == [Epsilon] {
        if startSymbol != Some(nt) {
          return false;
        }
        var onRhs := StartSymbolOnRhs();
        return !onRhs;
      } else if |q| == 1 {
        return q[0] in terminals;
      } else if |q| == 2 {
        return q[0] in nonTerminals && q[1] in nonTerminals;
      }
      return false;
    }

    /** `is_valid_cnf()` */
    method IsValidCnf() returns (b: bool)
      requires Valid(grammar)
      ensures b == ValidCnf(grammar, startSymbol, terminals, nonTerminals)
    {
      var i := 0;
      while i < |grammar.keys|
        invariant 0 <= i <= |grammar.keys|
        invariant forall k, q :: 0 <= k < i && q in Prods(grammar, grammar.keys[k]) ==>
          CnfRule(grammar, startSymbol, terminals, nonTerminals, grammar.keys[k], q)
      {
        var nt := grammar.keys[i];
        var prods := Prods(grammar, nt);
        var j := 0;
        while j < |prods|
          invariant 0 <= j <= |prods|
          invariant forall q :: q in prods[..j] ==> CnfRule(grammar, startSymbol, terminals, nonTerminals, nt, q)
        {
          var ok := RuleIsCnf(nt, prods[j]);
          if !ok {
            assert Has(grammar, nt, prods[j]);
            return false;
          }
          assert prods[..j + 1] == prods[..j] + [prods[j]];
          j := j + 1;
        }
        assert prods[..j] == prods;
        i := i + 1;
      }
      forall a, q | Has(grammar, a, q) ensures CnfRule(grammar, startSymbol, terminals, nonTerminals, a, q) {
        var k :| 0 <= k < |grammar.keys| && grammar.keys[k] == a;
        assert q in Prods(grammar, grammar.keys[k]);
      }
      return true;
    }
  }
}
