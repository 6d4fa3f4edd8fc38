// Context-free grammars as the Python code holds them: an insertion-ordered dictionary from
// nonterminal to its list of productions, each a list of symbols.
module Grammars {
  import opened Dicts

  type Symbol = string
  type Production = seq<Symbol>
  type Grammar = Dict<Symbol, seq<Production>>

  /** The number of productions listed under `keys`, summed in key order. */
  function RuleCountOf(keys: seq<Symbol>, m: map<Symbol, seq<Production>>): nat {
    if keys == [] then 0
    else RuleCountOf(keys[..|keys| - 1], m) + (if keys[|keys| - 1] in m then |m[keys[|keys| - 1]]| else 0)
  }

  /** `sum(len(prods) for prods in grammar.values())` */
  function RuleCount(g: Grammar): nat {
    RuleCountOf(g.keys, g.m)
  }

  /** Every symbol on some right-hand side. */
  ghost function RhsSymbols(g: Grammar): set<Symbol> {
    set k, p, x | k in g.m && p in g.m[k] && x in p :: x
  }
}
