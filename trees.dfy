// Parse trees as the Python code builds them: a tuple `(label, child, ...)` whose children are
// tuples or bare strings. A preterminal `(NT, 'w')` is `Node(NT, [Tok("w")])`.
module Trees {
  import opened Text

  datatype Tree = Tok(text: string) | Node(nt: string, kids: seq<Tree>)

  /** `len(t) == 2 and isinstance(t[1], str)` */
  predicate IsLeaf(t: Tree) {
    t.Node? && |t.kids| == 1 && t.kids[0].Tok?
  }

  /** The shape the chart parser produces: every node has children, a node is either a
      preterminal or has only node children, and so on below. */
  predicate Tupled(t: Tree) {
    t.Node? && |t.kids| > 0 && (IsLeaf(t) || forall i :: 0 <= i < |t.kids| ==> Tupled(t.kids[i]))
  }

  /** The terminal strings, left to right. */
  function Yield(t: Tree): seq<string> {
    match t
    case Tok(w) => [w]
    case Node(_, kids) => YieldKids(kids)
  }

  function YieldKids(kids: seq<Tree>): seq<string> {
    if kids == [] then [] else YieldKids(kids[..|kids| - 1]) + Yield(kids[|kids| - 1])
  }

  lemma {:induction false} YieldKidsAppend(a: seq<Tree>, b: seq<Tree>)
    ensures YieldKids(a + b) == YieldKids(a) + YieldKids(b)
    decreases |b|
  {
    if b == [] {
      assert a + b == a;
    } else {
      assert (a + b)[..|a + b| - 1] == a + b[..|b| - 1];
      YieldKidsAppend(a, b[..|b| - 1]);
    }
  }

  /** A preterminal yields its one word. */
  lemma TupledLeafYield(t: Tree)
    requires IsLeaf(t)
    ensures Yield(t) == [t.kids[0].text]
  {
    assert t.kids[..0] == [];
    assert YieldKids(t.kids) == YieldKids(t.kids[..0]) + Yield(t.kids[0]);
  }
}
