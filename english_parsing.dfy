// The decision `EnglishParser.parse` takes once a sentence is tagged (main.py): the tag-sequence
// checks first, and only when they pass the chart parser over the lower-cased tokens,
// constrained by the tags, whose trees are then de-binarized. The morphological analysis that
// produces the tokens, tags and features is an input.
module EnglishParsing {
  import opened Wrappers
  import opened Text
  import opened Trees
  import Subcategorization
  import SentenceChecks
  import Cky
  import TreeConversion

  /** The `grammatical`, `parse_trees` and `errors` entries of the result dictionary. */
  datatype ParseResult = ParseResult(grammatical: bool, parseTrees: seq<Tree>, errors: seq<string>)

  const NoParseMessage := "No valid parse found for POS sequence"

  /** `[t.lower() for t in tokens]` */
  function LowerAll(tokens: seq<string>): (r: seq<string>)
    ensures |r| == |tokens| && forall i :: 0 <= i < |r| ==> r[i] == Lower(tokens[i])
  {
    seq(|tokens|, i requires 0 <= i < |tokens| => Lower(tokens[i]))
  }

  /** The chart parser accepts the lower-cased tokens under the tags. */
  ghost predicate Accepted(parser: Cky.CkyParser, tokens: seq<string>, tags: seq<string>)
    reads parser
  {
    |tokens| == |tags| && |tokens| > 0 && parser.startSymbol.Some? &&
    parser.startSymbol.value in Cky.Cell(parser.InputOf(LowerAll(tokens), Some(tags)), 0, |tokens| - 1)
  }

  /** `u` is the de-binarized form of a derivation of the whole sentence from the start symbol. */
  ghost predicate ConvertedParse(parser: Cky.CkyParser, converter: TreeConversion.ParseTreeConverter,
                                 tokens: seq<string>, tags: seq<string>, u: Tree)
    reads parser, converter
    requires |tokens| == |tags| && |tokens| > 0 && parser.startSymbol.Some?
  {
    exists t :: Cky.Derives(parser.InputOf(LowerAll(tokens), Some(tags)), t, 0, |tokens| - 1) &&
      t.nt == parser.startSymbol.value && Tupled(t) && u == TreeConversion.Debinarize(converter.Config(), t)
  }

  /** Steps 2 and 3 of `parse`: a sentence failing a tag check is ungrammatical with those
      errors and is never chart-parsed; otherwise it is grammatical exactly when the chart
      parser accepts it, and its trees are the de-binarized chart trees, which keep the root
      label and the words and carry no auxiliary label below the root. */
  method ParseTagged(parser: Cky.CkyParser, converter: TreeConversion.ParseTreeConverter,
                     tokens: seq<string>, tags: seq<string>, features: seq<SentenceChecks.Features>,
                     verbSubcat: map<string, SentenceChecks.VerbInfo>)
    returns (result: ParseResult)
    requires |tags| > 0 && |features| == |tags|
    ensures SentenceChecks.TagErrors(tags, features, verbSubcat) != [] ==>
      result == ParseResult(false, [], SentenceChecks.TagErrors(tags, features, verbSubcat))
    ensures SentenceChecks.TagErrors(tags, features, verbSubcat) == [] ==>
      (result.grammatical <==> Accepted(parser, tokens, tags))
    ensures SentenceChecks.TagErrors(tags, features, verbSubcat) == [] && !result.grammatical ==>
      result == ParseResult(false, [], [NoParseMessage])
    ensures result.grammatical ==>
      Accepted(parser, tokens, tags) && result.errors == [] && result.parseTrees != [] &&
      forall u :: u in result.parseTrees ==>
      ConvertedParse(parser, converter, tokens, tags, u) && u.Node? && u.nt == parser.startSymbol.value &&
      Yield(u) == LowerAll(tokens) && TreeConversion.NoAuxBelow(converter.Config(), u)
  {
    var ok, agreeErrors := SentenceChecks.CheckTreeAgreements(tags, features, verbSubcat);
    if !ok {
      return ParseResult(false, [], agreeErrors);
    }
    var words := LowerAll(tokens);
    var success, trees := parser.Parse(words, Some(tags));
    if success && trees.value != [] {
      var converted := ConvertAll(converter, trees.value);
      forall u | u in converted
        ensures ConvertedParse(parser, converter, tokens, tags, u) && u.Node? && u.nt == parser.startSymbol.value &&
          Yield(u) == words && TreeConversion.NoAuxBelow(converter.Config(), u)
      {
        var m :| 0 <= m < |converted| && converted[m] == u;
        var t := trees.value[m];
        assert t in trees.value;
        TreeConversion.DebinarizeYield(converter.Config(), t);
        TreeConversion.DebinarizeNoAux(converter.Config(), t);
      }
      result := ParseResult(true, converted, []);
    } else {
      result := ParseResult(false, [], [NoParseMessage]);
    }
  }

  /** The `for tree in trees` loop converting every chart tree back to the original grammar. */
  method ConvertAll(converter: TreeConversion.ParseTreeConverter, trees: seq<Tree>) returns (converted: seq<Tree>)
    requires forall t :: t in trees ==> Tupled(t)
    ensures |converted| == |trees|
    ensures forall m :: 0 <= m < |trees| ==> converted[m] == TreeConversion.Debinarize(converter.Config(), trees[m])
  {
    converted := [];
    var k := 0;
    while k < |trees|
      invariant 0 <= k <= |trees|
      invariant |converted| == k
      invariant forall m :: 0 <= m < k ==> converted[m] == TreeConversion.Debinarize(converter.Config(), trees[m])
    {
      var u := converter.Convert(Some(trees[k]));
      converted := converted + [u.value];
      k := k + 1;
    }
  }
}
