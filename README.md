# English CKY parser with agreement checking — a verified model

This project models the core of a small English parser. The parser:

- compiles a hand-written context-free grammar over Penn Treebank tags into Chomsky normal form (CNF);
- parses tagged sentences bottom-up with the CKY chart algorithm;
- flattens the binary chart trees back into the shape of the original grammar;
- runs determiner-noun agreement, subject-verb agreement and verb subcategorization checks over the tag sequence before any parsing.

It also models the PARSEVAL helpers that read gold trees in bracket notation, extract labelled constituents and compare them as sets.

The modules follow the source files:

| module | file | models |
|---|---|---|
| `Wrappers`, `Text`, `Dicts`, `Trees`, `Grammars` | wrappers.dfy, text.dfy, dicts.dfy, trees.dfy, grammar.dfy | shared values: `Option`/`Result`, the Python string operations used (`lower`, `strip`, `split`, `join`, `sorted`), insertion-ordered dictionaries, tuple trees, grammars as dictionaries from nonterminal to productions |
| `CnfConversion` | cnf.dfy | `CFGtoCNFConverter` (cnf_converter.py) as a class whose methods rebuild its grammar step by step |
| `Cky` | cky.dfy | `CKYParser` (cky_parser.py): reverse rule indices, the chart over `array2`s, back-pointers, tree enumeration |
| `TreeConversion` | tree_converter.dfy | `ParseTreeConverter` (parse_tree_converter.py) |
| `Agreement` | agreement.dfy | `AgreementChecker` (agreement_checker.py) |
| `SentenceChecks`, `EnglishParsing` | english_parser.dfy, english_parsing.dfy | `EnglishParser._check_tree_agreements`, `_check_verb_subcategorization` and the decision logic of `parse` (main.py) |
| `EnglishGrammar` | english_cfg.dfy | `EnglishCFG` (english_cfg.py): the grammar as data, deduplication, statistics |
| `Subcategorization` | subcat.dfy | subcategorization_extractor.py |
| `Lexicon` | lexicon.dfy | `LexiconGenerator` (lexicon_generator.py) |
| `Parseval` | parseval.dfy | parseval_evaluation_full.py |

Each operation that loops or updates state in the source is a `method` (a class method where the source updates fields), proved equal to a specification function or against a declarative characterisation. The properties are then proved about those functions.

The CKY model is built on two specifications:

- **The chart specification.** `Cky.Cell` is the set of symbols the chart must hold for each span.
- **The derivation specification.** `Cky.Derives` says what a derivation tree over a span is.

`Cky.CellIffDerives` proves that a symbol is in a span's cell exactly when some derivation tree over that span carries it. `FillDiagonal` and `FillSpans` are proved to fill exactly those cells. `BuildTrees` is proved to return only such derivation trees.

## Model

| member | source | states |
|---|---|---|
| CnfConversion.Converter.constructor | cnf_converter.py:25-30 | the converter starts with an empty grammar, no terminals or nonterminals, no start symbol and counter 0 |
| CnfConversion.Converter.ParseGrammar | cnf_converter.py:32-87 | the grammar holds the given productions in order, with `epsilon` spelled `ε`; `non_terminals` is the key set; `terminals` is the set of right-hand symbols that are neither keys nor `ε`; the start symbol is the given one when it is a key, else `S` |
| CnfConversion.ParsedRulesShape | cnf_converter.py:59-71 | a nonterminal is a key of the parsed grammar exactly when it has a production, and its list is the given one in order with `epsilon` normalised |
| CnfConversion.Converter.CollectTerminals | cnf_converter.py:80-84 | the recorded terminals are exactly the right-hand symbols that are not nonterminals and not `ε` |
| CnfConversion.Converter.ParseGrammarFromString | cnf_converter.py:89-128 | the text is split into one rule entry per `->` line and then parsed with start symbol `S` |
| CnfConversion.LastLineWins | cnf_converter.py:105-126 | a nonterminal has an entry exactly when some line defines it, and that entry holds the alternatives of the last such line |
| CnfConversion.AltProductionFacts | cnf_converter.py:115-124 | an alternative spelling epsilon becomes `['ε']`; any other becomes its whitespace-separated symbols, each a non-empty run of non-space characters |
| CnfConversion.Converter.GenerateNewVariable | cnf_converter.py:130-137 | returns prefix+counter for the first counter from the current one whose name is not a nonterminal; adds that name and moves the counter strictly past it |
| CnfConversion.FreshIsFirstUntaken | cnf_converter.py:130-137 | the generated name is untaken, and every name for a counter between the old counter and the chosen one is taken |
| CnfConversion.Converter.StartSymbolOnRhs | cnf_converter.py:139-145 | true exactly when a start symbol is set and occurs on some right-hand side |
| CnfConversion.OnRhsComplete | cnf_converter.py:139-145 | scanning every key finds the start symbol exactly when some production mentions it |
| CnfConversion.Converter.Step1AddNewStartSymbol | cnf_converter.py:147-158 | when the start symbol occurs on a right-hand side, a fresh `S<k>` becomes the start symbol with the sole production `[old start]`, appended last; otherwise nothing changes |
| CnfConversion.Converter.FindNullableVariables | cnf_converter.py:160-184 | the result is the least set containing every lhs with an `['ε']` rule and closed under "all symbols nullable ⇒ lhs nullable" |
| CnfConversion.LeastNullableUnique | cnf_converter.py:160-184 | that least closed set is unique, so the nullable set depends only on the grammar |
| CnfConversion.Converter.NullablePass | cnf_converter.py:171-182 | one sweep only adds symbols, reports a change exactly when it added one, and leaves a closed set when it reports none |
| CnfConversion.Converter.Step2EliminateEpsilonProductions | cnf_converter.py:186-217 | the new grammar is the step-2 rebuild of the old one from its least nullable set |
| CnfConversion.Step2ResultFacts | cnf_converter.py:186-217 | each nonterminal lists exactly the non-empty variants of its old non-ε productions, plus `['ε']` when it is a nullable start symbol; no list is empty |
| CnfConversion.Step2NoEmptyProduction | cnf_converter.py:205-211 | step 2 never lists an empty production |
| CnfConversion.Step2KeepsEveryVariant | cnf_converter.py:195-211 | every non-ε production appears with each choice of its nullable positions removed, whenever something is left |
| CnfConversion.VariantsByCombinations | cnf_converter.py:201-208 | trying every combination of every size of the nullable positions reaches exactly the variants of the production |
| CnfConversion.Step2EpsilonOnlyAtStart | cnf_converter.py:186-217 | when `ε` only ever stands alone, `['ε']` remains only at a nullable start symbol and no nonterminal lists a production twice |
| CnfConversion.Converter.UnitPairs | cnf_converter.py:224-246 | the unit pairs are the least relation that is reflexive over the nonterminals, contains every direct unit rule and is transitively closed |
| CnfConversion.Converter.ClosureRound | cnf_converter.py:237-246 | one closure round only adds composed pairs, reports a change exactly when it added one, and leaves a transitively closed relation when it reports none |
| CnfConversion.Converter.Step3EliminateUnitProductions | cnf_converter.py:219-259 | the new grammar is built from the least unit-pair relation of the old one |
| CnfConversion.Step3NoUnitProduction | cnf_converter.py:249-257 | after step 3 no production is a single nonterminal |
| CnfConversion.Step3InheritsAll | cnf_converter.py:249-257 | after step 3, A lists every non-unit production of every B with (A, B) a unit pair |
| CnfConversion.Converter.Step4ReplaceTerminalsInMixedRules | cnf_converter.py:261-291 | the grammar, nonterminals, counter and terminal variables end up as the step-4 fold over the old grammar says |
| CnfConversion.Step4ResultFacts | cnf_converter.py:261-291 | each terminal met in a long rule gets one fresh `T<k>` whose sole rule is `[terminal]`, reused for every occurrence, and every old production is replaced by its image over those variables |
| CnfConversion.Step4NoTerminalInLongRules | cnf_converter.py:261-291 | after step 4 no rule of length two or more mentions a terminal, provided no terminal is named like a `T` variable |
| CnfConversion.Converter.Step5BreakLongProductions | cnf_converter.py:293-319 | the grammar, nonterminals and counter end up as the step-5 fold over the old grammar says |
| CnfConversion.Step5ResultFacts | cnf_converter.py:293-319 | after step 5 every production has at most two symbols, and the short ones are old rules |
| CnfConversion.Step5SpellsLongRules | cnf_converter.py:309-317 | a rule A → B1…Bn with n > 2 becomes a chain of pairs through n-2 variables that were not nonterminals before, and the chain spells B1…Bn from left to right |
| CnfConversion.Converter.ConvertToCnf | cnf_converter.py:321-357 | runs the five steps in order and returns the converter's grammar; for an ε-free input the result is valid CNF as `is_valid_cnf` defines it |
| CnfConversion.ParsedIsEpsilonFree | cnf_converter.py:32-87 | rule entries with no ε, no `epsilon` and no empty production parse into a grammar the end-to-end CNF theorem applies to |
| CnfConversion.Step5MakesCnf | cnf_converter.py:371-394 | step 5 applied to step 4's output of an ε-free grammar passes `is_valid_cnf` |
| CnfConversion.Converter.IsValidCnf | cnf_converter.py:371-394 | true exactly when every production is a terminal, a pair of nonterminals, or `['ε']` at a start symbol that occurs on no right-hand side |
| Cky.CkyParser.constructor | cky_parser.py:16-24 | the parser starts with an empty grammar, empty indices and start symbol `S` |
| Cky.LoadedTables | cky_parser.py:51-61 | after loading, a is listed under terminal `w` exactly when it was before or `[w]` is one of its productions; likewise for pairs `[b, c]`; longer productions are ignored, and the old lists are kept as prefixes |
| Cky.CkyParser.LoadGrammar | cky_parser.py:26-61 | records the grammar, start symbol and nonterminals, and sets the indices to the load fold over the grammar's keys in order |
| Cky.CkyParser.LoadGrammarFromConverter | cky_parser.py:63-75 | the same load, over the converter's grammar and start symbol |
| Cky.CellSplit | cky_parser.py:122-131 | for i < j, A is in cell [i, j] exactly when some split k with i ≤ k < j, some B in [i, k] and some C in [k+1, j] have A listed under (B, C) |
| Cky.CellIffDerives | cky_parser.py:102-131 | a symbol is in the cell of a span exactly when some derivation tree over that span has it as its root |
| Cky.DerivesYield | cky_parser.py:144-171 | a derivation tree over [i, j] has the words i to j as its leaves, in order, and is in tuple shape |
| Cky.CkyParser.WordCell | cky_parser.py:115-120 | without tags, the diagonal cell is exactly the symbols listed under the word, with one terminal back-pointer per listing |
| Cky.CkyParser.TagCell | cky_parser.py:103-114 | with tags, the diagonal cell is the tag plus the symbols listed under the tag; the tag points at the word and every other symbol is a unit over the tag |
| Cky.CkyParser.FillDiagonal | cky_parser.py:102-120 | every diagonal cell holds exactly the diagonal specification with exactly its back-pointers |
| Cky.CkyParser.AddLhs | cky_parser.py:129-131 | adds to the cell every symbol listed under (B, C) and appends one binary back-pointer per listing |
| Cky.CkyParser.AddSplit | cky_parser.py:125-131 | one split point adds exactly the pairs formed from its two sub-cells |
| Cky.CkyParser.SpanCell | cky_parser.py:122-131 | given correct sub-cells, the span's cell is exactly its chart specification, and a back-pointer is present exactly when it names a valid split and child pair |
| Cky.CkyParser.FillSpans | cky_parser.py:122-131 | after the span loops every cell holds exactly its specification and its back-pointers are exactly the valid ones |
| Cky.CkyParser.BuildTrees | cky_parser.py:144-171 | every tree returned is a derivation over [i, j] with root nt; a symbol in the cell yields at least one tree; an all-terminal cell yields one tree per back-pointer examined; an all-binary cell yields at most `max_trees` |
| Cky.CkyParser.Parse | cky_parser.py:77-142 | an empty sentence or mismatched tag count fails with no trees; otherwise parsing succeeds exactly when the start symbol is in the whole-sentence cell; a success returns a non-empty list of derivations of the sentence from the start symbol, at most `max_trees` of them for sentences longer than one word |
| Cky.BracketAgrees | cky_parser.py:211-217 | printing a tuple tree in bracket notation gives the same text as `tuple_to_bracket` |
| Cky.BracketReadsBack | parse_tree_converter.py:167-188 | a tuple tree with plain labels and words, printed in bracket notation and read back by `parse_gold_tree`, is the same tree |
| TreeConversion.IsAuxiliary | parse_tree_converter.py:52-75 | a label is auxiliary exactly when it is listed explicitly, or is missing from a non-empty set of original nonterminals, or is a prefix followed only by digits |
| TreeConversion.ParseTreeConverter.constructor | parse_tree_converter.py:15-22 | the converter starts with the prefixes Y, T and S0 and no explicit or original nonterminals |
| TreeConversion.ParseTreeConverter.LoadOriginalGrammar | parse_tree_converter.py:33-41 | records the grammar and takes its keys as the original nonterminals |
| TreeConversion.ParseTreeConverter.SetAuxiliaryPrefixes | parse_tree_converter.py:24-31 | the prefixes become the set of the given list, and nothing else changes |
| TreeConversion.ParseTreeConverter.SetAuxiliaryNts | parse_tree_converter.py:43-50 | the explicit auxiliary set becomes the given set, and nothing else changes |
| TreeConversion.ParseTreeConverter.Convert | parse_tree_converter.py:77-95 | no tree in gives no tree out; a tree gives its de-binarized form |
| TreeConversion.ParseTreeConverter.ConvertNode | parse_tree_converter.py:96-124 | returns the de-binarized tree: the root label and leaves stay, and auxiliary children are replaced in place by their own children |
| TreeConversion.DebinarizeYield | parse_tree_converter.py:106-124 | de-binarization keeps the words and their order |
| TreeConversion.DebinarizeNoAux | parse_tree_converter.py:111-118 | no node strictly below the root of a converted tree has an auxiliary label |
| TreeConversion.DebinarizeIdentity | parse_tree_converter.py:96-124 | a tree with no auxiliary label below the root is unchanged |
| TreeConversion.Bracket | parse_tree_converter.py:167-188 | a node prints as non-empty text that starts with "("; its full text is characterised by Cky.BracketAgrees |
| TreeConversion.FormatTreeBracket | parse_tree_converter.py:167-188 | no tree prints as the empty string, a bare word as itself, and a node as text starting with "(" |
| TreeConversion.Depth | parse_tree_converter.py:190-196 | a preterminal has depth one and any larger node depth at least two |
| TreeConversion.GetTreeDepth | parse_tree_converter.py:190-196 | depth zero exactly for no tree, and at least two for a tree above the preterminals |
| TreeConversion.ParseTreeConverter.CountNodes | parse_tree_converter.py:198-217 | total = internal + leaf, the leaf count is the number of words, and the internal count is the number of non-preterminal nodes |
| TreeConversion.ParseTreeConverter.ExtractConstituents | parse_tree_converter.py:219-232 | the constituents are every node's span and text, children before parents |
| TreeConversion.ParseTreeConverter.ExtractHelper | parse_tree_converter.py:234-256 | appends the node's constituents to the shared list and returns its start plus its word count |
| TreeConversion.SpansWithin | parse_tree_converter.py:234-256 | every extracted span lies inside the node's own span and is not empty |
| Agreement.CheckDtNoun | agreement_checker.py:111-143 | succeeds when the determiner's num is 'any' or absent; otherwise succeeds exactly when it equals the noun's number (sg for NN, pl for NNS, else the noun's num); a failure carries the message |
| Agreement.CheckSubjectVerb | agreement_checker.py:145-187 | a past tense always passes; VBZ passes exactly for a 3rd-person singular subject or one with an unknown person or number; VBP fails exactly for a 3rd-person singular subject; other tags pass |
| Agreement.CheckAgreement | agreement_checker.py:77-109 | applies the determiner check to DT + NN/NNS, the subject-verb check to S → NP VP with a VBZ/VBP head, and otherwise succeeds |
| Agreement.PropagateFeatures | agreement_checker.py:189-235 | the features an NP, VP or PP inherits from its head child, with the defaults of the source, and nothing for other labels |
| Agreement.DtNounDemoCases | agreement_checker.py:257-265 | the six determiner-noun demonstration cases give the expected verdicts |
| Agreement.SubjectVerbDemoCases | agreement_checker.py:277-284 | the six subject-verb demonstration cases give the expected verdicts |
| SentenceChecks.CheckDeterminers | main.py:232-257 | the scan's errors are the determiner-noun errors of the checked pairs, in order |
| SentenceChecks.DeterminerPairsSound | main.py:234-257 | each checked pair is a DT and a following NN/NNS with only adjectives or adverbs between, and each pair starts after the previous noun |
| SentenceChecks.DeterminerPairsComplete | main.py:234-257 | every DT whose next non-modifier tag is NN/NNS is checked against that noun |
| SentenceChecks.PatternSubject | main.py:268-326 | the patterns are tried in order; PRP gives its own features, a noun tag gives a 3rd-person subject of that number, and DT/PRP$ need a following noun, possibly after one JJ |
| SentenceChecks.CoordinatedIsPlural | main.py:328-347 | a CC early on with nouns around it makes the subject third person plural whatever the patterns found |
| SentenceChecks.NounSubjectNumber | main.py:285-300 | without such a CC, a noun tag first gives a singular subject exactly for NN/NNP |
| SentenceChecks.DetectSubject | main.py:259-375 | the detected subject is the pattern-ordered specification's |
| SentenceChecks.CheckCoordination | main.py:328-347 | the coordination override as written: the CC search in the first five tags and the two `any` tests |
| SentenceChecks.VerbFeatures | main.py:386-387 | the verb's features with `head_pos` added, its own values winning |
| SentenceChecks.SubjectVerbErrors | main.py:376-393 | only the first VBZ/VBP is checked, only when a subject was found, so at most one error arises |
| SentenceChecks.FrameErrors | main.py:458-487 | an NP without a PP gives one error (requires a preposition, else takes no object); a required PP missing after some token gives one error; no other case errs |
| SentenceChecks.UnknownVerbUnchecked | main.py:425-436 | a verb without a table entry, or no verb at all, produces no subcategorization error |
| SentenceChecks.CheckVerbSubcategorization | main.py:401-489 | the errors are the subcategorization errors of the first verb, with its flags read from either table format |
| SentenceChecks.AllowsNp | main.py:440-449 | a dictionary entry's `allows_np`, true when the key is missing; for a frame list, true exactly when it lists `transitive` or `ditransitive` |
| SentenceChecks.RequiresPp | main.py:440-449 | a dictionary entry's `requires_pp`, false when the key is missing; for a frame list, true exactly when it lists `pp_required` |
| SentenceChecks.TableOf | main.py:440-444 | the extractor's entries, read in the dictionary format, keep their lemmas and give back their own two flags |
| SentenceChecks.ScanPp | main.py:465-469 | the PP flag is set exactly when some `IN` after the verb is followed by another tag |
| SentenceChecks.CheckTreeAgreements | main.py:212-399 | the errors are the determiner, subject-verb and subcategorization errors in order, and the verdict is true exactly when there are none |
| SentenceChecks.ErrorCountBound | main.py:212-399 | there are at most two errors more than checked determiner-noun pairs |
| EnglishParsing.ParseTagged | main.py:177-209 | a failed tag check makes the sentence ungrammatical with those errors and no parse; otherwise it is grammatical exactly when the chart parser accepts the lower-cased tokens under the tags, and its trees are de-binarized derivations from the start symbol with the sentence's words and no auxiliary label below the root |
| EnglishParsing.ConvertAll | main.py:199-201 | one converted tree per chart tree, in the same order, each the de-binarization of its chart tree |
| EnglishGrammar.EnglishCfg.constructor | english_cfg.py:58-61 | the grammar is the built one and the start symbol is S |
| EnglishGrammar.BuiltGrammarNoEmptyRhs | english_cfg.py:63-380 | the built grammar has no empty right-hand side |
| EnglishGrammar.BuiltGrammar | english_cfg.py:63-380 | a well-formed grammar with keys S, NP, VP and PP in that order, none with an empty rule list |
| EnglishGrammar.BuiltGrammarHasDuplicates | english_cfg.py:170-357 | the grammar lists NP → JJ NN and VP → VBZ JJ NP twice, so deduplication shrinks it |
| EnglishGrammar.EnglishCfg.DeduplicateRules | english_cfg.py:390-410 | the grammar becomes its deduplicated form and the return value is the production count before minus after |
| EnglishGrammar.EnglishCfg.UniqueProductions | english_cfg.py:399-405 | keeps the first copy of each production in order and counts the copies dropped |
| EnglishGrammar.KeepFirst | english_cfg.py:399-405 | the kept list has the same members, no repeats and is no longer |
| EnglishGrammar.KeepFirstOrder | english_cfg.py:399-405 | the kept productions appear in the order of their first occurrences |
| EnglishGrammar.KeepFirstOfDistinct | english_cfg.py:399-405 | a list without repeats is kept as it is |
| EnglishGrammar.DedupGrammar | english_cfg.py:395-406 | the same keys in the same order, each list deduplicated |
| EnglishGrammar.DedupIdempotent | english_cfg.py:390-410 | a second deduplication changes nothing |
| EnglishGrammar.DedupShrinks | english_cfg.py:390-410 | a nonterminal listing a production twice makes deduplication shrink the production count |
| EnglishGrammar.EnglishCfg.GetStats | english_cfg.py:473-493 | the total is the sum of production counts; the terminal list holds exactly the right-hand symbols that are not keys, sorted and without repeats |
| Subcategorization.AnalysisOf | subcategorization_extractor.py:42-97 | no VERB leaves every flag false; nothing after the verb allows a bare use; NP or ADJ next allows an NP; PREP next requires a PP and allows a bare use; the pattern is the space-joined tags |
| Subcategorization.AnalyzeFrameSyntax | subcategorization_extractor.py:42-97 | the loop computes that analysis of the frame's tag sequence |
| Subcategorization.GetVerbnetFrames | subcategorization_extractor.py:116-155 | the summary over the verb's classes, in which a required PP excludes an NP object and the frame names come from the three flags |
| Subcategorization.TransitiveFrameBlocksPp | subcategorization_extractor.py:148-151 | a verb with a frame taking an NP object never requires a PP and is transitive |
| Subcategorization.ExtractSubcategorization | subcategorization_extractor.py:181-258 | every verb lemma of the lexicon gets an entry, which is its VerbNet summary or the default, adjusted by the override tables |
| Subcategorization.AddDefaults | subcategorization_extractor.py:226-231 | the lemmas VerbNet has no frame for join the found ones, each with the default transitive entry, so every lemma ends with its base entry |
| Subcategorization.DefaultForUnknownVerb | subcategorization_extractor.py:227-232 | a lemma without frames and not in an override table gets frames ['transitive'], allows an NP and requires no PP |
| Subcategorization.ApplyOverrides | subcategorization_extractor.py:245-258 | listed lemmas that are present lose the NP object and require a PP; no entry is added |
| Lexicon.InferFeatures | lexicon_generator.py:119-233 | the features of each tag: NN/NNP sg, NNS/NNPS pl, VBZ pres/sg/3, VBP pres/non3sg, PRP and DT from their tables, CD from the cardinal rule |
| Lexicon.MorphFeaturesShape | lexicon_generator.py:67-118 | the record names its word and tag; without an analyser its keys are exactly word, pos, lemma and the inferred ones, the lemma is the word, and every inferred feature keeps its inferred value |
| Lexicon.GetMorphologicalFeatures | lexicon_generator.py:67-117 | the record equals `MorphFeatures`, whose keys and values `MorphFeaturesShape` states |
| Lexicon.MergeMissing | lexicon_generator.py:111-115 | copies exactly the inferred features whose keys are not yet set |
| Lexicon.LexiconGenerator.BuildLexicon | lexicon_generator.py:234-287 | the lexicon is the merge fold over the open-class and closed-class tables, and it is well formed for the visited pairs |
| Lexicon.LexiconOfKeyOrder | lexicon_generator.py:263-274 | the lexicon's words are the visited words in order of first appearance |
| Lexicon.LookupAfterBuild | lexicon_generator.py:263-274 | a word visited under a tag can be looked up and has a record for that tag |
| Lexicon.LexiconGenerator.Lookup | lexicon_generator.py:301-320 | the exact word's entries, else the lower-case word's, else none |
| Lexicon.DeterminerNounAgreement | lexicon_generator.py:186-207 | a listed singular determiner rejects a plural noun, a listed plural one rejects a singular noun, and any other word accepts both |
| Parseval.ParseGoldTree | parseval_evaluation_full.py:94-119 | the cursor loop reads the same tree as the recursive reading, which fails when a node does not start with "(" |
| Parseval.ParseNode | parseval_evaluation_full.py:100-119 | reading a node from a cursor gives the node and the cursor after its ")" |
| Parseval.TupleToBracket | parseval_evaluation_full.py:162-176 | a node prints as text that starts with "(" and ends with ")" |
| Parseval.RoundTrip | parseval_evaluation_full.py:94-176 | a tree with plain labels and words, printed by `tuple_to_bracket` and read by `parse_gold_tree`, is the same tree |
| Parseval.ExtractConstituentsFromTuple | parseval_evaluation_full.py:53-92 | the system constituents, with the root span dropped unless asked for |
| Parseval.SystemWellFormed | parseval_evaluation_full.py:61-84 | every system constituent lies within its tree's span, with a label that is not a tag, not punctuation and not S0 |
| Parseval.SystemSpansWithin | parseval_evaluation_full.py:61-84 | every constituent the system traversal collects from a position lies between that position and the one it returns, with a label that is not a tag, not punctuation and not S0 |
| Parseval.ExtractConstituentsFromGold | parseval_evaluation_full.py:122-160 | the gold constituents, with the root span dropped unless asked for |
| Parseval.GoldWellFormed | parseval_evaluation_full.py:132-153 | every gold constituent lies within its tree's span and is not punctuation |
| Parseval.GoldSpansWithin | parseval_evaluation_full.py:132-153 | every constituent the gold traversal collects from a position lies between that position and the one it returns, and is not punctuation |
| Parseval.MaxEnd | parseval_evaluation_full.py:88 | the largest end of a non-empty constituent set, attained by one of them |
| Parseval.SystemRootDropped | parseval_evaluation_full.py:86-89 | a recorded root spans the whole sentence, so dropping the root removes exactly the constituents spanning [0, n) |
| Parseval.GoldRootDropped | parseval_evaluation_full.py:155-157 | the same for the gold extractor |
| Parseval.Evaluate | parseval_evaluation_full.py:179-195 | matches plus missing is the gold count and matches plus extra the system count; missing is gold minus system and extra is system minus gold |
| Parseval.PerfectScore | parseval_evaluation_full.py:179-195 | all gold matched and nothing extra exactly when the two sets are equal |

## Left out

- Morphological analysis, spaCy, NLTK and VerbNet are not part of this model: their outputs (tokens, tags, features, lemmas, verb classes) are inputs.
- File and JSON input and output, `EnglishParser.__init__`, `_load_lexicon_terminals`, the `main()` functions and the interactive loops are not modelled, because they are I/O.
- Printing is not modelled: `print_grammar`, `_print_chart`, verbose output, the indented `format_tree` printers and `format_result`.
- Precision, recall, F1 and best-tree selection are not modelled, because they are floating point. The CD `float()` test is a predicate parameter `floatIsOne`.
- `english_cfg.save_cnf_grammar` is not modelled, because it calls a class the repository does not have.
- `get_cnf_grammar` is not modelled; it is a display format that joins symbols without a separator.
- The string-production branch of `parse_grammar` is not modelled: productions are always sequences of symbols.
- `count_nodes`, `get_tree_depth` and `extract_constituents` on bare strings are not modelled. They require tuple-shaped trees, because on a bare string Python would iterate its characters.
- Character classes and `lower()` are ASCII-only; Unicode case mapping and Unicode whitespace are not modelled.
- `_check_tree_agreements` requires a non-empty tag list, because Python raises IndexError on an empty one.
- Python set iteration order is arbitrary. For step 3's rebuilt dictionary and for the CKY cells the set is iterated in an arbitrary order, so order must not matter in those contracts.
- Cky.CkyParser.SpanCell: back-pointers of a binary cell are stated by membership. Their list order comes from iterating sets and is left open. The one-per-listing count is proved for each split by `AddLhs` and `Cky.AppendAllAt` but not carried into this contract.
- Cky.CkyParser.BuildTrees: the `max_trees` bound is stated only for cells whose examined back-pointers are all terminal or all binary; a unit cell's one-per-back-pointer count is not stated.
- Cky.CkyParser.Parse: the bound of at most `max_trees` trees is stated only for sentences longer than one word.
- Cky.BracketAgrees: the chart parser's `format_tree_bracket` is not a separate member; it is modelled by `TreeConversion.Bracket`, which prints the same text on tuple-shaped trees, the only trees the chart builds.
- Cky.CkyParser.BuildTrees: the `sentence` argument of `_build_trees` is unused by the source and is a ghost parameter.
- CnfConversion.Step2EpsilonOnlyAtStart: needs the hypothesis that `ε` only stands alone. A production with `ε` inside a longer one keeps it.
- CnfConversion.Step4NoTerminalInLongRules: needs the hypothesis that no terminal is named `T<k>`, because the name generator avoids only nonterminal names.
- CnfConversion.Converter.ConvertToCnf: CNF is proved only for ε-free input grammars.
- CnfConversion.Step5ResultFacts: step 5 may create repeated productions, so no repeat-freedom is stated after it.
- EnglishParsing.ParseTagged: the morphological analysis that produces tokens, tags and features is an input, and the result dictionary's `word_analyses`, `tokens` and `pos_sequence` entries are not modelled.
