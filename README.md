# NLP2 project 2: a verified model of the forest algorithms, featurisers and lexicon readers

This project models the parts of the NLP2-project-2 repository that a latent-variable CRF for
translation is built on:

- **Derivation forests.** `Hypergraph` has the symbols (terminals, nonterminals and their span
  annotations), the rules and the forest with its head and tail indices. The tail index is built
  in place, as `extend_forest_with_rules_by_rhs` does.
- **Dynamic programs over a forest.** `InsideOutside` models the log-space and plain inside
  algorithms, Viterbi with back-pointers, the outside algorithm and the expected feature vector.
  `TopSort` models the dependency map and the flattening of the topological layers. Each loop
  is a method, proved against a recursive definition of the value it fills in. Floats are
  `real`, and log 0 is an explicit `NegInf` (`ExtReal`).
- **Decoding.** `Mbr` models breadth-first ancestral sampling, the target yield of a
  derivation, and minimum-Bayes-risk selection.
- **Edge featurisers.** Four generations of them, modelled on a feature map object that is
  updated in place (`SparseFeatures.FeatureMap`):
  - `Features` (`misc/features.py`)
  - `FeaturesOld` (`misc/features_old.py`)
  - `CrfFeatures` (`models/CRF.py`)
  - `Featurizer` (`misc/featurizer.py`)

  The first three share the span destructors of `Spans`. `models/CRF.py` imports them from
  `models.feature_functions`, which this model takes to be the same as `misc/spans.py`.
- **Text handling.** `PyStrings` models Python's `split`, `strip` and slicing. `Lexicon` models
  the two lexicon readers and `scan_line`. `ParseLexicon` models the conditional-probability
  tables and their top-n selection. `Embeddings` models the vocabulary index and the word
  normaliser.

Python's exceptions are modelled as error results: a failed `assert`, an unpacking
`ValueError` and a missing dictionary key. A file is modelled as the sequence of its lines,
each still carrying its newline. Randomness, the `toposort` library, `exp`/`log`, `float()`
and the IBM1 and cluster tables are parameters of the operations that use them.

## Model

| member | source | states |
|---|---|---|
| Hypergraph.Forest.ExtendWithRulesByRhs | misc/utils.py:80-91 | Only the tail index changes. A node has an entry iff it occurs in some rule's rhs. Its entry is `RulesWithTail`: the forest's rules in order, each repeated once per occurrence of the node. |
| Hypergraph.AddTails | misc/utils.py:85-90 | Adding one rule's tails to the index of the earlier rules gives the index of all of them (the inner loop). |
| Hypergraph.RulesWithTailMembers | misc/utils.py:85-90 | A rule is listed under n iff it is a forest rule whose rhs contains n. |
| Hypergraph.RulesWithTailMultiplicity | misc/utils.py:87-90 | A rule appears under n as many times as it occurs in the forest times the number of times n occurs in its rhs. |
| Hypergraph.RulesWithTailAppend | misc/utils.py:84-90 | The entries of the index keep rule order: the index of `a + b` is the index of `a` followed by that of `b`. |
| InsideOutside.Inside | misc/inside_outside.py:7-23 | Every node of `tsort` has a value, and nothing else does. A terminal gets log 1. A nonterminal gets log of the sum of exp(weight + the rhs inside values) over its head rules, and log 0 when it has none. |
| InsideOutside.ComputeScore | misc/inside_outside.py:17-20 | The inner loop adds the rhs inside values to the rule weight, and -inf absorbs. |
| InsideOutside.InsideNormal | misc/inside_outside.py:25-40 | A terminal gets 1. A nonterminal gets the sum over its head rules of exp(weight) times the product of the rhs values. All values are non-negative whenever exp is. |
| InsideOutside.ComputeProduct | misc/inside_outside.py:35-38 | The inner product of one rule: exp(weight) times its rhs values. |
| InsideOutside.Viterbi | misc/inside_outside.py:43-64 | The tables are the max-plus solution over the topological order. A back-pointer is recorded for nonterminals only. |
| InsideOutside.BestRule | misc/inside_outside.py:51-61 | The strict-`>` scan returns the best score over the rules and the rule that first attains it. |
| InsideOutside.BestOfIsFirstMaximum | misc/support.py:17-26 | No rule scores above the maximum. The argument is None iff the maximum is -inf. Otherwise it is the first rule attaining the maximum, and every earlier rule scores strictly less. |
| InsideOutside.ViterbiTablesAreMaxPlus | misc/support.py:6-27 | For every nonterminal: no head rules gives -inf and None. Otherwise the value bounds every head rule's score, and the back-pointer is the first head rule that attains it. |
| InsideOutside.Outside | misc/inside_outside.py:67-86 | Errors exactly when a node other than the last of `tsort` has no tail-index entry (Python's `KeyError`); the error names such a node. On success, the last node gets log 1 and each earlier one gets log of the sum over its tail rules of exp(outside of the head + weight + inside values of the other tails). Occurrences of the node itself are skipped. |
| InsideOutside.OutsideNode | misc/inside_outside.py:75-85 | The outside value of one node from the values already computed. |
| InsideOutside.SumOutScores | misc/inside_outside.py:77-84 | The running sum over the node's tail rules. |
| InsideOutside.ComputeOutScore | misc/inside_outside.py:79-83 | The score of one rule for one tail, skipping every occurrence of that tail. |
| InsideOutside.ExpectedFeatureVector | misc/inside_outside.py:89-101 | The keys are exactly the feature names of the forest's rules. Each value is the float sum over rules of (outside of the head + inside of the tails) times the feature value, as the code computes it, including a factor of −inf: −inf times a positive value is −inf, times a negative value +inf, and times 0 nan. |
| InsideOutside.FeatureNamesMembers | misc/support.py:35-39 | A name is collected iff some rule's features carry it. |
| FeatureVectors.AddScaled | misc/inside_outside.py:97-100 | Adding one rule's features scaled by k: the keys become the old keys plus the rule's feature names, a missing name starts at 0, each entry gains k × value, and every other entry is unchanged. |
| InsideOutside.ComputeEdgeFactor | misc/inside_outside.py:93-95 | The factor k of a rule: the outside value of its head plus the inside values of its tails. |
| InsideOutside.ExpectedFeatureCounts | misc/inside_outside.py:89-101 | Corrected version, over the tables the inside and outside passes produce, with log Z the inside value of the last node of `tsort` (the root). The keys are the same as above. Each value is the sum over rules of marginal × feature value, where the marginal is exp(outside + weight + inside − log Z). |
| InsideOutside.ExpectedCountNonNegative | misc/inside_outside.py:89-101 | Corrected version: with non-negative exp and feature values, every expected count is a finite, non-negative number. |
| InsideOutside.ChainInside | misc/inside_outside.py:7-23 | On the forest S → X, X → a, the only table the inside pass can produce is 0, w2 and w1 + w2 at a, X and S. |
| InsideOutside.ChainOutside | misc/inside_outside.py:67-86 | On the same forest, the only table the outside pass can produce is w1 + w2, w1 and 0 at a, X and S. |
| InsideOutside.ChainMarginals | misc/inside_outside.py:89-101 | With those tables and log Z the inside value of S, both edges of the single derivation have marginal 1, whatever the weights. |
| InsideOutside.ExpectedCountOfUnitMarginals | misc/inside_outside.py:89-101 | Corrected version: where every edge has marginal 1 (a single derivation), the expected count of a feature is its total over the edges. |
| InsideOutside.ExpectedAsWrittenIsNotACount | misc/inside_outside.py:93-100 | On the one-rule forest X → a, with the tables the inside and outside passes produce and a feature of value 1, the code as written gives 0, while the corrected count is 1, whatever the rule's weight. |
| TopSort.Dependencies | misc/inside_outside.py:108-114 | The keys are exactly the heads of the rules. Each head maps to the set of all rhs symbols of all its rules. |
| TopSort.Flatten | misc/inside_outside.py:116-121 | The layers are concatenated in order: every element of every layer appears, no layer position is emitted twice, and earlier layers come first. |
| TopSort.TopologicalSort | misc/support.py:43-61 | `top_sort` is the flattening of the layers the toposort oracle returns for the dependency map. |
| TopSort.TailsPrecedeHeads | misc/inside_outside.py:104-122 | If the layers satisfy toposort's contract, every rhs symbol of a rule occurs in the output before its head. |
| TopSort.TopologicalSortIsTopological | misc/support.py:43-61 | Under that contract, the output is a topological order in the sense the dynamic programs require. |
| TopSort.TopologicalSortSuitsOutside | misc/inside_outside.py:76-84 | Take the by-tail index of the forest's rules and an inside table over the same order. Then the order suits the outside pass: its nodes are distinct, each node comes before the head of every rule it is a tail of, and the other tails of that rule have inside values. So `O[rule._lhs]` and `inside[rhs_node]` never miss. |
| Mbr.SampleOne | misc/mbr.py:37-64 | One sample is a breadth-first expansion from the root: terminals are dequeued, and a chosen head rule's rhs is enqueued in order. It fails only on a nonterminal without rules. |
| Mbr.AncestralSampling | misc/mbr.py:33-66 | With zero samples it returns the empty list. On success there are exactly `num_samples` samples, each a breadth-first expansion from the root. A failure names a nonterminal without rules. |
| Mbr.BreadthFirstRules | misc/mbr.py:40-57 | In a sample, the first rule's head is the front nonterminal of the queue, and every rule is a head rule of its own lhs. |
| Mbr.TargetYield | misc/mbr.py:74-82 | Succeeds iff every index is defined, and then returns the yield (`IsYield`). The length is the end of the first rule's first span. A position holds a word iff some terminal rule writes it, and the last writer wins. Negative indices count from the end. |
| Mbr.YieldIsDetermined | misc/mbr.py:74-82 | Those conditions pin the yield down: a derivation has at most one. |
| Mbr.ArgMin | misc/mbr.py:29 | `np.argmin`: the index of a minimum, the first one among ties, and None for an empty array. |
| Mbr.MinimumRisk | misc/mbr.py:22-29 | The chosen index minimises the summed loss against all candidates, itself included, and every earlier index has strictly larger risk. |
| Mbr.MBRDecoding | misc/mbr.py:14-29 | On success, the (ghost) samples are `num_samples` breadth-first expansions from the root, and the candidates are their yields, one per sample. The result is a candidate of minimal total loss, the first one among ties; with one sample it is that sample's yield. It fails with "no samples" iff `num_samples` is 0, as `np.argmin` does on an empty array. A sampling failure names a nonterminal without rules. A yield failure comes from a sample whose yield is undefined. |
| Spans.GetSourceWord | misc/spans.py:4-8 | Succeeds iff exactly one label lies between origin and destination, and returns that label. Otherwise the error carries the count. |
| Spans.GetTargetWord | misc/spans.py:10-14 | Succeeds iff the symbol is a terminal, and returns the word of its unannotated root. |
| Spans.GetBispans | misc/spans.py:16-30 | Succeeds iff the symbol is a span of a span. The source span is the inner annotation and the target span is the outer one. |
| Spans.BispansOfAnnotation | misc/spans.py:28-30 | The two spans of a doubly annotated symbol come back in that order. |
| SparseFeatures.FeatureMap.Increment | misc/features.py:15 | A `defaultdict(float)` update: a missing key starts at 0.0, and no other key changes. |
| Features.FeaturizeEdge | misc/features.py:6-29 | The feature map of an edge is `EdgeFeatures`: a binary edge yields exactly `type:binary`; a unary nonterminal edge yields exactly `top`; a terminal edge yields the terminal features. |
| Features.FeaturizeBinaryRule | misc/features.py:31-45 | Adds `type:binary`, and fails iff a child is not a span of a span. |
| Features.FeaturizeStartRule | misc/features.py:47-48 | Adds exactly `top`. |
| Features.FeaturizeTerminalRule | misc/features.py:50-87 | Adds exactly the terminal features, or fails where a span destructor or the source-word lookup fails. |
| Features.EdgeFeatureValuesAreOne | misc/features.py:6-87 | Every feature value produced is 1.0. |
| Features.TerminalKindIsUnique | misc/features.py:50-87 | A terminal edge carries `type:terminal` and exactly one of deletion, insertion and translation. Deletion holds iff the root is eps. An insertion carries its `ins:` key. |
| FeaturesOld.FeaturizeEdge | misc/features_old.py:7-29 | The feature map of an edge is `EdgeFeatures`, with the same dispatch as above. |
| FeaturesOld.FeaturizeBinaryRule | misc/features_old.py:31-45 | Adds `type:binary` and the span flags. |
| FeaturesOld.BinaryFlagsExact | misc/features_old.py:32-45 | Left deletion iff ls1 = ls2, right deletion iff rs1 = rs2, monotone iff ls2 = rs1 and inverted iff ls1 = rs2. The flags are independent, all values are 1.0, and no other key appears. |
| FeaturesOld.BinaryEdgeFlags | misc/features_old.py:31-45 | A binary edge succeeds iff both children are spans of spans, and then its features are those flags. |
| FeaturesOld.FeaturizeStartRule | misc/features_old.py:47-48 | Adds exactly `top`. |
| FeaturesOld.FeaturizeTerminalRule | misc/features_old.py:50-91 | Adds exactly the terminal features of the edge, or fails with the destructor's error. |
| FeaturesOld.AddInsertion | misc/features_old.py:70-78 | Adds the insertion type, its IBM1 key and `ins:<tgt>`. |
| FeaturesOld.AddTranslation | misc/features_old.py:79-91 | Adds the translation type, the three IBM1 keys and `trans:<src>/<tgt>`. |
| FeaturesOld.TerminalKindIsUnique | misc/features_old.py:50-91 | A deletion has exactly the two type keys. Otherwise exactly one of insertion and translation holds, and each sets its sparse key to 1.0 next to its IBM1 keys. |
| CrfFeatures.SimpleFeatures | models/CRF.py:15-80 | The feature map of an edge is `EdgeFeatures` under the three sparse flags. |
| CrfFeatures.TerminalRule | models/CRF.py:42-77 | A terminal edge's features start from an empty map and are exactly the terminal features. |
| CrfFeatures.FeaturizeEdges | models/CRF.py:6-12 | Succeeds iff every edge featurises. The keys are exactly the forest's edges, each mapped to its features. An error is the error of some edge. |
| CrfFeatures.FlagsOnlyAddSparseFeatures | models/CRF.py:54-77 | Turning the sparse flags on changes neither success nor the dense keys: it adds at most one key, absent without the flags. |
| CrfFeatures.DeletionNeedsSourceWord | models/CRF.py:46-55 | An eps terminal needs a unique source label even when `sparse_del` is off, and `del:<w>` is present iff `sparse_del` is set. |
| Featurizer.FeaturizeParseTrees | misc/featurizer.py:16-22 | The list holds every edge of D(x) with its features, in order, followed by the last rule of D(x,y). It fails iff one of them fails or D(x,y) has no rule. |
| Featurizer.FeaturizeEdge | misc/featurizer.py:24-40 | The feature map of an edge is `EdgeFeatures`: binary, terminal, start or upgrade, as dispatched. |
| Featurizer.Dispatch | misc/featurizer.py:28-52 | Binary edges carry `type:binary`. A unary nonterminal edge under a head other than X yields `top`. Under X, it yields `type:upgrade_t` for T, `type:upgrade_d` for D and nothing for any other child. |
| Featurizer.FeaturizeUpgradeRule | misc/featurizer.py:42-52 | Adds the upgrade features, or fails where a symbol is not a triple. |
| Featurizer.FeaturizeBinaryRule | misc/featurizer.py:54-94 | Adds the binary features, or fails where a symbol is not a triple. |
| Featurizer.BinaryOrientation | misc/featurizer.py:62-70 | Under D, the features are exactly `type:binary` and `binary:recursive_deletion`. Under X, exactly one of inverted (iff the head starts where the right child starts) and monotone is set. |
| Featurizer.FeaturizeStartRule | misc/featurizer.py:96-97 | Adds exactly `top`. |
| Featurizer.FeaturizeTerminalRule | misc/featurizer.py:99-148 | Adds exactly the terminal features, or fails where a destructor or the source-word lookup fails. |
| Featurizer.AddDeletion | misc/featurizer.py:105-115 | Adds the deletion type, target length −1, the IBM1 deletion key and `del:<src>`. |
| Featurizer.AddInsertion | misc/featurizer.py:117-127 | Adds the insertion type, target length +1, the IBM1 insertion key and `ins:<tgt>`. |
| Featurizer.AddTranslation | misc/featurizer.py:129-148 | Adds the translation type, target length +1, the three IBM1 keys, `trans:<src>/<tgt>` and the word-class key. |
| Featurizer.AddTranslationScores | misc/featurizer.py:131-140 | Adds the dense translation keys. |
| Featurizer.DeletionValues | misc/featurizer.py:105-115 | Deletion sets the type to 1, the target length to −1 and its sparse key to 1. |
| Featurizer.InsertionValues | misc/featurizer.py:117-127 | Insertion sets the type to 1, the target length to +1 and its sparse key to 1. |
| Featurizer.TranslationValues | misc/featurizer.py:129-148 | Translation sets the type to 1, the target length to +1, and both its word key and its class key to 1. |
| Featurizer.TerminalKinds | misc/featurizer.py:99-148 | Every terminal edge has `type:terminal` = 1. Under D, I and T it gets the deletion, insertion and translation keys respectively. Under any other head it gets nothing else. |
| Featurizer.Triple | misc/featurizer.py:43-44 | `obj()` unpacks into three iff the symbol is a span, giving its symbol, start and end. |
| PyStrings.SplitJoin | misc/utils.py:38 | `split(sep)` loses nothing: joining the pieces with the separator gives the line back. |
| PyStrings.SplitPiecesAreFree | misc/helper.py:7 | No piece of a split contains the separator. |
| PyStrings.WordsAreTheUnspacedText | misc/utils.py:40 | `split()` yields non-empty words free of white space whose concatenation is the line without its white space. |
| PyStrings.Strip | misc/utils.py:39 | The result neither starts nor ends with white space. |
| PyStrings.StripTrimsTheEnds | misc/utils.py:39 | The result is a slice of the input, and only white space lies outside it. |
| PyStrings.WordsOfStrip | misc/utils.py:40 | Stripping before a white-space split changes nothing. |
| PyStrings.PrefixSlice | parse_lexicon.py:35 | `s[:n]` is a prefix: of length min(n, len) for n ≥ 0, and len + n (at least 0) for negative n. |
| PyStrings.DropLast | misc/helper.py:27 | `s[:-1]` is everything but the last character, and empty for the empty string. |
| Lexicon.LoadLexicon | misc/utils.py:31-41 | Fails iff some line does not split on `->` into two sides, reporting the first such line. Otherwise the dictionary is the entries, each the stripped left side and the words of the right side, assigned in file order. |
| Lexicon.LastLineWins | misc/utils.py:40 | A source has an entry iff some line names it, and the entry comes from the last line that does. |
| Lexicon.EntryOfLine | misc/utils.py:38-40 | A line `a->b` without other dashes is well formed and enters `strip(a)` with the words of `b`. |
| Lexicon.LoadLexiconSets | misc/helper.py:3-22 | Fails iff some line does not split on " -> " into two sides, reporting the first such line. Otherwise the lexicon is the per-source union of the target sets (with "-EPS-" when `anything_into_eps` is set), extended by the eps step. |
| Lexicon.EpsIntoAnything | misc/helper.py:14-20 | The eps step adds to the entry of "-EPS-" every target type except "-EPS-". |
| Lexicon.EnglishTypes | misc/helper.py:15-17 | The union of all target sets. |
| Lexicon.GatheredIsUnion | misc/helper.py:12 | Repeated sources union their targets: a source has an entry iff some line names it, and a target is in it iff some such line lists it. |
| Lexicon.EveryLineMayDelete | misc/helper.py:11-12 | With `anything_into_eps`, every source's set contains "-EPS-". |
| Lexicon.EpsTranslatesIntoAnything | misc/helper.py:14-20 | With `eps_into_anything`, every non-eps target of any entry is in the entry of "-EPS-". |
| Lexicon.ScanLine | misc/helper.py:24-28 | Succeeds iff the separator (space, three bars, space) occurs; otherwise Python raises `IndexError`. The first field is the text before its first occurrence. |
| Lexicon.ScanLineOfRecord | misc/helper.py:24-28 | For a corpus line made of c, the separator, e and a newline, with no bar character in c or e, the result is (c, e). |
| ParseLexicon.Probability | parse_lexicon.py:25-29 | "NA" gives no probability. Any other field gives `float(field)`, and fails with that line and field iff `float` raises. |
| ParseLexicon.ParseLine | parse_lexicon.py:17-29 | Succeeds iff the line has four fields and each probability field is "NA" or parses. The words are the first two fields, with "<NULL>" renamed "-EPS-". Each direction is absent for "NA" and `float(field)` otherwise. A wrong field count fails with that count. Otherwise the error names the first field that does not parse. |
| ParseLexicon.ReadTables | parse_lexicon.py:13-29 | Fails iff some line fails, with the first error. Otherwise the two tables are those of the parsed records. |
| ParseLexicon.EGivenFMembers | parse_lexicon.py:25-26 | A Chinese word has a p(e given f) list iff some record with that word has that probability, and a pair is in the list iff some such record carries it. |
| ParseLexicon.FGivenEMembers | parse_lexicon.py:28-29 | The same for p(f given e), keyed by the English word. |
| ParseLexicon.ListsKeepFileOrder | parse_lexicon.py:26-29 | Reading more lines only extends a word's list: earlier entries keep their order. |
| ParseLexicon.SortIsStable | parse_lexicon.py:34 | `sorted(key=p, reverse=True)` is non-increasing and a permutation, and pairs with equal probability keep their order. |
| ParseLexicon.TopWordsAreMostProbable | parse_lexicon.py:34-35 | The kept words are the first `top_n` of the sorted list (all of them when there are fewer), and no dropped pair is more probable than a kept one. |
| ParseLexicon.WriteTopN | parse_lexicon.py:31-36 | Every key of the table gets its top words, and no other key appears. |
| Embeddings.Word2IdIsLastPosition | misc/embeddings.py:11 | Every listed word has an index, and no other word does. A word's index is its last position in the list. |
| Embeddings.WordEmbeddings.constructor | misc/embeddings.py:7-11 | The vocabulary index built by the comprehension. |
| Embeddings.StrLessIsStrictOrder | misc/embeddings.py:55 | Python's string comparison, used by the sort, is a strict total order. |
| Embeddings.CaseNormalizer | misc/embeddings.py:49-59 | The result is the word itself or a known lower, upper or title variant. |
| Embeddings.CaseNormalizerPicksMostFrequent | misc/embeddings.py:51-58 | When some variant is known, the result is the known variant with the smallest index, ties going to the smaller string. When none is known, the word comes back. |
| Embeddings.Normalize | misc/embeddings.py:28-43 | A known word is unchanged. Otherwise its digit-hashed form is used if known. Otherwise its case-normalised hashed form is used if known, and "<UNK>" is returned if not. |
| Embeddings.NormalizeUnknown | misc/embeddings.py:28-59 | A word whose own form, hashed form and case variants of the hashed form are all unknown becomes "<UNK>". With indices below 10^12, these are the only words that do, apart from "<UNK>" itself. |
| Embeddings.HashDigits | misc/embeddings.py:12 | `[0-9]` → `#`: the length is kept, the ASCII digits become `#`, and every other character is unchanged. |

## Left out

- Floating point: `np.exp`, `np.log` and `logsumexp` are function parameters, and reals are exact, so rounding is not modelled. −inf (log 0) is modelled throughout (`ExtReal.Ext`). +inf and nan are modelled only in the expected feature vector, where a factor of −inf produces them (`ExtReal.Float`).
- `log_weight_rule` (misc/mbr.py:69-71) and the sampling probabilities: `np.random.choice` is an oracle parameter `choose`. The model says nothing about which rule is drawn, only that it is a head rule of the node.
- `bleu_loss` (misc/mbr.py:7-9) needs NLTK: the loss is a parameter of `Mbr.MinimumRisk` and `Mbr.MBRDecoding`.
- The `toposort` library: its layered output is an oracle parameter, and its contract is a hypothesis of `TopSort.TailsPrecedeHeads`. That hypothesis (`Layered`) forbids a node that depends on itself. The library instead silently drops self-dependencies, so a forest with a unary self-loop (X → X) gets an order from the library but falls outside the hypothesis, and the model says nothing about it.
- The `libitg` library (Earley parsing, `make_fsa`): symbols, rules, forests and FSAs are datatypes here, and `featurize_parse_trees` returns a list of (edge, features) pairs. The default dictionary `_rules_by_lhs` is read as empty for a node without rules.
- IBM1 probabilities and their logarithms: the values are parameters (`Ibm1`), total on every word pair, so only the keys and the fixed values are stated. The source reads them from the table of `load_ibm1_probs`, which is not part of this model. A pair missing from that table would raise `KeyError` there (misc/featurizer.py:112, 124, 137-140; misc/features_old.py:75, 85-88). The model assumes every pair is present.
- `Features` and `get_phrase` are imported by misc/featurizer.py:6-7, but neither is defined in the modelled files: misc/features.py has no `Features` class, and misc/spans.py has no `get_phrase`. The model abstracts the feature collection of `featurize_parse_trees` as a list of (edge, feature map) pairs. `get_phrase` is left out with the phrase embeddings.
- `models.feature_functions` (models/CRF.py:2) is not part of this model. Its `get_bispans`, `get_source_word` and `get_target_word` are assumed to behave like those of misc/spans.py.
- Mbr.SampleOne, Mbr.AncestralSampling and Mbr.MBRDecoding require the forest to be acyclic (`Ranked`), so that breadth-first sampling terminates. The `while` loop of misc/mbr.py:39-63 has no such bound and need not terminate on a cyclic forest. The program presumably never samples from a cyclic forest, because computing the inside table first needs a topological sort.
- Word clusters: `get_cluster_id` is a parameter of `Featurizer`.
- The embedding vectors, their pickle loading and `WordEmbeddings.get` (misc/embeddings.py:14-25).
- The summed phrase embeddings of `_featurize_binary_rule` and `get_phrase` (misc/featurizer.py:72-92).
- File and console I/O: the `open` loops, the command line of parse_lexicon.py (its default of 5 is the constant `DefaultTopN`), the `print` in `_normalize`, and the writing of files.
- Featurizer.FeaturizeUpgradeRule: the third branch of `_featurize_upgrade_rule` repeats the first test and cannot be taken; it is not modelled.
- ParseLexicon.WriteTopN: the order in which `write_top_n` writes keys (dictionary order) is not modelled, since the result is a map; the words of each line are stated in order.
- Lexicon.ScanLine: the second field (`[:-1]` of the second piece) is stated only for corpus lines whose fields contain no `|` (`Lexicon.ScanLineOfRecord`).
- Lexicon.EntryOfLine: stated only for lines whose sides contain no `-`. General lines are covered by `Lexicon.LoadLexicon`.
- Spans.GetBispans: Python unpacks `obj()` of the inner symbol into three values, which also succeeds on an unannotated symbol whose name has exactly three characters. The characters then become the span (misc/spans.py:29). The model refuses every unannotated inner symbol. `Features.FeaturizeEdge`, `Features.FeaturizeBinaryRule`, `Features.FeaturizeTerminalRule`, `FeaturesOld.FeaturizeEdge`, `FeaturesOld.FeaturizeBinaryRule`, `FeaturesOld.BinaryEdgeFlags`, `FeaturesOld.FeaturizeTerminalRule`, `CrfFeatures.SimpleFeatures`, `CrfFeatures.TerminalRule` and `CrfFeatures.FeaturizeEdges` inherit this.
- Featurizer.Triple: the same holds for the three-way unpacking of `obj()` in the featuriser (misc/featurizer.py:43-44, 58-60, 102-103). A bare symbol with a three-character name unpacks into its characters in Python, and the model refuses it. `Featurizer.FeaturizeParseTrees`, `Featurizer.FeaturizeEdge`, `Featurizer.FeaturizeUpgradeRule`, `Featurizer.FeaturizeBinaryRule`, `Featurizer.BinaryOrientation` and `Featurizer.FeaturizeTerminalRule` inherit this.
- Embeddings.CaseNormalizerPicksMostFrequent: stated for vocabularies whose indices are below 10^12, the sentinel `_case_normalizer` uses for unknown variants.
- Embeddings.Normalize: `lower`, `upper` and `title` are modelled on ASCII letters only; Python's full Unicode case mapping is not. `Embeddings.CaseNormalizer`, `Embeddings.CaseNormalizerPicksMostFrequent` and `Embeddings.NormalizeUnknown` inherit this.
- Embeddings.CaseNormalizer: its case variants use the ASCII-only `lower`, `upper` and `title` (see `Embeddings.Normalize`).
- Embeddings.NormalizeUnknown: the case variants it rules out are the ASCII-only ones (see `Embeddings.Normalize`).
- Embeddings.CaseNormalizerPicksMostFrequent: its case variants are the ASCII-only ones as well (see `Embeddings.Normalize`).
- Features.FeaturizeEdge, Features.FeaturizeTerminalRule: they refuse a bare inner symbol with a three-character name, which Python unpacks (see `Spans.GetBispans`).
- FeaturesOld.FeaturizeEdge, FeaturesOld.FeaturizeTerminalRule: the same three-character gap (see `Spans.GetBispans`).
- CrfFeatures.SimpleFeatures, CrfFeatures.TerminalRule, CrfFeatures.FeaturizeEdges: the same three-character gap (see `Spans.GetBispans`).
- Featurizer.FeaturizeParseTrees, Featurizer.FeaturizeEdge: they refuse a bare symbol with a three-character name, which Python unpacks (see `Featurizer.Triple`).
- `weight_function` (models/CRF.py:82-83) is an empty stub, and the training loop lies outside the modelled files.
- `create_grammars` and `create_source_forest` (misc/utils.py:44-77) build grammars with `libitg` and are not part of this model.

## Findings

| source | as written | input that shows it | evidently intended | confidence | as-written member | corrected member |
|---|---|---|---|---|---|---|
| misc/inside_outside.py:89-101 (also misc/support.py:29-41) | Each rule's feature values are scaled by k = outside(head) + Σ inside(tails), a log-space sum used as a linear weight: no rule weight, no `exp` and no division by Z. | One rule X → a, with any weight and a feature f of value 1. The inside and outside passes give inside(a) = 0 and outside(X) = 0 (the root), so k = 0 and the expected count of f comes out as 0. | The expected feature count Σ_r exp(outside(head) + w(r) + Σ inside(tails) − log Z) × value, which for this forest is 1. | high; not executed | InsideOutside.ExpectedAsWrittenIsNotACount | InsideOutside.ExpectedFeatureCounts |
