/**
 * The featuriser class of `misc/featurizer.py`: edges of the source and
 * target forests are typed by the nonterminals the grammar uses (S, X, D, I,
 * T) and get IBM1 values and sparse word and word-class features.
 */
module Featurizer {
  import opened Wrappers
  import opened Hypergraph
  import opened Spans
  import opened SparseFeatures

  /**
   * The featuriser's tables: the IBM1 values and the word clusters of the
   * source and target embeddings.
   */
  datatype Featurizer = Featurizer(ibm1: Ibm1, srcCluster: string -> int, tgtCluster: string -> int)

  // ---------------------------------------------------------------- helpers

  /** Unpacking `symbol.obj()` into a (symbol, start, end) triple: only a span has one. */
  function Triple(symbol: Symbol): (r: Result<(Symbol, int, int), FeatureError>)
    ensures r.Ok? <==> symbol.Span?
    ensures r.Ok? ==> symbol == Span(r.value.0, r.value.1, r.value.2)
  {
    match symbol
    case Span(s, start, end) => Ok((s, start, end))
    case _ => Err(NotATriple(symbol))
  }

  /**
   * Whether `lhs.obj()[0]` is the nonterminal X: for a span, its inner
   * symbol; for a bare symbol, the first character of its name, which is
   * never a symbol (an empty name has no first character).
   */
  function HeadIsX(lhs: Symbol): Result<bool, FeatureError> {
    match lhs.Obj()
    case Annotated(inner, _, _) => Ok(inner == Nonterminal("X"))
    case Text(name) => if name == [] then Err(EmptyName(lhs)) else Ok(false)
  }

  function DigitString(n: nat): string
    requires n < 10
  {
    ["0123456789"[n]]
  }

  function NatString(n: nat): string
    decreases n
  {
    if n < 10 then DigitString(n) else NatString(n / 10) + DigitString(n % 10)
  }

  /** Python's `"%d" % i`. */
  function IntString(i: int): string {
    if i < 0 then "-" + NatString(-i) else NatString(i)
  }

  // ---------------------------------------------------------------- specification

  /**
   * The features of an edge: binary edges by their head, terminal edges by
   * their head D, I or T, unary edges under a head other than X as start
   * rules, and the rest as upgrades of X.
   */
  function EdgeFeatures(ft: Featurizer, edge: Rule, fsa: Fsa): Result<FMap, FeatureError> {
    if |edge.rhs| == 2 then BinaryFeatures(edge)
    else if edge.rhs == [] then Err(EmptyRhs)
    else if edge.rhs[0].IsTerminal() then TerminalFeatures(ft, edge, fsa)
    else
      var headIsX := HeadIsX(edge.lhs);
      if headIsX.Err? then Err(headIsX.error)
      else if !headIsX.value then Ok(map["top" := 1.0])
      else UpgradeFeatures(edge)
  }

  /** X above T or D; the third test repeats the first and never fires. */
  function UpgradeFeatures(edge: Rule): Result<FMap, FeatureError>
    requires edge.rhs != []
  {
    var lhs := Triple(edge.lhs);
    var rhs := Triple(edge.rhs[0]);
    if lhs.Err? then Err(lhs.error)
    else if rhs.Err? then Err(rhs.error)
    else if lhs.value.0 != Nonterminal("X") then Ok(map[])
    else if rhs.value.0 == Nonterminal("T") then Ok(map["type:upgrade_t" := 1.0])
    else if rhs.value.0 == Nonterminal("D") then Ok(map["type:upgrade_d" := 1.0])
    else if rhs.value.0 == Nonterminal("T") then Ok(map["type:upgrade_t" := 1.0])
    else Ok(map[])
  }

  /** D over two tails is a recursive deletion; X is inverted when it starts where its second tail starts. */
  function BinaryFeatures(edge: Rule): Result<FMap, FeatureError>
    requires |edge.rhs| == 2
  {
    var lhs := Triple(edge.lhs);
    var rhs1 := Triple(edge.rhs[0]);
    var rhs2 := Triple(edge.rhs[1]);
    if lhs.Err? then Err(lhs.error)
    else if rhs1.Err? then Err(rhs1.error)
    else if rhs2.Err? then Err(rhs2.error)
    else if lhs.value.0 == Nonterminal("D") then Ok(map["type:binary" := 1.0, "binary:recursive_deletion" := 1.0])
    else if lhs.value.0 != Nonterminal("X") then Ok(map["type:binary" := 1.0])
    else if lhs.value.1 == rhs2.value.1 then Ok(map["type:binary" := 1.0, "binary:inverted" := 1.0])
    else Ok(map["type:binary" := 1.0, "binary:monotone" := 1.0])
  }

  /** A terminal edge under D deletes, under I inserts and under T translates a word. */
  function TerminalFeatures(ft: Featurizer, edge: Rule, fsa: Fsa): Result<FMap, FeatureError>
    requires edge.rhs != [] && edge.rhs[0].IsTerminal()
  {
    var lhs := Triple(edge.lhs);
    var rhs := Triple(edge.rhs[0]);
    if lhs.Err? then Err(lhs.error)
    else if rhs.Err? then Err(rhs.error)
    else
      var (lhsSymbol, lhsStart, lhsEnd) := lhs.value;
      var tgt := GetTargetWord(rhs.value.0);
      if lhsSymbol == Nonterminal("D") then
        var src := GetSourceWord(fsa, lhsStart, lhsEnd);
        if src.Err? then Err(BadSpan(src.error))
        else Ok(DeletionFeatures(ft, src.value))
      else if lhsSymbol == Nonterminal("I") then
        Ok(InsertionFeatures(ft, tgt.value))
      else if lhsSymbol == Nonterminal("T") then
        var src := GetSourceWord(fsa, lhsStart, lhsEnd);
        if src.Err? then Err(BadSpan(src.error))
        else Ok(TranslationFeatures(ft, src.value, tgt.value))
      else Ok(map["type:terminal" := 1.0])
  }

  function DeletionFeatures(ft: Featurizer, src: string): FMap {
    map["type:terminal" := 1.0, "type:deletion" := 1.0, "target-len" := -1.0,
        "ibm1:del:logprob" := ft.ibm1.logProb(Word(src), Word("-EPS-")), "del:" + src := 1.0]
  }

  function InsertionFeatures(ft: Featurizer, tgt: string): FMap {
    map["type:terminal" := 1.0, "type:insertion" := 1.0, "target-len" := 1.0,
        "ibm1:ins:logprob" := ft.ibm1.logProb(Word("-EPS-"), Word(tgt)), "ins:" + tgt := 1.0]
  }

  function TranslationFeatures(ft: Featurizer, src: string, tgt: string): FMap {
    TranslationScores(ft, src, tgt)["trans:" + src + "/" + tgt := 1.0][ClassKey(ft, src, tgt) := 1.0]
  }

  /** The type, length and dense IBM1 features of a translation. */
  function TranslationScores(ft: Featurizer, src: string, tgt: string): FMap {
    map["type:terminal" := 1.0, "type:translation" := 1.0, "target-len" := 1.0,
        "ibm1:x2y:logprob" := ft.ibm1.logProb(Word(src), Word(tgt)),
        "ibm1:y2x:logprob" := ft.ibm1.logProb(Word(tgt), Word(src)),
        "ibm1:geometric:log" := ft.ibm1.geometric(Word(src), Word(tgt))]
  }

  function ClassKey(ft: Featurizer, src: string, tgt: string): string {
    "trans-class:" + IntString(ft.srcCluster(src)) + "/" + IntString(ft.tgtCluster(tgt))
  }

  // ---------------------------------------------------------------- featuriser

  /**
   * Featurises every edge of the source forest `dx` and then the last rule
   * of the target forest `dxy`, recording each (edge, features) pair in the
   * order it is added; `dxy` must have a rule.
   */
  method FeaturizeParseTrees(ft: Featurizer, dx: Forest, dxy: Forest, fsa: Fsa)
    returns (res: Result<seq<(Rule, FMap)>, FeatureError>)
    ensures res.Ok? <==>
      && (forall e :: e in dx.rules ==> EdgeFeatures(ft, e, fsa).Ok?)
      && dxy.rules != [] && EdgeFeatures(ft, dxy.rules[|dxy.rules| - 1], fsa).Ok?
    ensures res.Ok? ==> |res.value| == |dx.rules| + 1
    ensures res.Ok? ==> forall i :: 0 <= i < |dx.rules| ==>
      res.value[i] == (dx.rules[i], EdgeFeatures(ft, dx.rules[i], fsa).value)
    ensures res.Ok? ==> var last := dxy.rules[|dxy.rules| - 1];
      res.value[|dx.rules|] == (last, EdgeFeatures(ft, last, fsa).value)
  {
    var features: seq<(Rule, FMap)> := [];
    for i := 0 to |dx.rules|
      invariant |features| == i
      invariant forall j :: 0 <= j < i ==> EdgeFeatures(ft, dx.rules[j], fsa).Ok?
      invariant forall j :: 0 <= j < i ==> features[j] == (dx.rules[j], EdgeFeatures(ft, dx.rules[j], fsa).value)
    {
      var fmap := FeaturizeEdge(ft, dx.rules[i], fsa);
      if fmap.Err? {
        return Err(fmap.error);
      }
      features := features + [(dx.rules[i], fmap.value)];
    }
    if |dxy.rules| == 0 {
      return Err(EmptyRhs);
    }
    var last := dxy.rules[|dxy.rules| - 1];
    var fmap := FeaturizeEdge(ft, last, fsa);
    if fmap.Err? {
      return Err(fmap.error);
    }
    features := features + [(last, fmap.value)];
    return Ok(features);
  }

  method FeaturizeEdge(ft: Featurizer, edge: Rule, fsa: Fsa) returns (res: Result<FMap, FeatureError>)
    ensures res == EdgeFeatures(ft, edge, fsa)
  {
    var fmap := new FeatureMap();
    AddedNothing(fmap.entries);
    if |edge.rhs| == 2 {
      var err := FeaturizeBinaryRule(edge, fsa, fmap);
      if err.Some? {
        return Err(err.value);
      }
    } else {
      if |edge.rhs| == 0 {
        return Err(EmptyRhs);
      }
      if edge.rhs[0].IsTerminal() {
        var err := FeaturizeTerminalRule(ft, edge, fsa, fmap);
        if err.Some? {
          return Err(err.value);
        }
      } else {
        var headIsX := HeadIsX(edge.lhs);
        if headIsX.Err? {
          return Err(headIsX.error);
        }
        if !headIsX.value {
          FeaturizeStartRule(edge, fsa, fmap);
        } else {
          var err := FeaturizeUpgradeRule(edge, fsa, fmap);
          if err.Some? {
            return Err(err.value);
          }
        }
      }
    }
    AddedToEmpty(fmap.entries, EdgeFeatures(ft, edge, fsa).value);
    return Ok(fmap.entries);
  }

  method FeaturizeUpgradeRule(rule: Rule, fsa: Fsa, fmap: FeatureMap) returns (err: Option<FeatureError>)
    requires rule.rhs != []
    modifies fmap
    ensures err.None? <==> UpgradeFeatures(rule).Ok?
    ensures err.Some? ==> err.value == UpgradeFeatures(rule).error
    ensures err.None? ==> Added(fmap.entries, old(fmap.entries), UpgradeFeatures(rule).value)
  {
    AddedNothing(fmap.entries);
    var lhs := Triple(rule.lhs);
    if lhs.Err? {
      return Some(lhs.error);
    }
    var rhs := Triple(rule.rhs[0]);
    if rhs.Err? {
      return Some(rhs.error);
    }
    var lhsSymbol, rhsSymbol := lhs.value.0, rhs.value.0;
    if lhsSymbol == Nonterminal("X") {
      if rhsSymbol == Nonterminal("T") {
        AddedBump(fmap.entries, fmap.entries, map[], "type:upgrade_t", 1.0);
        fmap.Increment("type:upgrade_t", 1.0);
      } else if rhsSymbol == Nonterminal("D") {
        AddedBump(fmap.entries, fmap.entries, map[], "type:upgrade_d", 1.0);
        fmap.Increment("type:upgrade_d", 1.0);
      }
      // The source tests T a second time here, which can never succeed.
    }
    return None;
  }

  method FeaturizeBinaryRule(rule: Rule, fsa: Fsa, fmap: FeatureMap) returns (err: Option<FeatureError>)
    requires |rule.rhs| == 2
    modifies fmap
    ensures err.None? <==> BinaryFeatures(rule).Ok?
    ensures err.Some? ==> err.value == BinaryFeatures(rule).error
    ensures err.None? ==> Added(fmap.entries, old(fmap.entries), BinaryFeatures(rule).value)
  {
    ghost var before := fmap.entries;
    AddedNothing(before);
    AddedBump(before, before, map[], "type:binary", 1.0);
    fmap.Increment("type:binary", 1.0);
    var lhs := Triple(rule.lhs);
    if lhs.Err? {
      return Some(lhs.error);
    }
    var rhs1 := Triple(rule.rhs[0]);
    if rhs1.Err? {
      return Some(rhs1.error);
    }
    var rhs2 := Triple(rule.rhs[1]);
    if rhs2.Err? {
      return Some(rhs2.error);
    }
    var (lhsSymbol, lhsStart, _) := lhs.value;
    var rhsStart2 := rhs2.value.1;
    if lhsSymbol == Nonterminal("D") {
      AddedBump(fmap.entries, before, map["type:binary" := 1.0], "binary:recursive_deletion", 1.0);
      fmap.Increment("binary:recursive_deletion", 1.0);
    } else if lhsSymbol == Nonterminal("X") {
      if lhsStart == rhsStart2 {
        AddedBump(fmap.entries, before, map["type:binary" := 1.0], "binary:inverted", 1.0);
        fmap.Increment("binary:inverted", 1.0);
      } else {
        AddedBump(fmap.entries, before, map["type:binary" := 1.0], "binary:monotone", 1.0);
        fmap.Increment("binary:monotone", 1.0);
        // The embedding sums over the inside and outside source phrases are not modelled.
      }
    }
    return None;
  }

  method FeaturizeStartRule(rule: Rule, fsa: Fsa, fmap: FeatureMap)
    modifies fmap
    ensures Added(fmap.entries, old(fmap.entries), map["top" := 1.0])
  {
    AddedNothing(fmap.entries);
    AddedBump(fmap.entries, fmap.entries, map[], "top", 1.0);
    fmap.Increment("top", 1.0);
  }

  method FeaturizeTerminalRule(ft: Featurizer, rule: Rule, fsa: Fsa, fmap: FeatureMap) returns (err: Option<FeatureError>)
    requires rule.rhs != [] && rule.rhs[0].IsTerminal()
    modifies fmap
    ensures err.None? <==> TerminalFeatures(ft, rule, fsa).Ok?
    ensures err.Some? ==> err.value == TerminalFeatures(ft, rule, fsa).error
    ensures err.None? ==> Added(fmap.entries, old(fmap.entries), TerminalFeatures(ft, rule, fsa).value)
  {
    ghost var before := fmap.entries;
    AddedNothing(before);
    AddedBump(before, before, map[], "type:terminal", 1.0);
    fmap.Increment("type:terminal", 1.0);
    var lhs := Triple(rule.lhs);
    if lhs.Err? {
      return Some(lhs.error);
    }
    var rhs := Triple(rule.rhs[0]);
    if rhs.Err? {
      return Some(rhs.error);
    }
    var (lhsSymbol, lhsStart, lhsEnd) := lhs.value;
    var rhsSymbol := rhs.value.0;
    if lhsSymbol == Nonterminal("D") {
      var srcWord := GetSourceWord(fsa, lhsStart, lhsEnd);
      if srcWord.Err? {
        return Some(BadSpan(srcWord.error));
      }
      AddDeletion(ft, fmap, before, srcWord.value);
    } else if lhsSymbol == Nonterminal("I") {
      var tgtWord := GetTargetWord(rhsSymbol).value;
      AddInsertion(ft, fmap, before, tgtWord);
    } else if lhsSymbol == Nonterminal("T") {
      var srcWord := GetSourceWord(fsa, lhsStart, lhsEnd);
      if srcWord.Err? {
        return Some(BadSpan(srcWord.error));
      }
      var tgtWord := GetTargetWord(rhsSymbol).value;
      AddTranslation(ft, fmap, before, srcWord.value, tgtWord);
    }
    return None;
  }

  method AddDeletion(ft: Featurizer, fmap: FeatureMap, ghost before: FMap, srcWord: string)
    requires Added(fmap.entries, before, map["type:terminal" := 1.0])
    modifies fmap
    ensures Added(fmap.entries, before, DeletionFeatures(ft, srcWord))
  {
    TerminalNamesDiffer();
    PrefixedKeyIsFresh("del:", srcWord, "type:terminal");
    PrefixedKeyIsFresh("del:", srcWord, "type:deletion");
    PrefixedKeyIsFresh("del:", srcWord, "target-len");
    PrefixedKeyIsFresh("del:", srcWord, "ibm1:del:logprob");
    var delta := map["type:terminal" := 1.0];
    AddedBump(fmap.entries, before, delta, "type:deletion", 1.0);
    fmap.Increment("type:deletion", 1.0);
    delta := delta["type:deletion" := 1.0];
    AddedBump(fmap.entries, before, delta, "target-len", -1.0);
    fmap.Increment("target-len", -1.0);
    delta := delta["target-len" := -1.0];
    var logProb := ft.ibm1.logProb(Word(srcWord), Word("-EPS-"));
    AddedBump(fmap.entries, before, delta, "ibm1:del:logprob", logProb);
    fmap.Increment("ibm1:del:logprob", logProb);
    delta := delta["ibm1:del:logprob" := logProb];
    AddedBump(fmap.entries, before, delta, "del:" + srcWord, 1.0);
    fmap.Increment("del:" + srcWord, 1.0);
  }

  method AddInsertion(ft: Featurizer, fmap: FeatureMap, ghost before: FMap, tgtWord: string)
    requires Added(fmap.entries, before, map["type:terminal" := 1.0])
    modifies fmap
    ensures Added(fmap.entries, before, InsertionFeatures(ft, tgtWord))
  {
    TerminalNamesDiffer();
    PrefixedKeyIsFresh("ins:", tgtWord, "type:terminal");
    PrefixedKeyIsFresh("ins:", tgtWord, "type:insertion");
    PrefixedKeyIsFresh("ins:", tgtWord, "target-len");
    PrefixedKeyIsFresh("ins:", tgtWord, "ibm1:ins:logprob");
    var delta := map["type:terminal" := 1.0];
    AddedBump(fmap.entries, before, delta, "type:insertion", 1.0);
    fmap.Increment("type:insertion", 1.0);
    delta := delta["type:insertion" := 1.0];
    AddedBump(fmap.entries, before, delta, "target-len", 1.0);
    fmap.Increment("target-len", 1.0);
    delta := delta["target-len" := 1.0];
    var logProb := ft.ibm1.logProb(Word("-EPS-"), Word(tgtWord));
    AddedBump(fmap.entries, before, delta, "ibm1:ins:logprob", logProb);
    fmap.Increment("ibm1:ins:logprob", logProb);
    delta := delta["ibm1:ins:logprob" := logProb];
    AddedBump(fmap.entries, before, delta, "ins:" + tgtWord, 1.0);
    fmap.Increment("ins:" + tgtWord, 1.0);
  }

  method AddTranslation(ft: Featurizer, fmap: FeatureMap, ghost before: FMap, srcWord: string, tgtWord: string)
    requires Added(fmap.entries, before, map["type:terminal" := 1.0])
    modifies fmap
    ensures Added(fmap.entries, before, TranslationFeatures(ft, srcWord, tgtWord))
  {
    AddTranslationScores(ft, fmap, before, srcWord, tgtWord);
    TransKeysAreFresh(ft, srcWord, tgtWord);
    var delta := TranslationScores(ft, srcWord, tgtWord);
    var trans := "trans:" + srcWord + "/" + tgtWord;
    AddedBump(fmap.entries, before, delta, trans, 1.0);
    fmap.Increment(trans, 1.0);
    delta := delta[trans := 1.0];
    var cls := ClassKey(ft, srcWord, tgtWord);
    AddedBump(fmap.entries, before, delta, cls, 1.0);
    fmap.Increment(cls, 1.0);
  }

  method AddTranslationScores(ft: Featurizer, fmap: FeatureMap, ghost before: FMap, srcWord: string, tgtWord: string)
    requires Added(fmap.entries, before, map["type:terminal" := 1.0])
    modifies fmap
    ensures Added(fmap.entries, before, TranslationScores(ft, srcWord, tgtWord))
  {
    TerminalNamesDiffer();
    var delta := map["type:terminal" := 1.0];
    AddedBump(fmap.entries, before, delta, "type:translation", 1.0);
    fmap.Increment("type:translation", 1.0);
    delta := delta["type:translation" := 1.0];
    AddedBump(fmap.entries, before, delta, "target-len", 1.0);
    fmap.Increment("target-len", 1.0);
    delta := delta["target-len" := 1.0];
    var x2y := ft.ibm1.logProb(Word(srcWord), Word(tgtWord));
    AddedBump(fmap.entries, before, delta, "ibm1:x2y:logprob", x2y);
    fmap.Increment("ibm1:x2y:logprob", x2y);
    delta := delta["ibm1:x2y:logprob" := x2y];
    var y2x := ft.ibm1.logProb(Word(tgtWord), Word(srcWord));
    AddedBump(fmap.entries, before, delta, "ibm1:y2x:logprob", y2x);
    fmap.Increment("ibm1:y2x:logprob", y2x);
    delta := delta["ibm1:y2x:logprob" := y2x];
    var geometric := ft.ibm1.geometric(Word(srcWord), Word(tgtWord));
    AddedBump(fmap.entries, before, delta, "ibm1:geometric:log", geometric);
    fmap.Increment("ibm1:geometric:log", geometric);
  }

  /** The fixed feature names of terminal edges are pairwise different. */
  lemma TerminalNamesDiffer()
    ensures "type:deletion" != "type:terminal" && "type:insertion" != "type:terminal" && "type:translation" != "type:terminal"
    ensures "target-len" != "type:terminal" && "target-len" != "type:deletion"
    ensures "target-len" != "type:insertion" && "target-len" != "type:translation"
    ensures "ibm1:del:logprob" != "type:terminal" && "ibm1:del:logprob" != "type:deletion" && "ibm1:del:logprob" != "target-len"
    ensures "ibm1:ins:logprob" != "type:terminal" && "ibm1:ins:logprob" != "type:insertion" && "ibm1:ins:logprob" != "target-len"
    ensures "ibm1:x2y:logprob" != "type:terminal" && "ibm1:x2y:logprob" != "type:translation" && "ibm1:x2y:logprob" != "target-len"
    ensures "ibm1:y2x:logprob" != "type:terminal" && "ibm1:y2x:logprob" != "type:translation" && "ibm1:y2x:logprob" != "target-len"
    ensures "ibm1:y2x:logprob" != "ibm1:x2y:logprob"
    ensures "ibm1:geometric:log" != "type:terminal" && "ibm1:geometric:log" != "type:translation" && "ibm1:geometric:log" != "target-len"
    ensures "ibm1:geometric:log" != "ibm1:x2y:logprob" && "ibm1:geometric:log" != "ibm1:y2x:logprob"
  {
    Differ("type:deletion", "type:terminal", 5);
    Differ("type:insertion", "type:terminal", 5);
    Differ("type:translation", "type:terminal", 6);
    Differ("target-len", "type:terminal", 1);
    Differ("target-len", "type:deletion", 1);
    Differ("target-len", "type:insertion", 1);
    Differ("target-len", "type:translation", 1);
    Differ("ibm1:del:logprob", "type:terminal", 0);
    Differ("ibm1:del:logprob", "type:deletion", 0);
    Differ("ibm1:del:logprob", "target-len", 0);
    Differ("ibm1:ins:logprob", "type:terminal", 0);
    Differ("ibm1:ins:logprob", "type:insertion", 0);
    Differ("ibm1:ins:logprob", "target-len", 0);
    Differ("ibm1:x2y:logprob", "type:terminal", 0);
    Differ("ibm1:x2y:logprob", "type:translation", 0);
    Differ("ibm1:x2y:logprob", "target-len", 0);
    Differ("ibm1:y2x:logprob", "type:terminal", 0);
    Differ("ibm1:y2x:logprob", "type:translation", 0);
    Differ("ibm1:y2x:logprob", "target-len", 0);
    Differ("ibm1:y2x:logprob", "ibm1:x2y:logprob", 5);
    Differ("ibm1:geometric:log", "type:terminal", 0);
    Differ("ibm1:geometric:log", "type:translation", 0);
    Differ("ibm1:geometric:log", "target-len", 0);
    Differ("ibm1:geometric:log", "ibm1:x2y:logprob", 5);
    Differ("ibm1:geometric:log", "ibm1:y2x:logprob", 5);
  }

  /** A feature name whose first two characters are `a` and `b`. */
  predicate Starts(key: string, a: char, b: char) {
    |key| >= 2 && key[0] == a && key[1] == b
  }

  lemma StartsDiffer(key: string, a: char, b: char, other: string)
    requires Starts(key, a, b) && |other| >= 2 && (other[0] != a || other[1] != b)
    ensures key != other
  {}

  /**
   * A word feature `prefix + word` is not the fixed name `name` when their
   * first two characters tell them apart (`del:`, `ins:` against the type,
   * length and IBM1 names).
   */
  lemma PrefixedKeyIsFresh(prefix: string, word: string, name: string)
    requires |prefix| >= 2 && |name| >= 2 && (name[0] != prefix[0] || name[1] != prefix[1])
    ensures prefix + word != name
  {
    var key := prefix + word;
    assert Starts(key, prefix[0], prefix[1]);
    StartsDiffer(key, prefix[0], prefix[1], name);
  }

  /** The two translation word features are none of the fixed names of a translation, nor each other. */
  lemma TransKeysAreFresh(ft: Featurizer, src: string, tgt: string)
    ensures var key := "trans:" + src + "/" + tgt;
      && key != "type:terminal" && key != "type:translation" && key != "target-len"
      && key != "ibm1:x2y:logprob" && key != "ibm1:y2x:logprob" && key != "ibm1:geometric:log"
    ensures var key := ClassKey(ft, src, tgt);
      && key != "type:terminal" && key != "type:translation" && key != "target-len"
      && key != "ibm1:x2y:logprob" && key != "ibm1:y2x:logprob" && key != "ibm1:geometric:log"
      && key != "trans:" + src + "/" + tgt
  {
    var trans := "trans:" + src + "/" + tgt;
    var cls := ClassKey(ft, src, tgt);
    assert Starts(trans, 't', 'r') && trans[5] == ':';
    assert Starts(cls, 't', 'r') && cls[5] == '-';
    var names := ["type:terminal", "type:translation", "target-len", "ibm1:x2y:logprob", "ibm1:y2x:logprob", "ibm1:geometric:log"];
    forall n | n in names ensures trans != n && cls != n {
      StartsDiffer(trans, 't', 'r', n);
      StartsDiffer(cls, 't', 'r', n);
    }
    Differ(cls, trans, 5);
  }

  // ---------------------------------------------------------------- properties

  /**
   * The dispatch: two tails make a binary rule; one nonterminal tail under
   * a head other than a span of X a start rule; and under a span of X an
   * upgrade, which adds the T upgrade above T, the D upgrade above D and
   * nothing otherwise.
   */
  lemma Dispatch(ft: Featurizer, edge: Rule, fsa: Fsa)
    requires EdgeFeatures(ft, edge, fsa).Ok?
    ensures var f := EdgeFeatures(ft, edge, fsa).value;
      && (|edge.rhs| == 2 ==> f["type:binary"] == 1.0)
      && (|edge.rhs| != 2 && !edge.rhs[0].IsTerminal() && !(edge.lhs.Span? && edge.lhs.sym == Nonterminal("X")) ==>
            f == map["top" := 1.0])
      && (|edge.rhs| != 2 && !edge.rhs[0].IsTerminal() && edge.lhs.Span? && edge.lhs.sym == Nonterminal("X") ==>
            f == if edge.rhs[0].sym == Nonterminal("T") then map["type:upgrade_t" := 1.0]
                 else if edge.rhs[0].sym == Nonterminal("D") then map["type:upgrade_d" := 1.0]
                 else map[])
  {
    if |edge.rhs| == 2 {
      Differ("binary:inverted", "type:binary", 0);
      Differ("binary:monotone", "type:binary", 0);
      Differ("binary:recursive_deletion", "type:binary", 0);
    }
  }

  /** A binary X rule is inverted exactly when it starts where its second tail starts, and monotone otherwise. */
  lemma BinaryOrientation(ft: Featurizer, edge: Rule, fsa: Fsa)
    requires |edge.rhs| == 2 && EdgeFeatures(ft, edge, fsa).Ok?
    ensures var f := EdgeFeatures(ft, edge, fsa).value;
      && (edge.lhs.sym == Nonterminal("D") ==> f.Keys == {"type:binary", "binary:recursive_deletion"})
      && (edge.lhs.sym == Nonterminal("X") ==>
            && ("binary:inverted" in f <==> edge.lhs.start == edge.rhs[1].start)
            && ("binary:monotone" in f <==> edge.lhs.start != edge.rhs[1].start)
            && f.Keys <= {"type:binary", "binary:inverted", "binary:monotone"})
  {
    Differ("binary:inverted", "binary:monotone", 7);
    Differ("binary:inverted", "type:binary", 0);
    Differ("binary:monotone", "type:binary", 0);
  }

  lemma DeletionValues(ft: Featurizer, src: string)
    ensures var f := DeletionFeatures(ft, src);
      f["type:terminal"] == 1.0 && f["type:deletion"] == 1.0 && f["target-len"] == -1.0 && f["del:" + src] == 1.0
  {
    TerminalNamesDiffer();
    PrefixedKeyIsFresh("del:", src, "type:terminal");
    PrefixedKeyIsFresh("del:", src, "type:deletion");
    PrefixedKeyIsFresh("del:", src, "target-len");
    PrefixedKeyIsFresh("del:", src, "ibm1:del:logprob");
  }

  lemma InsertionValues(ft: Featurizer, tgt: string)
    ensures var f := InsertionFeatures(ft, tgt);
      f["type:terminal"] == 1.0 && f["type:insertion"] == 1.0 && f["target-len"] == 1.0 && f["ins:" + tgt] == 1.0
  {
    TerminalNamesDiffer();
    PrefixedKeyIsFresh("ins:", tgt, "type:terminal");
    PrefixedKeyIsFresh("ins:", tgt, "type:insertion");
    PrefixedKeyIsFresh("ins:", tgt, "target-len");
    PrefixedKeyIsFresh("ins:", tgt, "ibm1:ins:logprob");
  }

  lemma TranslationValues(ft: Featurizer, src: string, tgt: string)
    ensures var f := TranslationFeatures(ft, src, tgt);
      && f["type:terminal"] == 1.0 && f["type:translation"] == 1.0 && f["target-len"] == 1.0
      && f["trans:" + src + "/" + tgt] == 1.0 && f[ClassKey(ft, src, tgt)] == 1.0
  {
    TerminalNamesDiffer();
    TransKeysAreFresh(ft, src, tgt);
  }

  /**
   * A terminal D rule deletes its source word and shortens the target by
   * one; I and T rules lengthen it by one, inserting the target word or
   * translating the source word into it.  Each sets its word feature to 1.
   */
  lemma TerminalKinds(ft: Featurizer, edge: Rule, fsa: Fsa)
    requires |edge.rhs| == 1 && edge.rhs[0].IsTerminal() && EdgeFeatures(ft, edge, fsa).Ok?
    ensures var f := EdgeFeatures(ft, edge, fsa).value;
      var src := GetSourceWord(fsa, edge.lhs.start, edge.lhs.end);
      var tgt := GetTargetWord(edge.rhs[0].sym);
      && f["type:terminal"] == 1.0
      && (edge.lhs.sym == Nonterminal("D") ==>
            f["type:deletion"] == 1.0 && f["target-len"] == -1.0 && f["del:" + src.value] == 1.0)
      && (edge.lhs.sym == Nonterminal("I") ==>
            f["type:insertion"] == 1.0 && f["target-len"] == 1.0 && f["ins:" + tgt.value] == 1.0)
      && (edge.lhs.sym == Nonterminal("T") ==>
            && f["type:translation"] == 1.0 && f["target-len"] == 1.0
            && f["trans:" + src.value + "/" + tgt.value] == 1.0 && f[ClassKey(ft, src.value, tgt.value)] == 1.0)
      && (edge.lhs.sym !in {Nonterminal("D"), Nonterminal("I"), Nonterminal("T")} ==> f == map["type:terminal" := 1.0])
  {
    var lhs, rhs := Triple(edge.lhs).value, Triple(edge.rhs[0]).value;
    if lhs.0 == Nonterminal("D") {
      DeletionValues(ft, GetSourceWord(fsa, lhs.1, lhs.2).value);
    } else if lhs.0 == Nonterminal("I") {
      InsertionValues(ft, GetTargetWord(rhs.0).value);
    } else if lhs.0 == Nonterminal("T") {
      TranslationValues(ft, GetSourceWord(fsa, lhs.1, lhs.2).value, GetTargetWord(rhs.0).value);
    }
  }
}
