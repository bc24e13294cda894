/**
 * The earlier edge featuriser of `misc/features_old.py`: binary edges get a
 * flag per source-span relation between their tails, and insertions and
 * translations carry dense IBM1 values beside their sparse word features.
 */
module FeaturesOld {
  import opened Wrappers
  import opened Hypergraph
  import opened Spans
  import opened SparseFeatures

  // ---------------------------------------------------------------- specification

  function EdgeFeatures(edge: Rule, fsa: Fsa, ibm1: Ibm1, eps: Symbol): Result<FMap, FeatureError> {
    if |edge.rhs| == 2 then BinaryFeatures(edge)
    else if edge.rhs == [] then Err(EmptyRhs)
    else if edge.rhs[0].IsTerminal() then TerminalFeatures(edge.rhs[0], fsa, ibm1, eps)
    else Ok(map["top" := 1.0])
  }

  function BinaryFeatures(edge: Rule): Result<FMap, FeatureError>
    requires |edge.rhs| == 2
  {
    var left := GetBispans(edge.rhs[0]);
    var right := GetBispans(edge.rhs[1]);
    if left.Err? then Err(BadSpan(left.error))
    else if right.Err? then Err(BadSpan(right.error))
    else Ok(SpanFlags(left.value.0.0, left.value.0.1, right.value.0.0, right.value.0.1))
  }

  /** The binary type plus one flag per relation that holds between the left (ls) and right (rs) source spans. */
  function SpanFlags(ls1: int, ls2: int, rs1: int, rs2: int): FMap {
    var m := map["type:binary" := 1.0];
    var m := if ls1 == ls2 then m["binary:deletion_left_src_child" := 1.0] else m;
    var m := if rs1 == rs2 then m["binary:deletion_right_src_child" := 1.0] else m;
    var m := if ls2 == rs1 then m["binary:monotone" := 1.0] else m;
    if ls1 == rs2 then m["binary:inverted" := 1.0] else m
  }

  function TerminalFeatures(symbol: Symbol, fsa: Fsa, ibm1: Ibm1, eps: Symbol): Result<FMap, FeatureError>
    requires symbol.IsTerminal()
  {
    var spans := GetBispans(symbol);
    if spans.Err? then Err(BadSpan(spans.error))
    else if symbol.Root() == eps then Ok(map["type:terminal" := 1.0, "type:deletion" := 1.0])
    else
      var tgt := GetTargetWord(symbol).value;
      var s1, s2 := spans.value.0.0, spans.value.0.1;
      if s1 == s2 then Ok(InsertionFeatures(ibm1, eps, tgt))
      else
        var src := GetSourceWord(fsa, s1, s2);
        if src.Err? then Err(BadSpan(src.error))
        else Ok(TranslationFeatures(ibm1, src.value, tgt))
  }

  /** An insertion: the IBM1 value is looked up under the eps symbol itself, not its word. */
  function InsertionFeatures(ibm1: Ibm1, eps: Symbol, tgt: string): FMap {
    map["type:terminal" := 1.0, "type:insertion" := 1.0,
        "ibm1:ins:logprob" := ibm1.logProb(Sym(eps.Root()), Word(tgt)), "ins:" + tgt := 1.0]
  }

  function TranslationFeatures(ibm1: Ibm1, src: string, tgt: string): FMap {
    map["type:terminal" := 1.0, "type:translation" := 1.0,
        "ibm1:x2y:logprob" := ibm1.logProb(Word(src), Word(tgt)),
        "ibm1:y2x:logprob" := ibm1.logProb(Word(tgt), Word(src)),
        "ibm1:geometric:log" := ibm1.geometric(Word(src), Word(tgt)),
        "trans:" + src + "/" + tgt := 1.0]
  }

  /** The fixed feature names are pairwise different. */
  lemma BinaryNamesDiffer()
    ensures "binary:deletion_left_src_child" != "type:binary"
    ensures "binary:deletion_right_src_child" !in {"type:binary", "binary:deletion_left_src_child"}
    ensures "binary:monotone" !in {"type:binary", "binary:deletion_left_src_child", "binary:deletion_right_src_child"}
    ensures "binary:inverted" !in {"type:binary", "binary:deletion_left_src_child", "binary:deletion_right_src_child", "binary:monotone"}
  {
    Differ("binary:deletion_left_src_child", "type:binary", 0);
    Differ("binary:deletion_right_src_child", "type:binary", 0);
    Differ("binary:deletion_right_src_child", "binary:deletion_left_src_child", 16);
    Differ("binary:monotone", "type:binary", 0);
    Differ("binary:monotone", "binary:deletion_left_src_child", 7);
    Differ("binary:monotone", "binary:deletion_right_src_child", 7);
    Differ("binary:inverted", "type:binary", 0);
    Differ("binary:inverted", "binary:deletion_left_src_child", 7);
    Differ("binary:inverted", "binary:deletion_right_src_child", 7);
    Differ("binary:inverted", "binary:monotone", 7);
  }

  lemma TerminalNamesDiffer()
    ensures "type:insertion" != "type:terminal" && "type:translation" != "type:terminal"
    ensures "ibm1:ins:logprob" !in {"type:terminal", "type:insertion"}
    ensures "ibm1:x2y:logprob" !in {"type:terminal", "type:translation"}
    ensures "ibm1:y2x:logprob" !in {"type:terminal", "type:translation", "ibm1:x2y:logprob"}
    ensures "ibm1:geometric:log" !in {"type:terminal", "type:translation", "ibm1:x2y:logprob", "ibm1:y2x:logprob"}
  {
    Differ("type:insertion", "type:terminal", 5);
    Differ("type:translation", "type:terminal", 6);
    Differ("ibm1:ins:logprob", "type:terminal", 0);
    Differ("ibm1:ins:logprob", "type:insertion", 0);
    Differ("ibm1:x2y:logprob", "type:terminal", 0);
    Differ("ibm1:x2y:logprob", "type:translation", 0);
    Differ("ibm1:y2x:logprob", "type:terminal", 0);
    Differ("ibm1:y2x:logprob", "type:translation", 0);
    Differ("ibm1:y2x:logprob", "ibm1:x2y:logprob", 5);
    Differ("ibm1:geometric:log", "type:terminal", 0);
    Differ("ibm1:geometric:log", "type:translation", 0);
    Differ("ibm1:geometric:log", "ibm1:x2y:logprob", 5);
    Differ("ibm1:geometric:log", "ibm1:y2x:logprob", 5);
  }

  /** The sparse insertion feature is none of the fixed terminal feature names. */
  lemma InsKeyIsFresh(tgt: string, names: set<string>)
    requires names <= {"type:terminal", "type:deletion", "type:insertion", "type:translation", "ibm1:ins:logprob"}
    ensures "ins:" + tgt !in names
  {
    var key := "ins:" + tgt;
    assert key[1] == 'n';
  }

  /** The sparse translation feature is none of the fixed terminal feature names. */
  lemma TransKeyIsFresh(src: string, tgt: string, names: set<string>)
    requires names <= {"type:terminal", "type:deletion", "type:insertion", "type:translation",
                       "ibm1:x2y:logprob", "ibm1:y2x:logprob", "ibm1:geometric:log"}
    ensures "trans:" + src + "/" + tgt !in names
  {
    var key := "trans:" + src + "/" + tgt;
    assert key[0] == 't' && key[1] == 'r';
  }

  // ---------------------------------------------------------------- featuriser

  method FeaturizeEdge(edge: Rule, fsa: Fsa, ibm1: Ibm1, eps: Symbol) returns (res: Result<FMap, FeatureError>)
    ensures res == EdgeFeatures(edge, fsa, ibm1, eps)
  {
    var fmap := new FeatureMap();
    AddedNothing(fmap.entries);
    if |edge.rhs| == 2 {
      var err := FeaturizeBinaryRule(edge, fsa, fmap);
      if err.Some? {
        return Err(err.value);
      }
    } else {
      if |edge.rhs| == 0 {
        return Err(EmptyRhs);
      }
      var symbol := edge.rhs[0];
      if symbol.IsTerminal() {
        var err := FeaturizeTerminalRule(edge, fsa, fmap, ibm1, eps);
        if err.Some? {
          return Err(err.value);
        }
      } else {
        FeaturizeStartRule(edge, fsa, fmap);
      }
    }
    AddedToEmpty(fmap.entries, EdgeFeatures(edge, fsa, ibm1, eps).value);
    return Ok(fmap.entries);
  }

  method FeaturizeBinaryRule(rule: Rule, fsa: Fsa, fmap: FeatureMap) returns (err: Option<FeatureError>)
    requires |rule.rhs| == 2
    modifies fmap
    ensures err.None? <==> BinaryFeatures(rule).Ok?
    ensures err.Some? ==> err.value == BinaryFeatures(rule).error
    ensures err.None? ==> Added(fmap.entries, old(fmap.entries), BinaryFeatures(rule).value)
  {
    ghost var before := fmap.entries;
    AddedNothing(before);
    AddedBump(before, before, map[], "type:binary", 1.0);
    fmap.Increment("type:binary", 1.0);
    ghost var delta := map["type:binary" := 1.0];
    var left := GetBispans(rule.rhs[0]);
    if left.Err? {
      return Some(BadSpan(left.error));
    }
    var right := GetBispans(rule.rhs[1]);
    if right.Err? {
      return Some(BadSpan(right.error));
    }
    var ls1, ls2 := left.value.0.0, left.value.0.1;
    var rs1, rs2 := right.value.0.0, right.value.0.1;
    BinaryNamesDiffer();
    if ls1 == ls2 {
      AddedBump(fmap.entries, before, delta, "binary:deletion_left_src_child", 1.0);
      fmap.Increment("binary:deletion_left_src_child", 1.0);
      delta := delta["binary:deletion_left_src_child" := 1.0];
    }
    if rs1 == rs2 {
      AddedBump(fmap.entries, before, delta, "binary:deletion_right_src_child", 1.0);
      fmap.Increment("binary:deletion_right_src_child", 1.0);
      delta := delta["binary:deletion_right_src_child" := 1.0];
    }
    if ls2 == rs1 {
      AddedBump(fmap.entries, before, delta, "binary:monotone", 1.0);
      fmap.Increment("binary:monotone", 1.0);
      delta := delta["binary:monotone" := 1.0];
    }
    if ls1 == rs2 {
      AddedBump(fmap.entries, before, delta, "binary:inverted", 1.0);
      fmap.Increment("binary:inverted", 1.0);
      delta := delta["binary:inverted" := 1.0];
    }
    return None;
  }

  method FeaturizeStartRule(rule: Rule, fsa: Fsa, fmap: FeatureMap)
    modifies fmap
    ensures Added(fmap.entries, old(fmap.entries), map["top" := 1.0])
  {
    AddedNothing(fmap.entries);
    AddedBump(fmap.entries, fmap.entries, map[], "top", 1.0);
    fmap.Increment("top", 1.0);
  }

  method FeaturizeTerminalRule(rule: Rule, fsa: Fsa, fmap: FeatureMap, ibm1: Ibm1, eps: Symbol)
    returns (err: Option<FeatureError>)
    requires rule.rhs != [] && rule.rhs[0].IsTerminal()
    modifies fmap
    ensures err.None? <==> TerminalFeatures(rule.rhs[0], fsa, ibm1, eps).Ok?
    ensures err.Some? ==> err.value == TerminalFeatures(rule.rhs[0], fsa, ibm1, eps).error
    ensures err.None? ==> Added(fmap.entries, old(fmap.entries), TerminalFeatures(rule.rhs[0], fsa, ibm1, eps).value)
  {
    ghost var before := fmap.entries;
    AddedNothing(before);
    AddedBump(before, before, map[], "type:terminal", 1.0);
    fmap.Increment("type:terminal", 1.0);
    var symbol := rule.rhs[0];
    var spans := GetBispans(symbol);
    if spans.Err? {
      return Some(BadSpan(spans.error));
    }
    var s1, s2 := spans.value.0.0, spans.value.0.1;
    if symbol.Root() == eps {
      AddedBump(fmap.entries, before, map["type:terminal" := 1.0], "type:deletion", 1.0);
      fmap.Increment("type:deletion", 1.0);
    } else {
      var tgtWord := GetTargetWord(symbol).value;
      if s1 == s2 {
        AddInsertion(fmap, before, ibm1, eps, tgtWord);
      } else {
        var srcWord := GetSourceWord(fsa, s1, s2);
        if srcWord.Err? {
          return Some(BadSpan(srcWord.error));
        }
        AddTranslation(fmap, before, ibm1, srcWord.value, tgtWord);
      }
    }
    return None;
  }

  /** The insertion branch: its type, the IBM1 insertion value and the inserted word. */
  method AddInsertion(fmap: FeatureMap, ghost before: FMap, ibm1: Ibm1, eps: Symbol, tgtWord: string)
    requires Added(fmap.entries, before, map["type:terminal" := 1.0])
    modifies fmap
    ensures Added(fmap.entries, before, InsertionFeatures(ibm1, eps, tgtWord))
  {
    TerminalNamesDiffer();
    var delta := map["type:terminal" := 1.0];
    AddedBump(fmap.entries, before, delta, "type:insertion", 1.0);
    fmap.Increment("type:insertion", 1.0);
    delta := delta["type:insertion" := 1.0];
    var logProb := ibm1.logProb(Sym(eps.Root()), Word(tgtWord));
    AddedBump(fmap.entries, before, delta, "ibm1:ins:logprob", logProb);
    fmap.Increment("ibm1:ins:logprob", logProb);
    delta := delta["ibm1:ins:logprob" := logProb];
    InsKeyIsFresh(tgtWord, delta.Keys);
    AddedBump(fmap.entries, before, delta, "ins:" + tgtWord, 1.0);
    fmap.Increment("ins:" + tgtWord, 1.0);
  }

  /** The translation branch: its type, the three IBM1 values and the word pair. */
  method AddTranslation(fmap: FeatureMap, ghost before: FMap, ibm1: Ibm1, srcWord: string, tgtWord: string)
    requires Added(fmap.entries, before, map["type:terminal" := 1.0])
    modifies fmap
    ensures Added(fmap.entries, before, TranslationFeatures(ibm1, srcWord, tgtWord))
  {
    TerminalNamesDiffer();
    var delta := map["type:terminal" := 1.0];
    AddedBump(fmap.entries, before, delta, "type:translation", 1.0);
    fmap.Increment("type:translation", 1.0);
    delta := delta["type:translation" := 1.0];
    var x2y := ibm1.logProb(Word(srcWord), Word(tgtWord));
    AddedBump(fmap.entries, before, delta, "ibm1:x2y:logprob", x2y);
    fmap.Increment("ibm1:x2y:logprob", x2y);
    delta := delta["ibm1:x2y:logprob" := x2y];
    var y2x := ibm1.logProb(Word(tgtWord), Word(srcWord));
    AddedBump(fmap.entries, before, delta, "ibm1:y2x:logprob", y2x);
    fmap.Increment("ibm1:y2x:logprob", y2x);
    delta := delta["ibm1:y2x:logprob" := y2x];
    var geometric := ibm1.geometric(Word(srcWord), Word(tgtWord));
    AddedBump(fmap.entries, before, delta, "ibm1:geometric:log", geometric);
    fmap.Increment("ibm1:geometric:log", geometric);
    delta := delta["ibm1:geometric:log" := geometric];
    var key := "trans:" + srcWord + "/" + tgtWord;
    TransKeyIsFresh(srcWord, tgtWord, delta.Keys);
    AddedBump(fmap.entries, before, delta, key, 1.0);
    fmap.Increment(key, 1.0);
  }

  // ---------------------------------------------------------------- properties

  /**
   * A binary edge always has its type, and has each of the four span flags
   * exactly when its relation holds; the relations are independent, so any
   * of them may fire together.  Every value is 1.
   */
  lemma BinaryFlagsExact(ls1: int, ls2: int, rs1: int, rs2: int)
    ensures var f := SpanFlags(ls1, ls2, rs1, rs2);
      && f.Keys <= {"type:binary", "binary:deletion_left_src_child", "binary:deletion_right_src_child",
                    "binary:monotone", "binary:inverted"}
      && "type:binary" in f
      && ("binary:deletion_left_src_child" in f <==> ls1 == ls2)
      && ("binary:deletion_right_src_child" in f <==> rs1 == rs2)
      && ("binary:monotone" in f <==> ls2 == rs1)
      && ("binary:inverted" in f <==> ls1 == rs2)
      && forall k :: k in f ==> f[k] == 1.0
  {
    BinaryNamesDiffer();
  }

  /** The flags of a binary edge are those of its tails' source spans. */
  lemma BinaryEdgeFlags(edge: Rule, fsa: Fsa, ibm1: Ibm1, eps: Symbol)
    requires |edge.rhs| == 2
    ensures EdgeFeatures(edge, fsa, ibm1, eps).Ok? <==> edge.rhs[0].Span? && edge.rhs[0].sym.Span? && edge.rhs[1].Span? && edge.rhs[1].sym.Span?
    ensures EdgeFeatures(edge, fsa, ibm1, eps).Ok? ==>
      EdgeFeatures(edge, fsa, ibm1, eps).value
        == SpanFlags(edge.rhs[0].sym.start, edge.rhs[0].sym.end, edge.rhs[1].sym.start, edge.rhs[1].sym.end)
  {}

  /**
   * A terminal edge has the terminal type and exactly one of deletion,
   * insertion and translation; an insertion carries its word and the IBM1
   * insertion value, a translation its word pair and the three IBM1 values.
   */
  lemma TerminalKindIsUnique(edge: Rule, fsa: Fsa, ibm1: Ibm1, eps: Symbol)
    requires |edge.rhs| == 1 && edge.rhs[0].IsTerminal() && EdgeFeatures(edge, fsa, ibm1, eps).Ok?
    ensures var f := EdgeFeatures(edge, fsa, ibm1, eps).value;
      && f["type:terminal"] == 1.0
      && (if "type:deletion" in f then f.Keys == {"type:terminal", "type:deletion"}
          else ("type:insertion" in f) != ("type:translation" in f))
      && ("type:deletion" in f <==> edge.rhs[0].Root() == eps)
      && ("type:insertion" in f ==> "ibm1:ins:logprob" in f && f["ins:" + GetTargetWord(edge.rhs[0]).value] == 1.0)
      && ("type:translation" in f ==>
            && "ibm1:x2y:logprob" in f && "ibm1:y2x:logprob" in f && "ibm1:geometric:log" in f
            && f["trans:" + GetSourceWord(fsa, edge.rhs[0].sym.start, edge.rhs[0].sym.end).value
                 + "/" + GetTargetWord(edge.rhs[0]).value] == 1.0)
  {
    var symbol := edge.rhs[0];
    if symbol.Root() != eps {
      var tgt := GetTargetWord(symbol).value;
      TerminalNamesDiffer();
      InsKeyIsFresh(tgt, {"type:terminal", "type:deletion", "type:insertion", "type:translation", "ibm1:ins:logprob"});
      var s := GetBispans(symbol).value.0;
      if s.0 != s.1 {
        var src := GetSourceWord(fsa, s.0, s.1).value;
        TransKeyIsFresh(src, tgt, {"type:terminal", "type:deletion", "type:insertion", "type:translation",
                                   "ibm1:x2y:logprob", "ibm1:y2x:logprob", "ibm1:geometric:log"});
      }
    }
  }
}
