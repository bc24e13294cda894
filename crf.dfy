/**
 * The edge features of the CRF model (`models/CRF.py`): the rule type of
 * every edge, and sparse word features for deletions, insertions and
 * translations, each switched on by its own flag.
 */
module CrfFeatures {
  import opened Wrappers
  import opened Hypergraph
  import opened Spans
  import opened SparseFeatures

  /** Which sparse word features are switched on. */
  datatype Sparse = Sparse(del: bool, ins: bool, trans: bool)

  // ---------------------------------------------------------------- specification

  function EdgeFeatures(edge: Rule, fsa: Fsa, eps: Symbol, sparse: Sparse): Result<FMap, FeatureError> {
    if |edge.rhs| == 2 then
      var left := GetBispans(edge.rhs[0]);
      var right := GetBispans(edge.rhs[1]);
      if left.Err? then Err(BadSpan(left.error))
      else if right.Err? then Err(BadSpan(right.error))
      else Ok(map["type:binary" := 1.0])
    else if edge.rhs == [] then Err(EmptyRhs)
    else if edge.rhs[0].IsTerminal() then TerminalFeatures(edge.rhs[0], fsa, eps, sparse)
    else Ok(map["top" := 1.0])
  }

  /**
   * A terminal edge: a deletion of the span's one source word when the
   * terminal is eps, an insertion when the source span is empty, a
   * translation otherwise; the sparse word feature only when switched on.
   */
  function TerminalFeatures(symbol: Symbol, fsa: Fsa, eps: Symbol, sparse: Sparse): Result<FMap, FeatureError>
    requires symbol.IsTerminal()
  {
    var spans := GetBispans(symbol);
    if spans.Err? then Err(BadSpan(spans.error))
    else
      var s1, s2 := spans.value.0.0, spans.value.0.1;
      if symbol.Root() == eps then
        var src := GetSourceWord(fsa, s1, s2);
        if src.Err? then Err(BadSpan(src.error))
        else
          var m := map["type:terminal" := 1.0, "type:deletion" := 1.0];
          Ok(if sparse.del then m["del:" + src.value := 1.0] else m)
      else
        var tgt := GetTargetWord(symbol).value;
        if s1 == s2 then
          var m := map["type:terminal" := 1.0, "type:insertion" := 1.0];
          Ok(if sparse.ins then m["ins:" + tgt := 1.0] else m)
        else
          var src := GetSourceWord(fsa, s1, s2);
          if src.Err? then Err(BadSpan(src.error))
          else
            var m := map["type:terminal" := 1.0, "type:translation" := 1.0];
            Ok(if sparse.trans then m["trans:" + src.value + "/" + tgt := 1.0] else m)
  }

  /** The sparse word features are none of the fixed feature names. */
  lemma SparseKeysAreFresh(src: string, tgt: string)
    ensures "del:" + src !in {"type:terminal", "type:deletion"}
    ensures "ins:" + tgt !in {"type:terminal", "type:insertion"}
    ensures "trans:" + src + "/" + tgt !in {"type:terminal", "type:translation"}
  {
    assert ("del:" + src)[0] == 'd';
    assert ("ins:" + tgt)[0] == 'i';
    assert ("trans:" + src + "/" + tgt)[1] == 'r';
  }

  // ---------------------------------------------------------------- featuriser

  /** The features of one edge, built by increments on a fresh feature map. */
  method SimpleFeatures(edge: Rule, fsa: Fsa, eps: Symbol, sparse: Sparse) returns (res: Result<FMap, FeatureError>)
    ensures res == EdgeFeatures(edge, fsa, eps, sparse)
  {
    var fmap := new FeatureMap();
    AddedNothing(fmap.entries);
    if |edge.rhs| == 2 {
      AddedBump(fmap.entries, map[], map[], "type:binary", 1.0);
      fmap.Increment("type:binary", 1.0);
      var left := GetBispans(edge.rhs[0]);
      if left.Err? {
        return Err(BadSpan(left.error));
      }
      var right := GetBispans(edge.rhs[1]);
      if right.Err? {
        return Err(BadSpan(right.error));
      }
      // The deletion, monotone and inverted tests on the source spans add nothing.
    } else {
      if |edge.rhs| == 0 {
        return Err(EmptyRhs);
      }
      var symbol := edge.rhs[0];
      if symbol.IsTerminal() {
        var err := TerminalRule(symbol, fsa, eps, sparse, fmap);
        if err.Some? {
          return Err(err.value);
        }
      } else {
        AddedBump(fmap.entries, map[], map[], "top", 1.0);
        fmap.Increment("top", 1.0);
      }
    }
    AddedToEmpty(fmap.entries, EdgeFeatures(edge, fsa, eps, sparse).value);
    return Ok(fmap.entries);
  }

  /** The terminal branch of `SimpleFeatures`, on a map that is still empty. */
  method TerminalRule(symbol: Symbol, fsa: Fsa, eps: Symbol, sparse: Sparse, fmap: FeatureMap)
    returns (err: Option<FeatureError>)
    requires symbol.IsTerminal() && fmap.entries == map[]
    modifies fmap
    ensures err.None? <==> TerminalFeatures(symbol, fsa, eps, sparse).Ok?
    ensures err.Some? ==> err.value == TerminalFeatures(symbol, fsa, eps, sparse).error
    ensures err.None? ==> Added(fmap.entries, map[], TerminalFeatures(symbol, fsa, eps, sparse).value)
  {
    AddedNothing(map[]);
    AddedBump(map[], map[], map[], "type:terminal", 1.0);
    fmap.Increment("type:terminal", 1.0);
    var delta := map["type:terminal" := 1.0];
    var spans := GetBispans(symbol);
    if spans.Err? {
      return Some(BadSpan(spans.error));
    }
    var s1, s2 := spans.value.0.0, spans.value.0.1;
    if symbol.Root() == eps {
      var srcWord := GetSourceWord(fsa, s1, s2);
      if srcWord.Err? {
        return Some(BadSpan(srcWord.error));
      }
      AddedBump(fmap.entries, map[], delta, "type:deletion", 1.0);
      fmap.Increment("type:deletion", 1.0);
      delta := delta["type:deletion" := 1.0];
      if sparse.del {
        SparseKeysAreFresh(srcWord.value, "");
        AddedBump(fmap.entries, map[], delta, "del:" + srcWord.value, 1.0);
        fmap.Increment("del:" + srcWord.value, 1.0);
      }
    } else {
      var tgtWord := GetTargetWord(symbol).value;
      if s1 == s2 {
        AddedBump(fmap.entries, map[], delta, "type:insertion", 1.0);
        fmap.Increment("type:insertion", 1.0);
        delta := delta["type:insertion" := 1.0];
        if sparse.ins {
          SparseKeysAreFresh("", tgtWord);
          AddedBump(fmap.entries, map[], delta, "ins:" + tgtWord, 1.0);
          fmap.Increment("ins:" + tgtWord, 1.0);
        }
      } else {
        var srcWord := GetSourceWord(fsa, s1, s2);
        if srcWord.Err? {
          return Some(BadSpan(srcWord.error));
        }
        AddedBump(fmap.entries, map[], delta, "type:translation", 1.0);
        fmap.Increment("type:translation", 1.0);
        delta := delta["type:translation" := 1.0];
        if sparse.trans {
          SparseKeysAreFresh(srcWord.value, tgtWord);
          AddedBump(fmap.entries, map[], delta, "trans:" + srcWord.value + "/" + tgtWord, 1.0);
          fmap.Increment("trans:" + srcWord.value + "/" + tgtWord, 1.0);
        }
      }
    }
    return None;
  }

  /**
   * The features of every edge of the forest, keyed by edge; the first edge
   * that cannot be featurised makes the whole call fail.
   */
  method FeaturizeEdges(forest: Forest, fsa: Fsa, eps: Symbol, sparse: Sparse)
    returns (res: Result<map<Rule, FMap>, FeatureError>)
    ensures res.Ok? <==> forall e :: e in forest.rules ==> EdgeFeatures(e, fsa, eps, sparse).Ok?
    ensures res.Ok? ==> res.value.Keys == set e | e in forest.rules
    ensures res.Ok? ==> forall e :: e in res.value ==> res.value[e] == EdgeFeatures(e, fsa, eps, sparse).value
    ensures res.Err? ==> exists i :: 0 <= i < |forest.rules| && EdgeFeatures(forest.rules[i], fsa, eps, sparse) == Err(res.error)
  {
    var edges := forest.rules;
    var edge2fmap: map<Rule, FMap> := map[];
    for i := 0 to |edges|
      invariant edge2fmap.Keys == set e | e in edges[..i]
      invariant forall e :: e in edge2fmap ==> EdgeFeatures(e, fsa, eps, sparse).Ok? && edge2fmap[e] == EdgeFeatures(e, fsa, eps, sparse).value
    {
      var fmap := SimpleFeatures(edges[i], fsa, eps, sparse);
      if fmap.Err? {
        return Err(fmap.error);
      }
      assert edges[..i + 1] == edges[..i] + [edges[i]];
      edge2fmap := edge2fmap[edges[i] := fmap.value];
    }
    assert edges[..|edges|] == edges;
    return Ok(edge2fmap);
  }

  // ---------------------------------------------------------------- properties

  /**
   * The sparse flags never decide whether an edge can be featurised, and
   * switching them on adds at most one feature, of value 1, to the features
   * the edge has with every flag off.
   */
  lemma FlagsOnlyAddSparseFeatures(edge: Rule, fsa: Fsa, eps: Symbol, sparse: Sparse)
    ensures EdgeFeatures(edge, fsa, eps, sparse).Ok? == EdgeFeatures(edge, fsa, eps, Sparse(false, false, false)).Ok?
    ensures EdgeFeatures(edge, fsa, eps, sparse).Ok? ==>
      var f, f0 := EdgeFeatures(edge, fsa, eps, sparse).value, EdgeFeatures(edge, fsa, eps, Sparse(false, false, false)).value;
      f == f0 || exists k :: k !in f0 && f == f0[k := 1.0]
  {
    if |edge.rhs| != 2 && edge.rhs != [] && edge.rhs[0].IsTerminal() {
      var symbol := edge.rhs[0];
      var spans := GetBispans(symbol);
      if spans.Ok? {
        var s1, s2 := spans.value.0.0, spans.value.0.1;
        var f0 := EdgeFeatures(edge, fsa, eps, Sparse(false, false, false));
        var src := GetSourceWord(fsa, s1, s2);
        if symbol.Root() == eps {
          if src.Ok? && sparse.del {
            SparseKeysAreFresh(src.value, "");
            assert "del:" + src.value !in f0.value;
          }
        } else {
          var tgt := GetTargetWord(symbol).value;
          if s1 == s2 {
            if sparse.ins {
              SparseKeysAreFresh("", tgt);
              assert "ins:" + tgt !in f0.value;
            }
          } else if src.Ok? && sparse.trans {
            SparseKeysAreFresh(src.value, tgt);
            assert "trans:" + src.value + "/" + tgt !in f0.value;
          }
        }
      }
    }
  }

  /**
   * An eps terminal always looks up its source word, so it can be featurised
   * only when its source span carries exactly one label, whether or not the
   * deletion feature is switched on.
   */
  lemma DeletionNeedsSourceWord(edge: Rule, fsa: Fsa, eps: Symbol, sparse: Sparse)
    requires |edge.rhs| == 1 && edge.rhs[0].IsTerminal() && edge.rhs[0].Root() == eps
    requires edge.rhs[0].Span? && edge.rhs[0].sym.Span?
    ensures EdgeFeatures(edge, fsa, eps, sparse).Ok? <==> |fsa.Labels(edge.rhs[0].sym.start, edge.rhs[0].sym.end)| == 1
    ensures EdgeFeatures(edge, fsa, eps, sparse).Ok? ==>
      (("del:" + fsa.Labels(edge.rhs[0].sym.start, edge.rhs[0].sym.end)[0] in EdgeFeatures(edge, fsa, eps, sparse).value)
       <==> sparse.del)
  {
    var src := fsa.Labels(edge.rhs[0].sym.start, edge.rhs[0].sym.end);
    if |src| == 1 {
      SparseKeysAreFresh(src[0], "");
    }
  }
}
