/**
 * The edge featuriser of `misc/features.py`: a rule type feature per edge
 * and a sparse word feature for insertions and translations.  The binary
 * span tests are all empty, so a binary edge yields its type alone.
 */
module Features {
  import opened Wrappers
  import opened Hypergraph
  import opened Spans
  import opened SparseFeatures

  // ---------------------------------------------------------------- specification

  /** The features of an edge, or why it cannot be featurised. */
  function EdgeFeatures(edge: Rule, fsa: Fsa, eps: Symbol): Result<FMap, FeatureError> {
    if |edge.rhs| == 2 then BinaryFeatures(edge)
    else if edge.rhs == [] then Err(EmptyRhs)
    else if edge.rhs[0].IsTerminal() then TerminalFeatures(edge.rhs[0], fsa, eps)
    else Ok(map["top" := 1.0])
  }

  /** A binary edge: its type, once both tails have bispans. */
  function BinaryFeatures(edge: Rule): Result<FMap, FeatureError>
    requires |edge.rhs| == 2
  {
    var left := GetBispans(edge.rhs[0]);
    var right := GetBispans(edge.rhs[1]);
    if left.Err? then Err(BadSpan(left.error))
    else if right.Err? then Err(BadSpan(right.error))
    else Ok(map["type:binary" := 1.0])
  }

  /**
   * A terminal edge: a deletion when the terminal is eps, an insertion when
   * its source span is empty, a translation of the span's one source word
   * otherwise.
   */
  function TerminalFeatures(symbol: Symbol, fsa: Fsa, eps: Symbol): Result<FMap, FeatureError>
    requires symbol.IsTerminal()
  {
    var spans := GetBispans(symbol);
    if spans.Err? then Err(BadSpan(spans.error))
    else if symbol.Root() == eps then Ok(map["type:terminal" := 1.0, "type:deletion" := 1.0])
    else
      var tgt := GetTargetWord(symbol).value;
      var s1, s2 := spans.value.0.0, spans.value.0.1;
      if s1 == s2 then Ok(map["type:terminal" := 1.0, "type:insertion" := 1.0, "ins:" + tgt := 1.0])
      else
        var src := GetSourceWord(fsa, s1, s2);
        if src.Err? then Err(BadSpan(src.error))
        else Ok(map["type:terminal" := 1.0, "type:translation" := 1.0, "trans:" + src.value + "/" + tgt := 1.0])
  }

  // ---------------------------------------------------------------- featuriser

  method FeaturizeEdge(edge: Rule, fsa: Fsa, eps: Symbol) returns (res: Result<FMap, FeatureError>)
    ensures res == EdgeFeatures(edge, fsa, eps)
  {
    var fmap := new FeatureMap();
    AddedNothing(fmap.entries);
    if |edge.rhs| == 2 {
      var err := FeaturizeBinaryRule(edge, fsa, fmap);
      if err.Some? {
        return Err(err.value);
      }
    } else {
      if |edge.rhs| == 0 {
        return Err(EmptyRhs);
      }
      var symbol := edge.rhs[0];
      if symbol.IsTerminal() {
        var err := FeaturizeTerminalRule(edge, fsa, fmap, eps);
        if err.Some? {
          return Err(err.value);
        }
      } else {
        FeaturizeStartRule(edge, fsa, fmap);
      }
    }
    AddedToEmpty(fmap.entries, EdgeFeatures(edge, fsa, eps).value);
    return Ok(fmap.entries);
  }

  method FeaturizeBinaryRule(rule: Rule, fsa: Fsa, fmap: FeatureMap) returns (err: Option<FeatureError>)
    requires |rule.rhs| == 2
    modifies fmap
    ensures err.None? <==> BinaryFeatures(rule).Ok?
    ensures err.Some? ==> err.value == BinaryFeatures(rule).error
    ensures err.None? ==> Added(fmap.entries, old(fmap.entries), BinaryFeatures(rule).value)
  {
    ghost var before := fmap.entries;
    AddedNothing(before);
    fmap.Increment("type:binary", 1.0);
    AddedBump(before, before, map[], "type:binary", 1.0);
    var left := GetBispans(rule.rhs[0]);
    if left.Err? {
      return Some(BadSpan(left.error));
    }
    var right := GetBispans(rule.rhs[1]);
    if right.Err? {
      return Some(BadSpan(right.error));
    }
    // The deletion, monotone and inverted tests on the source spans add nothing.
    return None;
  }

  method FeaturizeStartRule(rule: Rule, fsa: Fsa, fmap: FeatureMap)
    modifies fmap
    ensures Added(fmap.entries, old(fmap.entries), map["top" := 1.0])
  {
    AddedNothing(fmap.entries);
    AddedBump(fmap.entries, fmap.entries, map[], "top", 1.0);
    fmap.Increment("top", 1.0);
  }

  method FeaturizeTerminalRule(rule: Rule, fsa: Fsa, fmap: FeatureMap, eps: Symbol) returns (err: Option<FeatureError>)
    requires rule.rhs != [] && rule.rhs[0].IsTerminal()
    modifies fmap
    ensures err.None? <==> TerminalFeatures(rule.rhs[0], fsa, eps).Ok?
    ensures err.Some? ==> err.value == TerminalFeatures(rule.rhs[0], fsa, eps).error
    ensures err.None? ==> Added(fmap.entries, old(fmap.entries), TerminalFeatures(rule.rhs[0], fsa, eps).value)
  {
    ghost var before := fmap.entries;
    AddedNothing(before);
    AddedBump(before, before, map[], "type:terminal", 1.0);
    fmap.Increment("type:terminal", 1.0);
    ghost var delta := map["type:terminal" := 1.0];
    var symbol := rule.rhs[0];
    var spans := GetBispans(symbol);
    if spans.Err? {
      return Some(BadSpan(spans.error));
    }
    var s1, s2 := spans.value.0.0, spans.value.0.1;
    if symbol.Root() == eps {
      AddedBump(fmap.entries, before, delta, "type:deletion", 1.0);
      fmap.Increment("type:deletion", 1.0);
    } else {
      var tgtWord := GetTargetWord(symbol).value;
      if s1 == s2 {
        AddedBump(fmap.entries, before, delta, "type:insertion", 1.0);
        fmap.Increment("type:insertion", 1.0);
        delta := delta["type:insertion" := 1.0];
        InsKeyIsFresh(tgtWord);
        AddedBump(fmap.entries, before, delta, "ins:" + tgtWord, 1.0);
        fmap.Increment("ins:" + tgtWord, 1.0);
      } else {
        var srcWord := GetSourceWord(fsa, s1, s2);
        if srcWord.Err? {
          return Some(BadSpan(srcWord.error));
        }
        AddedBump(fmap.entries, before, delta, "type:translation", 1.0);
        fmap.Increment("type:translation", 1.0);
        delta := delta["type:translation" := 1.0];
        TransKeyIsFresh(srcWord.value, tgtWord);
        AddedBump(fmap.entries, before, delta, "trans:" + srcWord.value + "/" + tgtWord, 1.0);
        fmap.Increment("trans:" + srcWord.value + "/" + tgtWord, 1.0);
      }
    }
    return None;
  }

  lemma InsKeyIsFresh(tgt: string)
    ensures "ins:" + tgt !in map["type:terminal" := 1.0, "type:insertion" := 1.0]
  {
    Differ("ins:" + tgt, "type:terminal", 1);
    Differ("ins:" + tgt, "type:insertion", 1);
  }

  lemma TransKeyIsFresh(src: string, tgt: string)
    ensures "trans:" + src + "/" + tgt !in map["type:terminal" := 1.0, "type:translation" := 1.0]
  {
    Differ("trans:" + src + "/" + tgt, "type:terminal", 1);
    Differ("trans:" + src + "/" + tgt, "type:translation", 1);
  }

  // ---------------------------------------------------------------- properties

  /** Every feature an edge gets is worth exactly 1. */
  lemma EdgeFeatureValuesAreOne(edge: Rule, fsa: Fsa, eps: Symbol)
    ensures EdgeFeatures(edge, fsa, eps).Ok? ==> forall k :: k in EdgeFeatures(edge, fsa, eps).value ==> EdgeFeatures(edge, fsa, eps).value[k] == 1.0
  {}

  /**
   * A featurised terminal edge has the terminal type and exactly one of
   * deletion, insertion and translation, with the sparse word feature that
   * goes with it.
   */
  lemma TerminalKindIsUnique(edge: Rule, fsa: Fsa, eps: Symbol)
    requires |edge.rhs| == 1 && edge.rhs[0].IsTerminal() && EdgeFeatures(edge, fsa, eps).Ok?
    ensures var f := EdgeFeatures(edge, fsa, eps).value;
      && "type:terminal" in f
      && (if "type:deletion" in f then "type:insertion" !in f && "type:translation" !in f
          else ("type:insertion" in f) != ("type:translation" in f))
      && ("type:deletion" in f <==> edge.rhs[0].Root() == eps)
      && ("type:insertion" in f ==> "ins:" + GetTargetWord(edge.rhs[0]).value in f)
  {
    var symbol := edge.rhs[0];
    var f := EdgeFeatures(edge, fsa, eps).value;
    if symbol.Root() != eps {
      var tgt := GetTargetWord(symbol).value;
      InsKeyIsFresh(tgt);
      Differ("ins:" + tgt, "type:deletion", 1);
      Differ("ins:" + tgt, "type:translation", 1);
      var s := GetBispans(symbol).value.0;
      if s.0 != s.1 {
        var src := GetSourceWord(fsa, s.0, s.1).value;
        TransKeyIsFresh(src, tgt);
        Differ("trans:" + src + "/" + tgt, "type:deletion", 1);
        Differ("trans:" + src + "/" + tgt, "type:insertion", 1);
      }
    }
  }
}
