/**
 * Dynamic programming over a derivation forest visited in topological order:
 * the inside pass (log space and plain sum-product), Viterbi (max-plus with
 * back-pointers), the outside pass and the expected feature vector.
 *
 * `exp` and `log` are parameters: the model does not fix their values, only
 * how the passes combine them.  Each pass returns a table with one entry per
 * node of the order, and the table satisfies the pass's recursion at every node.
 */
module InsideOutside {
  import opened Wrappers
  import opened Hypergraph
  import opened ExtReal
  import opened FeatureVectors

  function Elems(s: seq<Symbol>): set<Symbol> {
    set x | x in s
  }

  /** A table entry; callers only read entries that exist (see `Ready`). */
  function Get(I: map<Symbol, Ext>, u: Symbol): Ext {
    if u in I then I[u] else NegInf
  }

  /** `v` is a terminal, or every tail of every rule headed at `v` is in `done`. */
  ghost predicate Ready(byLhs: map<Symbol, seq<Rule>>, done: set<Symbol>, v: Symbol) {
    v.IsTerminal() || forall r, u :: r in RulesAt(byLhs, v) && u in r.rhs ==> u in done
  }

  /** Distinct nodes, each nonterminal after all tails of its head rules. */
  ghost predicate TopologicalOrder(byLhs: map<Symbol, seq<Rule>>, tsort: seq<Symbol>) {
    && (forall i, j :: 0 <= i < j < |tsort| ==> tsort[i] != tsort[j])
    && (forall i :: 0 <= i < |tsort| ==> Ready(byLhs, Elems(tsort[..i]), tsort[i]))
  }

  /** `J` keeps every entry of `I`. */
  ghost predicate Extends<V>(I: map<Symbol, V>, J: map<Symbol, V>) {
    forall u :: u in I ==> u in J && J[u] == I[u]
  }

  // ---------------------------------------------------------------- inside (log space)

  /** `base` plus the values of the nodes of `s`, added left to right. */
  function TailSum(base: Ext, I: map<Symbol, Ext>, s: seq<Symbol>): Ext {
    if s == [] then base else Plus(TailSum(base, I, s[..|s| - 1]), Get(I, s[|s| - 1]))
  }

  lemma TailSumSingle(base: Ext, I: map<Symbol, Ext>, u: Symbol)
    ensures TailSum(base, I, [u]) == Plus(base, Get(I, u))
  {
    assert [u][..0] == [];
  }

  /** A rule's log weight plus the inside values of its tails. */
  function Score(w: Rule -> real, I: map<Symbol, Ext>, r: Rule): Ext {
    TailSum(Fin(w(r)), I, r.rhs)
  }

  /** Sum over `rs` of exp(score). */
  function SumExp(exp: Ext -> real, w: Rule -> real, I: map<Symbol, Ext>, rs: seq<Rule>): real {
    if rs == [] then 0.0 else SumExp(exp, w, I, rs[..|rs| - 1]) + exp(Score(w, I, rs[|rs| - 1]))
  }

  /** The inside recursion: log 1 = 0 at a terminal, log of the summed exp-scores of the head rules elsewhere. */
  function InsideValue(byLhs: map<Symbol, seq<Rule>>, w: Rule -> real, exp: Ext -> real, log: real -> Ext,
                       I: map<Symbol, Ext>, v: Symbol): Ext
  {
    if v.IsTerminal() then Fin(0.0) else log(SumExp(exp, w, I, RulesAt(byLhs, v)))
  }

  lemma {:induction false} TailSumFrame(base: Ext, I: map<Symbol, Ext>, J: map<Symbol, Ext>, s: seq<Symbol>)
    requires forall u :: u in s ==> u in I
    requires Extends(I, J)
    ensures TailSum(base, J, s) == TailSum(base, I, s)
  {
    if s != [] {
      TailSumFrame(base, I, J, s[..|s| - 1]);
    }
  }

  lemma {:induction false} SumExpFrame(exp: Ext -> real, w: Rule -> real, I: map<Symbol, Ext>, J: map<Symbol, Ext>, rs: seq<Rule>)
    requires forall r, u :: r in rs && u in r.rhs ==> u in I
    requires Extends(I, J)
    ensures SumExp(exp, w, J, rs) == SumExp(exp, w, I, rs)
  {
    if rs != [] {
      SumExpFrame(exp, w, I, J, rs[..|rs| - 1]);
      TailSumFrame(Fin(w(rs[|rs| - 1])), I, J, rs[|rs| - 1].rhs);
    }
  }

  lemma InsideValueFrame(byLhs: map<Symbol, seq<Rule>>, w: Rule -> real, exp: Ext -> real, log: real -> Ext,
                         I: map<Symbol, Ext>, J: map<Symbol, Ext>, v: Symbol)
    requires Ready(byLhs, I.Keys, v) && Extends(I, J)
    ensures InsideValue(byLhs, w, exp, log, J, v) == InsideValue(byLhs, w, exp, log, I, v)
  {
    if !v.IsTerminal() {
      SumExpFrame(exp, w, I, J, RulesAt(byLhs, v));
    }
  }

  /**
   * `I` holds the inside values of `tsort`: an entry for each of its nodes, and
   * each entry satisfies the inside recursion over the table itself.
   */
  ghost predicate InsideSolved(byLhs: map<Symbol, seq<Rule>>, w: Rule -> real, exp: Ext -> real, log: real -> Ext,
                               tsort: seq<Symbol>, I: map<Symbol, Ext>)
  {
    && I.Keys == Elems(tsort)
    && (forall v :: v in I ==> Ready(byLhs, I.Keys, v))
    && (forall v :: v in I ==> I[v] == InsideValue(byLhs, w, exp, log, I, v))
  }

  /** The score of `rule` computed the way the inner loop does, one tail at a time. */
  method ComputeScore(w: Rule -> real, I: map<Symbol, Ext>, rule: Rule) returns (inner: Ext)
    requires forall u :: u in rule.rhs ==> u in I
    ensures inner == Score(w, I, rule)
  {
    inner := Fin(w(rule));
    for j := 0 to |rule.rhs|
      invariant inner == TailSum(Fin(w(rule)), I, rule.rhs[..j])
    {
      assert rule.rhs[..j + 1][..j] == rule.rhs[..j];
      inner := Plus(inner, I[rule.rhs[j]]);
    }
    assert rule.rhs[..|rule.rhs|] == rule.rhs;
  }

  /**
   * Log-space inside pass.  Every node of `tsort` gets an entry, and each entry
   * satisfies the inside recursion over the returned table itself.
   */
  method Inside(forest: Forest, tsort: seq<Symbol>, w: Rule -> real, exp: Ext -> real, log: real -> Ext)
    returns (I: map<Symbol, Ext>)
    requires TopologicalOrder(forest.rulesByLhs, tsort)
    ensures InsideSolved(forest.rulesByLhs, w, exp, log, tsort, I)
  {
    var byLhs := forest.rulesByLhs;
    I := map[];
    for i := 0 to |tsort|
      invariant I.Keys == Elems(tsort[..i])
      invariant forall v :: v in I ==> Ready(byLhs, I.Keys, v)
      invariant forall v :: v in I ==> I[v] == InsideValue(byLhs, w, exp, log, I, v)
    {
      var node := tsort[i];
      assert tsort[..i + 1] == tsort[..i] + [node];
      assert Ready(byLhs, I.Keys, node);
      var value: Ext;
      if node.IsTerminal() {
        value := Fin(0.0);
      } else {
        var rules := RulesAt(byLhs, node);
        var temp := 0.0;
        for k := 0 to |rules|
          invariant temp == SumExp(exp, w, I, rules[..k])
        {
          assert rules[..k + 1][..k] == rules[..k];
          var inner := ComputeScore(w, I, rules[k]);
          temp := temp + exp(inner);
        }
        assert rules[..|rules|] == rules;
        value := log(temp);
      }
      var J := I[node := value];
      forall v | v in J
        ensures Ready(byLhs, J.Keys, v) && J[v] == InsideValue(byLhs, w, exp, log, J, v)
      {
        InsideValueFrame(byLhs, w, exp, log, I, J, v);
      }
      I := J;
    }
    assert tsort[..|tsort|] == tsort;
  }

  // ---------------------------------------------------------------- inside (plain sum-product)

  function GetReal(I: map<Symbol, real>, u: Symbol): real {
    if u in I then I[u] else 0.0
  }

  /** `base` times the values of the nodes of `s`, multiplied left to right. */
  function TailProduct(base: real, I: map<Symbol, real>, s: seq<Symbol>): real {
    if s == [] then base else TailProduct(base, I, s[..|s| - 1]) * GetReal(I, s[|s| - 1])
  }

  /** Sum over `rs` of exp(weight) times the product of the tails' values. */
  function SumProduct(exp: real -> real, w: Rule -> real, I: map<Symbol, real>, rs: seq<Rule>): real {
    if rs == [] then 0.0
    else SumProduct(exp, w, I, rs[..|rs| - 1]) + TailProduct(exp(w(rs[|rs| - 1])), I, rs[|rs| - 1].rhs)
  }

  function PlainInsideValue(byLhs: map<Symbol, seq<Rule>>, w: Rule -> real, exp: real -> real,
                            I: map<Symbol, real>, v: Symbol): real
  {
    if v.IsTerminal() then 1.0 else SumProduct(exp, w, I, RulesAt(byLhs, v))
  }

  lemma {:induction false} TailProductFrame(base: real, I: map<Symbol, real>, J: map<Symbol, real>, s: seq<Symbol>)
    requires forall u :: u in s ==> u in I
    requires Extends(I, J)
    ensures TailProduct(base, J, s) == TailProduct(base, I, s)
  {
    if s != [] {
      TailProductFrame(base, I, J, s[..|s| - 1]);
    }
  }

  lemma {:induction false} SumProductFrame(exp: real -> real, w: Rule -> real, I: map<Symbol, real>, J: map<Symbol, real>, rs: seq<Rule>)
    requires forall r, u :: r in rs && u in r.rhs ==> u in I
    requires Extends(I, J)
    ensures SumProduct(exp, w, J, rs) == SumProduct(exp, w, I, rs)
  {
    if rs != [] {
      SumProductFrame(exp, w, I, J, rs[..|rs| - 1]);
      TailProductFrame(exp(w(rs[|rs| - 1])), I, J, rs[|rs| - 1].rhs);
    }
  }

  lemma PlainInsideValueFrame(byLhs: map<Symbol, seq<Rule>>, w: Rule -> real, exp: real -> real,
                              I: map<Symbol, real>, J: map<Symbol, real>, v: Symbol)
    requires Ready(byLhs, I.Keys, v) && Extends(I, J)
    ensures Ready(byLhs, J.Keys, v)
    ensures PlainInsideValue(byLhs, w, exp, J, v) == PlainInsideValue(byLhs, w, exp, I, v)
  {
    if !v.IsTerminal() {
      SumProductFrame(exp, w, I, J, RulesAt(byLhs, v));
    }
  }

  /** A product of non-negative factors is non-negative. */
  lemma {:induction false} TailProductNonNegative(base: real, I: map<Symbol, real>, s: seq<Symbol>)
    requires base >= 0.0
    requires forall u :: u in s ==> GetReal(I, u) >= 0.0
    ensures TailProduct(base, I, s) >= 0.0
  {
    if s != [] {
      TailProductNonNegative(base, I, s[..|s| - 1]);
      var p := TailProduct(base, I, s[..|s| - 1]);
      var x := GetReal(I, s[|s| - 1]);
      assert p * x >= 0.0;
    }
  }

  lemma {:induction false} SumProductNonNegative(exp: real -> real, w: Rule -> real, I: map<Symbol, real>, rs: seq<Rule>)
    requires forall x :: exp(x) >= 0.0
    requires forall r, u :: r in rs && u in r.rhs ==> GetReal(I, u) >= 0.0
    ensures SumProduct(exp, w, I, rs) >= 0.0
  {
    if rs != [] {
      SumProductNonNegative(exp, w, I, rs[..|rs| - 1]);
      TailProductNonNegative(exp(w(rs[|rs| - 1])), I, rs[|rs| - 1].rhs);
    }
  }

  /** exp(weight) of `rule` times its tails' values, multiplied the way the inner loop does. */
  method ComputeProduct(w: Rule -> real, exp: real -> real, I: map<Symbol, real>, rule: Rule) returns (innerProd: real)
    requires forall u :: u in rule.rhs ==> u in I
    ensures innerProd == TailProduct(exp(w(rule)), I, rule.rhs)
  {
    innerProd := exp(w(rule));
    for j := 0 to |rule.rhs|
      invariant innerProd == TailProduct(exp(w(rule)), I, rule.rhs[..j])
    {
      assert rule.rhs[..j + 1][..j] == rule.rhs[..j];
      innerProd := innerProd * I[rule.rhs[j]];
    }
    assert rule.rhs[..|rule.rhs|] == rule.rhs;
  }

  /**
   * Plain (probability-space) inside pass: 1 at terminals, the sum over head
   * rules of exp(weight) times the tails' values elsewhere.  When every rule
   * factor exp(w) is non-negative, so is every entry.
   */
  method InsideNormal(forest: Forest, tsort: seq<Symbol>, w: Rule -> real, exp: real -> real)
    returns (I: map<Symbol, real>)
    requires TopologicalOrder(forest.rulesByLhs, tsort)
    ensures I.Keys == Elems(tsort)
    ensures forall v :: v in I ==> Ready(forest.rulesByLhs, I.Keys, v)
    ensures forall v :: v in I ==> I[v] == PlainInsideValue(forest.rulesByLhs, w, exp, I, v)
    ensures (forall x :: exp(x) >= 0.0) ==> forall v :: v in I ==> I[v] >= 0.0
  {
    var byLhs := forest.rulesByLhs;
    I := map[];
    for i := 0 to |tsort|
      invariant I.Keys == Elems(tsort[..i])
      invariant forall v :: v in I ==> Ready(byLhs, I.Keys, v)
      invariant forall v :: v in I ==> I[v] == PlainInsideValue(byLhs, w, exp, I, v)
      invariant (forall x :: exp(x) >= 0.0) ==> forall v :: v in I ==> I[v] >= 0.0
    {
      var node := tsort[i];
      assert tsort[..i + 1] == tsort[..i] + [node];
      assert Ready(byLhs, I.Keys, node);
      var value: real;
      if node.IsTerminal() {
        value := 1.0;
      } else {
        var rules := RulesAt(byLhs, node);
        value := 0.0;
        for k := 0 to |rules|
          invariant value == SumProduct(exp, w, I, rules[..k])
        {
          assert rules[..k + 1][..k] == rules[..k];
          var innerProd := ComputeProduct(w, exp, I, rules[k]);
          value := value + innerProd;
        }
        assert rules[..|rules|] == rules;
        if forall x :: exp(x) >= 0.0 {
          SumProductNonNegative(exp, w, I, rules);
        }
      }
      var J := I[node := value];
      forall v | v in J
        ensures Ready(byLhs, J.Keys, v) && J[v] == PlainInsideValue(byLhs, w, exp, J, v)
      {
        PlainInsideValueFrame(byLhs, w, exp, I, J, v);
      }
      I := J;
    }
    assert tsort[..|tsort|] == tsort;
  }

  // ---------------------------------------------------------------- Viterbi (max-plus)

  /** The running maximum of the rule loop and the rule that set it (None while still -inf). */
  datatype Best = Best(score: Ext, arg: Option<Rule>)

  /** Folds `rs` left to right, replacing the best only on a strictly greater score. */
  function BestOf(w: Rule -> real, I: map<Symbol, Ext>, rs: seq<Rule>): Best {
    if rs == [] then Best(NegInf, None)
    else
      var b := BestOf(w, I, rs[..|rs| - 1]);
      var s := Score(w, I, rs[|rs| - 1]);
      if Greater(s, b.score) then Best(s, Some(rs[|rs| - 1])) else b
  }

  /**
   * The fold finds the maximum score, and the back-pointer is the FIRST rule
   * attaining it: every earlier rule scores strictly less.  The back-pointer is
   * None exactly when every rule scores -inf (or there are no rules).
   */
  lemma BestOfIsFirstMaximum(w: Rule -> real, I: map<Symbol, Ext>, rs: seq<Rule>)
    ensures forall r :: r in rs ==> !Greater(Score(w, I, r), BestOf(w, I, rs).score)
    ensures BestOf(w, I, rs).arg.None? <==> BestOf(w, I, rs).score == NegInf
    ensures BestOf(w, I, rs).arg.Some? ==>
      exists k :: 0 <= k < |rs| && rs[k] == BestOf(w, I, rs).arg.value
        && Score(w, I, rs[k]) == BestOf(w, I, rs).score
        && forall j :: 0 <= j < k ==> Greater(BestOf(w, I, rs).score, Score(w, I, rs[j]))
  {
    BestOfIsUpperBound(w, I, rs);
    BestOfNoneIffNegInf(w, I, rs);
    BestOfFirstAttains(w, I, rs);
  }

  /** No rule scores strictly above the fold's result. */
  lemma {:induction false} BestOfIsUpperBound(w: Rule -> real, I: map<Symbol, Ext>, rs: seq<Rule>)
    ensures forall r :: r in rs ==> !Greater(Score(w, I, r), BestOf(w, I, rs).score)
  {
    if rs != [] {
      var init, last := rs[..|rs| - 1], rs[|rs| - 1];
      BestOfIsUpperBound(w, I, init);
      LastSplit(rs);
      var b := BestOf(w, I, init);
      var s := Score(w, I, last);
      if Greater(s, b.score) {
        forall r | r in init ensures !Greater(Score(w, I, r), s) {
          GreaterIsStrictTotalOrder(Score(w, I, r), b.score, s);
        }
      }
      GreaterIsStrictTotalOrder(s, b.score, s);
    }
  }

  lemma {:induction false} BestOfNoneIffNegInf(w: Rule -> real, I: map<Symbol, Ext>, rs: seq<Rule>)
    ensures BestOf(w, I, rs).arg.None? <==> BestOf(w, I, rs).score == NegInf
  {
    if rs != [] {
      BestOfNoneIffNegInf(w, I, rs[..|rs| - 1]);
    }
  }

  /** A back-pointer names the first rule attaining the best score. */
  lemma {:induction false} BestOfFirstAttains(w: Rule -> real, I: map<Symbol, Ext>, rs: seq<Rule>)
    ensures BestOf(w, I, rs).arg.Some? ==>
      exists k :: 0 <= k < |rs| && rs[k] == BestOf(w, I, rs).arg.value
        && Score(w, I, rs[k]) == BestOf(w, I, rs).score
        && forall j :: 0 <= j < k ==> Greater(BestOf(w, I, rs).score, Score(w, I, rs[j]))
  {
    if rs != [] {
      var init, last := rs[..|rs| - 1], rs[|rs| - 1];
      var b := BestOf(w, I, init);
      var s := Score(w, I, last);
      if Greater(s, b.score) {
        assert BestOf(w, I, rs) == Best(s, Some(last));
        BestOfIsUpperBound(w, I, init);
        forall j | 0 <= j < |rs| - 1
          ensures Greater(s, Score(w, I, rs[j]))
        {
          assert rs[j] in init;
          GreaterIsStrictTotalOrder(s, b.score, Score(w, I, rs[j]));
        }
        var k := |rs| - 1;
        assert rs[k] == last;
      } else {
        assert BestOf(w, I, rs) == b;
        BestOfFirstAttains(w, I, init);
        if b.arg.Some? {
          var k :| 0 <= k < |init| && init[k] == b.arg.value && Score(w, I, init[k]) == b.score
            && forall j :: 0 <= j < k ==> Greater(b.score, Score(w, I, init[j]));
          assert rs[k] == init[k];
          assert forall j :: 0 <= j < k ==> rs[j] == init[j];
        }
      }
    }
  }

  function ViterbiValue(byLhs: map<Symbol, seq<Rule>>, w: Rule -> real, I: map<Symbol, Ext>, v: Symbol): Ext {
    if v.IsTerminal() then Fin(0.0) else BestOf(w, I, RulesAt(byLhs, v)).score
  }

  lemma {:induction false} BestOfFrame(w: Rule -> real, I: map<Symbol, Ext>, J: map<Symbol, Ext>, rs: seq<Rule>)
    requires forall r, u :: r in rs && u in r.rhs ==> u in I
    requires Extends(I, J)
    ensures BestOf(w, J, rs) == BestOf(w, I, rs)
  {
    if rs != [] {
      BestOfFrame(w, I, J, rs[..|rs| - 1]);
      TailSumFrame(Fin(w(rs[|rs| - 1])), I, J, rs[|rs| - 1].rhs);
    }
  }

  lemma ViterbiNodeFrame(byLhs: map<Symbol, seq<Rule>>, w: Rule -> real, I: map<Symbol, Ext>, J: map<Symbol, Ext>, v: Symbol)
    requires Ready(byLhs, I.Keys, v) && Extends(I, J)
    ensures Ready(byLhs, J.Keys, v)
    ensures ViterbiValue(byLhs, w, J, v) == ViterbiValue(byLhs, w, I, v)
    ensures !v.IsTerminal() ==> BestOf(w, J, RulesAt(byLhs, v)) == BestOf(w, I, RulesAt(byLhs, v))
  {
    if !v.IsTerminal() {
      BestOfFrame(w, I, J, RulesAt(byLhs, v));
    }
  }

  /** The strict-improvement loop over the head rules of one node. */
  method BestRule(w: Rule -> real, I: map<Symbol, Ext>, rules: seq<Rule>) returns (tempMax: Ext, tempArgMax: Option<Rule>)
    requires forall r, u :: r in rules && u in r.rhs ==> u in I
    ensures Best(tempMax, tempArgMax) == BestOf(w, I, rules)
  {
    tempMax, tempArgMax := NegInf, None;
    for k := 0 to |rules|
      invariant Best(tempMax, tempArgMax) == BestOf(w, I, rules[..k])
    {
      assert rules[..k + 1][..k] == rules[..k];
      var innerSum := ComputeScore(w, I, rules[k]);
      if Greater(innerSum, tempMax) {
        tempMax, tempArgMax := innerSum, Some(rules[k]);
      }
    }
    assert rules[..|rules|] == rules;
  }

  /**
   * Max-plus pass with back-pointers: 0 at terminals, the best head-rule score
   * elsewhere; every nonterminal of the order gets a back-pointer.
   */
  method Viterbi(forest: Forest, tsort: seq<Symbol>, w: Rule -> real)
    returns (I: map<Symbol, Ext>, back: map<Symbol, Option<Rule>>)
    requires TopologicalOrder(forest.rulesByLhs, tsort)
    ensures I.Keys == Elems(tsort)
    ensures ViterbiSolved(forest.rulesByLhs, w, I, back)
  {
    var byLhs := forest.rulesByLhs;
    I, back := map[], map[];
    for i := 0 to |tsort|
      invariant I.Keys == Elems(tsort[..i])
      invariant ViterbiSolved(byLhs, w, I, back)
    {
      var node := tsort[i];
      assert tsort[..i + 1] == tsort[..i] + [node];
      assert Ready(byLhs, I.Keys, node);
      if node.IsTerminal() {
        ViterbiExtend(byLhs, w, I, back, node, Fin(0.0), None);
        I := I[node := Fin(0.0)];
      } else {
        var tempMax, tempArgMax := BestRule(w, I, RulesAt(byLhs, node));
        ViterbiExtend(byLhs, w, I, back, node, tempMax, tempArgMax);
        I := I[node := tempMax];
        back := back[node := tempArgMax];
      }
    }
    assert tsort[..|tsort|] == tsort;
  }

  /**
   * The Viterbi tables are solved: back-pointers exactly at the nonterminals
   * of the score table, each node's tails scored before it, each score the
   * max-plus value and each back-pointer the rule the fold keeps.
   */
  ghost predicate ViterbiSolved(byLhs: map<Symbol, seq<Rule>>, w: Rule -> real,
                                I: map<Symbol, Ext>, back: map<Symbol, Option<Rule>>)
  {
    && (forall v :: v in back <==> v in I && !v.IsTerminal())
    && (forall v :: v in I ==> Ready(byLhs, I.Keys, v) && I[v] == ViterbiValue(byLhs, w, I, v))
    && (forall v :: v in back ==> back[v] == BestOf(w, I, RulesAt(byLhs, v)).arg)
  }

  lemma ViterbiExtend(byLhs: map<Symbol, seq<Rule>>, w: Rule -> real, I: map<Symbol, Ext>,
                      back: map<Symbol, Option<Rule>>, node: Symbol, score: Ext, arg: Option<Rule>)
    requires ViterbiSolved(byLhs, w, I, back) && node !in I && Ready(byLhs, I.Keys, node)
    requires score == ViterbiValue(byLhs, w, I, node)
    requires !node.IsTerminal() ==> arg == BestOf(w, I, RulesAt(byLhs, node)).arg
    ensures ViterbiSolved(byLhs, w, I[node := score], if node.IsTerminal() then back else back[node := arg])
  {
    var J := I[node := score];
    var back' := if node.IsTerminal() then back else back[node := arg];
    assert Extends(I, J);
    forall v | v in J
      ensures Ready(byLhs, J.Keys, v) && J[v] == ViterbiValue(byLhs, w, J, v)
      ensures v in back' ==> back'[v] == BestOf(w, J, RulesAt(byLhs, v)).arg
    {
      ViterbiNodeFrame(byLhs, w, I, J, v);
      if v == node {
        assert J[v] == score;
      } else {
        assert v in I && J[v] == I[v];
        assert v in back' ==> back'[v] == back[v];
      }
    }
    assert forall v :: v in back' <==> v in J && !v.IsTerminal();
  }

  /**
   * What the Viterbi tables mean at every nonterminal: without head rules the
   * entry is -inf and the back-pointer None; no head rule scores above the
   * node's entry; the back-pointer is None exactly when the entry is
   * -inf; otherwise it is the first head rule attaining the entry.
   */
  lemma ViterbiTablesAreMaxPlus(byLhs: map<Symbol, seq<Rule>>, w: Rule -> real,
                                I: map<Symbol, Ext>, back: map<Symbol, Option<Rule>>, v: Symbol)
    requires ViterbiSolved(byLhs, w, I, back) && v in back
    ensures RulesAt(byLhs, v) == [] ==> I[v] == NegInf && back[v] == None
    ensures forall r :: r in RulesAt(byLhs, v) ==> !Greater(Score(w, I, r), I[v])
    ensures back[v].None? <==> I[v] == NegInf
    ensures back[v].Some? ==>
      exists k :: 0 <= k < |RulesAt(byLhs, v)| && RulesAt(byLhs, v)[k] == back[v].value
        && Score(w, I, RulesAt(byLhs, v)[k]) == I[v]
        && forall j :: 0 <= j < k ==> Greater(I[v], Score(w, I, RulesAt(byLhs, v)[j]))
  {
    BestOfIsFirstMaximum(w, I, RulesAt(byLhs, v));
  }

  // ---------------------------------------------------------------- outside

  /** `base` plus the inside values of the nodes of `s`, skipping every occurrence of `node`. */
  function OutScore(base: Ext, inside: map<Symbol, Ext>, node: Symbol, s: seq<Symbol>): Ext {
    if s == [] then base
    else
      var prev := OutScore(base, inside, node, s[..|s| - 1]);
      if s[|s| - 1] == node then prev else Plus(prev, Get(inside, s[|s| - 1]))
  }

  /** Sum over the rules `rs` having `node` as a tail of exp(outside(head) + weight + inside of the other tails). */
  function OutSum(exp: Ext -> real, w: Rule -> real, inside: map<Symbol, Ext>, O: map<Symbol, Ext>,
                  node: Symbol, rs: seq<Rule>): real
  {
    if rs == [] then 0.0
    else
      var r := rs[|rs| - 1];
      OutSum(exp, w, inside, O, node, rs[..|rs| - 1]) + exp(OutScore(Plus(Get(O, r.lhs), Fin(w(r))), inside, node, r.rhs))
  }

  /** The outside recursion at a node other than the root. */
  function OutsideValue(byRhs: map<Symbol, seq<Rule>>, w: Rule -> real, exp: Ext -> real, log: real -> Ext,
                        inside: map<Symbol, Ext>, O: map<Symbol, Ext>, v: Symbol): Ext
  {
    log(OutSum(exp, w, inside, O, v, RulesAt(byRhs, v)))
  }

  /** Every rule with tail `v` has its head in `done` and its other tails in the inside table. */
  ghost predicate OutsideReady(byRhs: map<Symbol, seq<Rule>>, inside: map<Symbol, Ext>, done: set<Symbol>, v: Symbol) {
    forall r :: r in RulesAt(byRhs, v) ==> r.lhs in done && forall u :: u in r.rhs && u != v ==> u in inside
  }

  /** Distinct nodes; read backwards, each node after the heads of the rules it is a tail of. */
  ghost predicate OutsideOrder(byRhs: map<Symbol, seq<Rule>>, inside: map<Symbol, Ext>, tsort: seq<Symbol>) {
    && (forall i, j :: 0 <= i < j < |tsort| ==> tsort[i] != tsort[j])
    && (forall i :: 0 <= i < |tsort| - 1 ==> OutsideReady(byRhs, inside, Elems(tsort[i + 1..]), tsort[i]))
  }

  lemma {:induction false} OutSumFrame(exp: Ext -> real, w: Rule -> real, inside: map<Symbol, Ext>,
                                       O: map<Symbol, Ext>, J: map<Symbol, Ext>, node: Symbol, rs: seq<Rule>)
    requires forall r :: r in rs ==> r.lhs in O
    requires Extends(O, J)
    ensures OutSum(exp, w, inside, J, node, rs) == OutSum(exp, w, inside, O, node, rs)
  {
    if rs != [] {
      OutSumFrame(exp, w, inside, O, J, node, rs[..|rs| - 1]);
    }
  }

  /** The inner loop of the outside pass for one rule. */
  method ComputeOutScore(w: Rule -> real, inside: map<Symbol, Ext>, O: map<Symbol, Ext>, node: Symbol, rule: Rule)
    returns (innerSum: Ext)
    requires rule.lhs in O
    requires forall u :: u in rule.rhs && u != node ==> u in inside
    ensures innerSum == OutScore(Plus(Get(O, rule.lhs), Fin(w(rule))), inside, node, rule.rhs)
  {
    var base := Plus(O[rule.lhs], Fin(w(rule)));
    innerSum := base;
    for j := 0 to |rule.rhs|
      invariant innerSum == OutScore(base, inside, node, rule.rhs[..j])
    {
      assert rule.rhs[..j + 1][..j] == rule.rhs[..j];
      var rhsNode := rule.rhs[j];
      if rhsNode != node {
        innerSum := Plus(innerSum, inside[rhsNode]);
      }
    }
    assert rule.rhs[..|rule.rhs|] == rule.rhs;
  }

  /**
   * `O` holds the outside values of `tsort[lo..]`: an entry for each of these
   * nodes, log 1 = 0 at the last one (the root), and the outside recursion at
   * every other one.
   */
  ghost predicate OutsideSolved(byRhs: map<Symbol, seq<Rule>>, w: Rule -> real, exp: Ext -> real, log: real -> Ext,
                                inside: map<Symbol, Ext>, tsort: seq<Symbol>, lo: nat, O: map<Symbol, Ext>)
  {
    && lo <= |tsort|
    && O.Keys == Elems(tsort[lo..])
    && (lo < |tsort| ==> tsort[|tsort| - 1] in O && O[tsort[|tsort| - 1]] == Fin(0.0))
    && forall j :: lo <= j < |tsort| - 1 ==>
      && OutsideReady(byRhs, inside, O.Keys, tsort[j])
      && tsort[j] in O && O[tsort[j]] == OutsideValue(byRhs, w, exp, log, inside, O, tsort[j])
  }

  lemma ElemsCons(tsort: seq<Symbol>, i: nat)
    requires i < |tsort|
    requires forall a, b :: 0 <= a < b < |tsort| ==> tsort[a] != tsort[b]
    ensures Elems(tsort[i..]) == Elems(tsort[i + 1..]) + {tsort[i]}
    ensures tsort[i] !in Elems(tsort[i + 1..])
  {
    assert tsort[i..] == [tsort[i]] + tsort[i + 1..];
    forall k | i < k < |tsort| ensures tsort[k] != tsort[i] { }
  }

  /** Adding the entry of `tsort[i]`, computed from the entries of the later nodes, solves one more node. */
  lemma OutsideExtend(byRhs: map<Symbol, seq<Rule>>, w: Rule -> real, exp: Ext -> real, log: real -> Ext,
                      inside: map<Symbol, Ext>, O: map<Symbol, Ext>, tsort: seq<Symbol>, i: nat, value: Ext)
    requires i < |tsort| && OutsideSolved(byRhs, w, exp, log, inside, tsort, i + 1, O)
    requires forall a, b :: 0 <= a < b < |tsort| ==> tsort[a] != tsort[b]
    requires i == |tsort| - 1 ==> value == Fin(0.0)
    requires i < |tsort| - 1 ==>
      (OutsideReady(byRhs, inside, O.Keys, tsort[i]) && value == OutsideValue(byRhs, w, exp, log, inside, O, tsort[i]))
    ensures OutsideSolved(byRhs, w, exp, log, inside, tsort, i, O[tsort[i] := value])
  {
    ElemsCons(tsort, i);
    var J := O[tsort[i] := value];
    forall j | i <= j < |tsort| - 1
      ensures OutsideReady(byRhs, inside, J.Keys, tsort[j])
      ensures J[tsort[j]] == OutsideValue(byRhs, w, exp, log, inside, J, tsort[j])
    {
      OutsideNodeFrame(byRhs, w, exp, log, inside, O, J, tsort[j]);
    }
  }

  lemma OutsideNodeFrame(byRhs: map<Symbol, seq<Rule>>, w: Rule -> real, exp: Ext -> real, log: real -> Ext,
                         inside: map<Symbol, Ext>, O: map<Symbol, Ext>, J: map<Symbol, Ext>, v: Symbol)
    requires OutsideReady(byRhs, inside, O.Keys, v) && Extends(O, J)
    ensures OutsideReady(byRhs, inside, J.Keys, v)
    ensures OutsideValue(byRhs, w, exp, log, inside, J, v) == OutsideValue(byRhs, w, exp, log, inside, O, v)
  {
    OutSumFrame(exp, w, inside, O, J, v, RulesAt(byRhs, v));
  }

  /** The rule loop of the outside pass for one node. */
  method SumOutScores(w: Rule -> real, exp: Ext -> real, inside: map<Symbol, Ext>, O: map<Symbol, Ext>,
                      node: Symbol, rules: seq<Rule>)
    returns (temp: real)
    requires forall r :: r in rules ==> r.lhs in O && forall u :: u in r.rhs && u != node ==> u in inside
    ensures temp == OutSum(exp, w, inside, O, node, rules)
  {
    temp := 0.0;
    for k := 0 to |rules|
      invariant temp == OutSum(exp, w, inside, O, node, rules[..k])
    {
      assert rules[..k + 1][..k] == rules[..k];
      var innerSum := ComputeOutScore(w, inside, O, node, rules[k]);
      temp := temp + exp(innerSum);
    }
    assert rules[..|rules|] == rules;
  }

  /** The outside value of one node other than the root, from the entries of the heads above it. */
  method OutsideNode(byRhs: map<Symbol, seq<Rule>>, w: Rule -> real, exp: Ext -> real, log: real -> Ext,
                     inside: map<Symbol, Ext>, O: map<Symbol, Ext>, node: Symbol)
    returns (value: Ext)
    requires node in byRhs && OutsideReady(byRhs, inside, O.Keys, node)
    ensures value == OutsideValue(byRhs, w, exp, log, inside, O, node)
  {
    var temp := SumOutScores(w, exp, inside, O, node, byRhs[node]);
    value := log(temp);
  }

  /** Every node of `tsort[lo..]` except the last has a by-tail entry. */
  ghost predicate IndexedFrom(byRhs: map<Symbol, seq<Rule>>, tsort: seq<Symbol>, lo: nat) {
    forall j :: lo <= j < |tsort| - 1 ==> tsort[j] in byRhs
  }

  /**
   * Outside pass over the reversed order.  The last node of `tsort` (the
   * root) gets log 1 = 0.  Every other node must have a by-tail entry: the
   * first one met without one (the largest such index) is the error.
   * Otherwise every node gets an entry satisfying the outside recursion.
   */
  method Outside(forest: Forest, tsort: seq<Symbol>, w: Rule -> real, exp: Ext -> real, log: real -> Ext,
                 inside: map<Symbol, Ext>)
    returns (res: Result<map<Symbol, Ext>, Symbol>)
    requires OutsideOrder(forest.rulesByRhs, inside, tsort)
    ensures res.Ok? <==> IndexedFrom(forest.rulesByRhs, tsort, 0)
    ensures res.Err? ==>
      exists i :: 0 <= i < |tsort| - 1 && tsort[i] == res.error && res.error !in forest.rulesByRhs
        && IndexedFrom(forest.rulesByRhs, tsort, i + 1)
    ensures res.Ok? ==> OutsideSolved(forest.rulesByRhs, w, exp, log, inside, tsort, 0, res.value)
  {
    var byRhs := forest.rulesByRhs;
    var n := |tsort|;
    var O: map<Symbol, Ext> := map[];
    var i := n;
    assert tsort[n..] == [];
    while i > 0
      invariant 0 <= i <= n
      invariant OutsideSolved(byRhs, w, exp, log, inside, tsort, i, O)
      invariant IndexedFrom(byRhs, tsort, i)
    {
      i := i - 1;
      var node := tsort[i];
      var value: Ext;
      if i == n - 1 {
        value := Fin(0.0);
      } else {
        if node !in byRhs {
          return Err(node);
        }
        value := OutsideNode(byRhs, w, exp, log, inside, O, node);
      }
      OutsideExtend(byRhs, w, exp, log, inside, O, tsort, i, value);
      O := O[node := value];
    }
    res := Ok(O);
  }

  // ---------------------------------------------------------------- expected feature vector

  /** outside(head) + sum of inside(tails): the factor the expected-feature loop gives each edge. */
  function EdgeFactor(inside: map<Symbol, Ext>, outside: map<Symbol, Ext>, r: Rule): Ext {
    TailSum(Get(outside, r.lhs), inside, r.rhs)
  }

  /** The expected-feature sum as written: sum over rules of EdgeFactor times the feature's value. */
  function Expected(inside: map<Symbol, Ext>, outside: map<Symbol, Ext>, features: Rule -> map<string, real>,
                    rules: seq<Rule>, f: string): Float
  {
    if rules == [] then Zero
    else
      var r := rules[|rules| - 1];
      Add(Expected(inside, outside, features, rules[..|rules| - 1], f), Contribution(EdgeFactor(inside, outside, r), features(r), f))
  }

  /** The names of the features of the edges `rules`. */
  function FeatureNames(features: Rule -> map<string, real>, rules: seq<Rule>): set<string> {
    if rules == [] then {} else FeatureNames(features, rules[..|rules| - 1]) + features(rules[|rules| - 1]).Keys
  }

  lemma {:induction false} FeatureNamesMembers(features: Rule -> map<string, real>, rules: seq<Rule>)
    ensures forall f :: f in FeatureNames(features, rules) <==> exists r :: r in rules && f in features(r)
  {
    if rules != [] {
      var init, last := rules[..|rules| - 1], rules[|rules| - 1];
      FeatureNamesMembers(features, init);
      LastSplit(rules);
      forall f | f in FeatureNames(features, rules) ensures exists r :: r in rules && f in features(r) {
        if f in features(last) {
          assert last in rules;
        } else {
          assert f in FeatureNames(features, init);
          var r :| r in init && f in features(r);
          assert r in rules;
        }
      }
    }
  }

  /** outside(head) plus the inside values of the tails, one tail at a time. */
  method ComputeEdgeFactor(inside: map<Symbol, Ext>, outside: map<Symbol, Ext>, rule: Rule) returns (k: Ext)
    requires rule.lhs in outside
    requires forall u :: u in rule.rhs ==> u in inside
    ensures k == EdgeFactor(inside, outside, rule)
  {
    k := outside[rule.lhs];
    for j := 0 to |rule.rhs|
      invariant k == TailSum(Get(outside, rule.lhs), inside, rule.rhs[..j])
    {
      assert rule.rhs[..j + 1][..j] == rule.rhs[..j];
      k := Plus(k, inside[rule.rhs[j]]);
    }
    assert rule.rhs[..|rule.rhs|] == rule.rhs;
  }

  /**
   * The expected feature vector as the source computes it: its keys are
   * exactly the features of the forest's edges, and each entry is the sum over
   * edges of (outside(head) + inside(tails)) times the feature's value, with
   * Python's -inf and nan where a factor is -inf.
   */
  method ExpectedFeatureVector(forest: Forest, inside: map<Symbol, Ext>, outside: map<Symbol, Ext>,
                               features: Rule -> map<string, real>)
    returns (phi: map<string, Float>)
    requires forall r :: r in forest.rules ==> r.lhs in outside
    requires forall r, u :: r in forest.rules && u in r.rhs ==> u in inside
    ensures forall f :: f in phi <==> exists r :: r in forest.rules && f in features(r)
    ensures forall f :: f in phi ==> phi[f] == Expected(inside, outside, features, forest.rules, f)
  {
    var rules := forest.rules;
    phi := map[];
    for i := 0 to |rules|
      invariant phi.Keys == FeatureNames(features, rules[..i])
      invariant forall f :: Lookup(phi, f) == Expected(inside, outside, features, rules[..i], f)
    {
      var rule := rules[i];
      assert rules[..i + 1][..i] == rules[..i];
      var k := ComputeEdgeFactor(inside, outside, rule);
      phi := AddScaled(phi, features(rule), k);
    }
    assert rules[..|rules|] == rules;
    FeatureNamesMembers(features, rules);
  }

  /**
   * The posterior probability of edge `r` in a forest with log-partition
   * `logZ`: exp(outside(head) + weight + inside(tails) - log Z).
   */
  function Marginal(exp: Ext -> real, w: Rule -> real, inside: map<Symbol, Ext>, outside: map<Symbol, Ext>,
                    logZ: real, r: Rule): real
  {
    exp(Plus(Plus(EdgeFactor(inside, outside, r), Fin(w(r))), Fin(-logZ)))
  }

  /** The expected value of feature `f`: the marginal-weighted sum of its values over the edges. */
  function ExpectedCount(exp: Ext -> real, w: Rule -> real, inside: map<Symbol, Ext>, outside: map<Symbol, Ext>,
                         logZ: real, features: Rule -> map<string, real>, rules: seq<Rule>, f: string): Float
  {
    if rules == [] then Zero
    else
      var r := rules[|rules| - 1];
      Add(ExpectedCount(exp, w, inside, outside, logZ, features, rules[..|rules| - 1], f),
          Contribution(Fin(Marginal(exp, w, inside, outside, logZ, r)), features(r), f))
  }

  /** The root of `tsort` has a finite inside value, the log of the forest's total weight `logZ`. */
  ghost predicate Partition(tsort: seq<Symbol>, inside: map<Symbol, Ext>, logZ: real) {
    tsort != [] && tsort[|tsort| - 1] in inside && inside[tsort[|tsort| - 1]] == Fin(logZ)
  }

  /**
   * The expected feature vector with each edge weighted by its marginal, the
   * loop of the source with the factor corrected.  The tables are those of
   * the inside and outside passes over `tsort`, and `logZ` is the inside value
   * of its root.
   */
  method ExpectedFeatureCounts(forest: Forest, tsort: seq<Symbol>, w: Rule -> real, exp: Ext -> real, log: real -> Ext,
                               inside: map<Symbol, Ext>, outside: map<Symbol, Ext>, logZ: real,
                               features: Rule -> map<string, real>)
    returns (phi: map<string, Float>)
    requires InsideSolved(forest.rulesByLhs, w, exp, log, tsort, inside)
    requires OutsideSolved(forest.rulesByRhs, w, exp, log, inside, tsort, 0, outside)
    requires Partition(tsort, inside, logZ)
    requires forall r :: r in forest.rules ==> r.lhs in outside
    requires forall r, u :: r in forest.rules && u in r.rhs ==> u in inside
    ensures forall f :: f in phi <==> exists r :: r in forest.rules && f in features(r)
    ensures forall f :: f in phi ==> phi[f] == ExpectedCount(exp, w, inside, outside, logZ, features, forest.rules, f)
  {
    phi := MarginalWeightedSums(forest.rules, w, exp, inside, outside, logZ, features);
  }

  /** The loop of `ExpectedFeatureCounts`, which needs only that every table lookup succeeds. */
  method MarginalWeightedSums(rules: seq<Rule>, w: Rule -> real, exp: Ext -> real,
                              inside: map<Symbol, Ext>, outside: map<Symbol, Ext>, logZ: real,
                              features: Rule -> map<string, real>)
    returns (phi: map<string, Float>)
    requires forall r :: r in rules ==> r.lhs in outside
    requires forall r, u :: r in rules && u in r.rhs ==> u in inside
    ensures forall f :: f in phi <==> exists r :: r in rules && f in features(r)
    ensures forall f :: f in phi ==> phi[f] == ExpectedCount(exp, w, inside, outside, logZ, features, rules, f)
  {
    phi := map[];
    for i := 0 to |rules|
      invariant phi.Keys == FeatureNames(features, rules[..i])
      invariant forall f :: Lookup(phi, f) == ExpectedCount(exp, w, inside, outside, logZ, features, rules[..i], f)
    {
      var rule := rules[i];
      assert rules[..i + 1][..i] == rules[..i];
      var k := ComputeEdgeFactor(inside, outside, rule);
      var m := exp(Plus(Plus(k, Fin(w(rule))), Fin(-logZ)));
      assert m == Marginal(exp, w, inside, outside, logZ, rule);
      phi := AddScaled(phi, features(rule), Fin(m));
    }
    assert rules[..|rules|] == rules;
    FeatureNamesMembers(features, rules);
  }

  /** A non-negative factor times a non-negative value is a non-negative number. */
  lemma ContributionNonNegative(k: real, fm: map<string, real>, f: string)
    requires k >= 0.0 && (f in fm ==> fm[f] >= 0.0)
    ensures Contribution(Fin(k), fm, f).IsReal() && Contribution(Fin(k), fm, f).finite >= 0.0
  {
    if f in fm {
      var v := fm[f];
      assert k * v >= 0.0;
    }
  }

  /** With non-negative exp and feature values, every expected count is a non-negative number. */
  lemma {:induction false} ExpectedCountNonNegative(exp: Ext -> real, w: Rule -> real, inside: map<Symbol, Ext>,
                                                    outside: map<Symbol, Ext>, logZ: real,
                                                    features: Rule -> map<string, real>, rules: seq<Rule>, f: string)
    requires forall x :: exp(x) >= 0.0
    requires forall r :: r in rules && f in features(r) ==> features(r)[f] >= 0.0
    ensures ExpectedCount(exp, w, inside, outside, logZ, features, rules, f).IsReal()
    ensures ExpectedCount(exp, w, inside, outside, logZ, features, rules, f).finite >= 0.0
  {
    if rules != [] {
      var r := rules[|rules| - 1];
      ExpectedCountNonNegative(exp, w, inside, outside, logZ, features, rules[..|rules| - 1], f);
      var prev := ExpectedCount(exp, w, inside, outside, logZ, features, rules[..|rules| - 1], f);
      var m := Marginal(exp, w, inside, outside, logZ, r);
      var c := Contribution(Fin(m), features(r), f);
      ContributionNonNegative(m, features(r), f);
      assert ExpectedCount(exp, w, inside, outside, logZ, features, rules, f) == Add(prev, c);
    }
  }

  /** A feature's value on one edge, 0 when the edge does not carry it. */
  function FeatureValue(fm: map<string, real>, f: string): real {
    if f in fm then fm[f] else 0.0
  }

  /** A nonterminal whose only rule is v -> u has inside value weight + inside(u). */
  lemma InsideOfOneRule(byLhs: map<Symbol, seq<Rule>>, w: Rule -> real, exp: Ext -> real, log: real -> Ext,
                        I: map<Symbol, Ext>, r: Rule, c: real)
    requires forall x :: log(exp(Fin(x))) == Fin(x)
    requires !r.lhs.IsTerminal() && RulesAt(byLhs, r.lhs) == [r]
    requires |r.rhs| == 1 && Get(I, r.rhs[0]) == Fin(c)
    ensures InsideValue(byLhs, w, exp, log, I, r.lhs) == Fin(w(r) + c)
  {
    assert r.rhs == [r.rhs[0]];
    TailSumSingle(Fin(w(r)), I, r.rhs[0]);
    assert [r][..0] == [];
    assert SumExp(exp, w, I, [r]) == exp(Fin(w(r) + c));
  }

  /** A node that is the only tail of its only parent rule has outside value outside(head) + weight. */
  lemma OutsideOfOneRule(byRhs: map<Symbol, seq<Rule>>, w: Rule -> real, exp: Ext -> real, log: real -> Ext,
                         inside: map<Symbol, Ext>, O: map<Symbol, Ext>, r: Rule, u: Symbol, c: real)
    requires forall x :: log(exp(Fin(x))) == Fin(x)
    requires RulesAt(byRhs, u) == [r] && r.rhs == [u] && Get(O, r.lhs) == Fin(c)
    ensures OutsideValue(byRhs, w, exp, log, inside, O, u) == Fin(c + w(r))
  {
    assert [u][..0] == [];
    assert OutScore(Plus(Get(O, r.lhs), Fin(w(r))), inside, u, r.rhs) == Fin(c + w(r));
    assert [r][..0] == [];
    assert OutSum(exp, w, inside, O, u, [r]) == exp(Fin(c + w(r)));
  }

  /** An edge u -> v whose outside, weight and tail add up to log Z has marginal exp(0) = 1. */
  lemma UnitMarginal(exp: Ext -> real, w: Rule -> real, inside: map<Symbol, Ext>, outside: map<Symbol, Ext>,
                     logZ: real, r: Rule, o: real, i: real)
    requires exp(Fin(0.0)) == 1.0
    requires |r.rhs| == 1 && Get(outside, r.lhs) == Fin(o) && Get(inside, r.rhs[0]) == Fin(i)
    requires o + i + w(r) == logZ
    ensures Marginal(exp, w, inside, outside, logZ, r) == 1.0
  {
    assert r.rhs == [r.rhs[0]];
    TailSumSingle(Get(outside, r.lhs), inside, r.rhs[0]);
    assert Plus(Plus(EdgeFactor(inside, outside, r), Fin(w(r))), Fin(-logZ)) == Fin(0.0);
  }

  /** On a single edge both sums are that edge's contribution. */
  lemma SumsOfOneEdge(exp: Ext -> real, w: Rule -> real, inside: map<Symbol, Ext>, outside: map<Symbol, Ext>,
                      logZ: real, features: Rule -> map<string, real>, r: Rule, f: string)
    ensures Expected(inside, outside, features, [r], f) == Contribution(EdgeFactor(inside, outside, r), features(r), f)
    ensures ExpectedCount(exp, w, inside, outside, logZ, features, [r], f)
              == Contribution(Fin(Marginal(exp, w, inside, outside, logZ, r)), features(r), f)
  {
    assert [r][..0] == [];
  }

  lemma ElemsOfThree(a: Symbol, x: Symbol, s: Symbol)
    ensures Elems([a, x, s]) == {a, x, s}
  {
    assert [a, x, s][0] == a && [a, x, s][1] == x && [a, x, s][2] == s;
  }

  /**
   * On a chain forest S -> X, X -> a the inside pass can only produce the
   * table 0, w2, w1 + w2 at a, X, S, for rule weights w1 of S -> X and w2 of
   * X -> a.
   */
  lemma ChainInside(w: Rule -> real, exp: Ext -> real, log: real -> Ext, inside: map<Symbol, Ext>,
                    s: Symbol, x: Symbol, a: Symbol)
    requires forall v :: log(exp(Fin(v))) == Fin(v)
    requires !s.IsTerminal() && !x.IsTerminal() && a.IsTerminal() && s != x
    requires InsideSolved(map[s := [Rule(s, [x])], x := [Rule(x, [a])]], w, exp, log, [a, x, s], inside)
    ensures var w1, w2 := w(Rule(s, [x])), w(Rule(x, [a]));
            && inside.Keys == {a, x, s}
            && inside[a] == Fin(0.0) && inside[x] == Fin(w2) && inside[s] == Fin(w1 + w2)
  {
    var r1, r2 := Rule(s, [x]), Rule(x, [a]);
    var byLhs := map[s := [r1], x := [r2]];
    ElemsOfThree(a, x, s);
    assert inside[a] == Fin(0.0);
    InsideOfOneRule(byLhs, w, exp, log, inside, r2, 0.0);
    InsideOfOneRule(byLhs, w, exp, log, inside, r1, w(r2));
  }

  /** On the same forest the outside pass can only produce the table w1 + w2, w1, 0 at a, X, S. */
  lemma ChainOutside(w: Rule -> real, exp: Ext -> real, log: real -> Ext,
                     inside: map<Symbol, Ext>, outside: map<Symbol, Ext>, s: Symbol, x: Symbol, a: Symbol)
    requires forall v :: log(exp(Fin(v))) == Fin(v)
    requires !s.IsTerminal() && !x.IsTerminal() && a.IsTerminal() && s != x
    requires OutsideSolved(map[x := [Rule(s, [x])], a := [Rule(x, [a])]], w, exp, log, inside, [a, x, s], 0, outside)
    ensures var w1, w2 := w(Rule(s, [x])), w(Rule(x, [a]));
            && outside.Keys == {a, x, s}
            && outside[a] == Fin(w1 + w2) && outside[x] == Fin(w1) && outside[s] == Fin(0.0)
  {
    var r1, r2 := Rule(s, [x]), Rule(x, [a]);
    var byRhs, tsort := map[x := [r1], a := [r2]], [a, x, s];
    ElemsOfThree(a, x, s);
    assert tsort[0] == a && tsort[1] == x && tsort[2] == s;
    OutsideOfOneRule(byRhs, w, exp, log, inside, outside, r1, x, 0.0);
    OutsideOfOneRule(byRhs, w, exp, log, inside, outside, r2, a, w(r1));
  }

  /**
   * A chain forest S -> X, X -> a has a single derivation.  With the tables
   * the inside and outside passes produce on it (`ChainInside`,
   * `ChainOutside`) and log Z the inside value of S, both edges have
   * marginal 1, whatever the weights.
   */
  lemma ChainMarginals(w: Rule -> real, exp: Ext -> real, inside: map<Symbol, Ext>, outside: map<Symbol, Ext>,
                       s: Symbol, x: Symbol, a: Symbol)
    requires exp(Fin(0.0)) == 1.0
    requires var w1, w2 := w(Rule(s, [x])), w(Rule(x, [a]));
             && inside.Keys == outside.Keys == {a, x, s}
             && inside[a] == Fin(0.0) && inside[x] == Fin(w2) && inside[s] == Fin(w1 + w2)
             && outside[a] == Fin(w1 + w2) && outside[x] == Fin(w1) && outside[s] == Fin(0.0)
    ensures Marginal(exp, w, inside, outside, inside[s].val, Rule(s, [x])) == 1.0
    ensures Marginal(exp, w, inside, outside, inside[s].val, Rule(x, [a])) == 1.0
  {
    var r1, r2 := Rule(s, [x]), Rule(x, [a]);
    UnitMarginal(exp, w, inside, outside, w(r1) + w(r2), r1, 0.0, w(r2));
    UnitMarginal(exp, w, inside, outside, w(r1) + w(r2), r2, w(r1), 0.0);
  }

  /** The total of a feature's values over the edges `rules`. */
  function FeatureTotal(features: Rule -> map<string, real>, rules: seq<Rule>, f: string): real {
    if rules == [] then 0.0
    else FeatureTotal(features, rules[..|rules| - 1], f) + FeatureValue(features(rules[|rules| - 1]), f)
  }

  /**
   * Where every edge has marginal 1 (a forest with a single derivation) the
   * expected count of a feature is its total along the edges.
   */
  lemma {:induction false} ExpectedCountOfUnitMarginals(exp: Ext -> real, w: Rule -> real, inside: map<Symbol, Ext>,
                                                        outside: map<Symbol, Ext>, logZ: real,
                                                        features: Rule -> map<string, real>, rules: seq<Rule>, f: string)
    requires forall r :: r in rules ==> Marginal(exp, w, inside, outside, logZ, r) == 1.0
    ensures ExpectedCount(exp, w, inside, outside, logZ, features, rules, f) == Num(FeatureTotal(features, rules, f))
  {
    if rules != [] {
      var r := rules[|rules| - 1];
      ExpectedCountOfUnitMarginals(exp, w, inside, outside, logZ, features, rules[..|rules| - 1], f);
      assert r in rules;
      UnitContribution(features(r), f);
    }
  }

  lemma UnitContribution(fm: map<string, real>, f: string)
    ensures Contribution(Fin(1.0), fm, f) == Num(FeatureValue(fm, f))
  {
  }

  /**
   * The sum as written on the one-rule forest X -> a, whatever the rule's
   * weight, with the tables of the inside and outside passes and a feature of
   * value 1: the factor is outside(X) + inside(a) = 0, so the sum is 0, where
   * the marginal-weighted count is 1.
   */
  lemma ExpectedAsWrittenIsNotACount(w: Rule -> real, exp: Ext -> real, log: real -> Ext,
                                     inside: map<Symbol, Ext>, outside: map<Symbol, Ext>)
    requires exp(Fin(0.0)) == 1.0
    requires forall x :: log(exp(Fin(x))) == Fin(x)
    requires var x, a := Nonterminal("X"), Terminal("a");
             var r := Rule(x, [a]);
             && InsideSolved(map[x := [r]], w, exp, log, [a, x], inside)
             && OutsideSolved(map[a := [r]], w, exp, log, inside, [a, x], 0, outside)
    ensures var x, a := Nonterminal("X"), Terminal("a");
            var r, features := Rule(x, [a]), (q: Rule) => map["f" := 1.0];
            && Partition([a, x], inside, w(r))
            && Expected(inside, outside, features, [r], "f") == Zero
            && ExpectedCount(exp, w, inside, outside, w(r), features, [r], "f") == Num(1.0)
  {
    var x, a := Nonterminal("X"), Terminal("a");
    var r, features := Rule(x, [a]), (q: Rule) => map["f" := 1.0];
    var byLhs, tsort := map[x := [r]], [a, x];
    assert a in inside && x in inside && x in outside by {
      assert tsort[0] == a && tsort[1] == x;
    }
    assert Partition(tsort, inside, w(r)) by {
      assert inside[a] == Fin(0.0);
      InsideOfOneRule(byLhs, w, exp, log, inside, r, 0.0);
    }
    assert outside[x] == Fin(0.0);
    SumsOfOneEdge(exp, w, inside, outside, w(r), features, r, "f");
    TailSumSingle(Get(outside, x), inside, a);
    UnitMarginal(exp, w, inside, outside, w(r), r, 0.0, 0.0);
  }
}
