/**
 * The topological order of a forest's nodes: every head depends on the
 * tails of its rules; an external layered topological sort groups the nodes
 * into layers, and the layers are flattened in order.
 */
module TopSort {
  import opened Hypergraph
  import opened InsideOutside
  import opened ExtReal

  /** The heads of `rules`. */
  function Heads(rules: seq<Rule>): set<Symbol> {
    set r | r in rules :: r.lhs
  }

  /** Every tail of every rule headed at `v`. */
  function TailsOf(rules: seq<Rule>, v: Symbol): set<Symbol> {
    set r, u | r in rules && r.lhs == v && u in r.rhs :: u
  }

  /** The dependency map: each head to all tails of its rules. */
  function Deps(rules: seq<Rule>): map<Symbol, set<Symbol>> {
    map v | v in Heads(rules) :: TailsOf(rules, v)
  }

  /**
   * What a layered topological sort promises: disjoint layers, every key in
   * some layer, and every dependency of a key in a strictly earlier layer.
   */
  ghost predicate Layered(deps: map<Symbol, set<Symbol>>, layers: seq<set<Symbol>>) {
    && (forall p, q :: 0 <= p < q < |layers| ==> layers[p] !! layers[q])
    && (forall v :: v in deps ==> exists p :: 0 <= p < |layers| && v in layers[p])
    && (forall v, u, p :: v in deps && u in deps[v] && 0 <= p < |layers| && v in layers[p] ==>
          exists q :: 0 <= q < p && u in layers[q])
  }

  /**
   * `res` lists the layers in order: `owner[i]` is the layer `res[i]` comes
   * from, owners never decrease, no layer lists an element twice, and every
   * element of every layer is listed.
   */
  ghost predicate Flattened(layers: seq<set<Symbol>>, res: seq<Symbol>, owner: seq<nat>) {
    && |owner| == |res|
    && (forall i :: 0 <= i < |res| ==> owner[i] < |layers| && res[i] in layers[owner[i]])
    && (forall i, j :: 0 <= i < j < |res| ==> owner[i] <= owner[j])
    && (forall i, j :: 0 <= i < j < |res| && owner[i] == owner[j] ==> res[i] != res[j])
    && (forall p, v :: 0 <= p < |layers| && v in layers[p] ==> v in res)
  }

  lemma HeadsSnoc(rules: seq<Rule>, rule: Rule)
    ensures Heads(rules + [rule]) == Heads(rules) + {rule.lhs}
  {
    assert forall r :: r in rules + [rule] <==> r in rules || r == rule;
  }

  /** Tails of `v` after the rules `done` and the first `j` tails of `rule`. */
  function PartialTails(done: seq<Rule>, rule: Rule, j: nat, v: Symbol): set<Symbol>
    requires j <= |rule.rhs|
  {
    TailsOf(done, v) + (if rule.lhs == v then set u | u in rule.rhs[..j] else {})
  }

  lemma PartialTailsStep(done: seq<Rule>, rule: Rule, j: nat)
    requires j < |rule.rhs|
    ensures PartialTails(done, rule, j + 1, rule.lhs) == PartialTails(done, rule, j, rule.lhs) + {rule.rhs[j]}
    ensures forall v :: v != rule.lhs ==> PartialTails(done, rule, j + 1, v) == PartialTails(done, rule, j, v)
  {
    assert rule.rhs[..j + 1] == rule.rhs[..j] + [rule.rhs[j]];
  }

  lemma PartialTailsComplete(done: seq<Rule>, rule: Rule, v: Symbol)
    ensures PartialTails(done, rule, |rule.rhs|, v) == TailsOf(done + [rule], v)
  {
    assert rule.rhs[..|rule.rhs|] == rule.rhs;
    assert forall r :: r in done + [rule] <==> r in done || r == rule;
  }

  /**
   * Builds the dependency map rule by rule: the first rule of a head creates
   * its (possibly empty) set, and every tail is added to it.
   */
  method Dependencies(rules: seq<Rule>) returns (deps: map<Symbol, set<Symbol>>)
    ensures deps.Keys == Heads(rules)
    ensures forall v :: v in deps ==> deps[v] == TailsOf(rules, v)
  {
    deps := map[];
    for i := 0 to |rules|
      invariant deps.Keys == Heads(rules[..i])
      invariant forall v :: v in deps ==> deps[v] == TailsOf(rules[..i], v)
    {
      var rule := rules[i];
      assert rules[..i + 1] == rules[..i] + [rule];
      HeadsSnoc(rules[..i], rule);
      var lhs := rule.lhs;
      if lhs !in deps {
        assert lhs !in Heads(rules[..i]);
        assert TailsOf(rules[..i], lhs) == {};
        deps := deps[lhs := {}];
      }
      assert rule.rhs[..0] == [];
      for j := 0 to |rule.rhs|
        invariant deps.Keys == Heads(rules[..i]) + {lhs}
        invariant forall v :: v in deps ==> deps[v] == PartialTails(rules[..i], rule, j, v)
      {
        PartialTailsStep(rules[..i], rule, j);
        deps := deps[lhs := deps[lhs] + {rule.rhs[j]}];
      }
      forall v | v in deps ensures deps[v] == TailsOf(rules[..i + 1], v) {
        PartialTailsComplete(rules[..i], rule, v);
      }
    }
    assert rules[..|rules|] == rules;
  }

  /**
   * The node order of a forest: the dependency map handed to the layered
   * sort `toposort`, whose layers are then listed in order.
   */
  method TopologicalSort(forest: Forest, toposort: map<Symbol, set<Symbol>> -> seq<set<Symbol>>)
    returns (res: seq<Symbol>, ghost owner: seq<nat>)
    ensures Flattened(toposort(Deps(forest.rules)), res, owner)
  {
    var dependencies := Dependencies(forest.rules);
    assert dependencies == Deps(forest.rules);
    var layers := toposort(dependencies);
    res, owner := Flatten(layers);
  }

  /** Lists the elements of each layer, layer after layer; within a layer in any order. */
  method Flatten(layers: seq<set<Symbol>>) returns (res: seq<Symbol>, ghost owner: seq<nat>)
    ensures Flattened(layers, res, owner)
  {
    res, owner := [], [];
    for p := 0 to |layers|
      invariant |owner| == |res|
      invariant forall i :: 0 <= i < |res| ==> owner[i] < p && res[i] in layers[owner[i]]
      invariant forall i, j :: 0 <= i < j < |res| ==> owner[i] <= owner[j]
      invariant forall i, j :: 0 <= i < j < |res| && owner[i] == owner[j] ==> res[i] != res[j]
      invariant forall q, v :: 0 <= q < p && v in layers[q] ==> v in res
    {
      var todo := layers[p];
      while todo != {}
        invariant todo <= layers[p]
        invariant |owner| == |res|
        invariant forall i :: 0 <= i < |res| ==> owner[i] <= p && res[i] in layers[owner[i]]
        invariant forall i :: 0 <= i < |res| && owner[i] == p ==> res[i] !in todo
        invariant forall i, j :: 0 <= i < j < |res| ==> owner[i] <= owner[j]
        invariant forall i, j :: 0 <= i < j < |res| && owner[i] == owner[j] ==> res[i] != res[j]
        invariant forall q, v :: 0 <= q < p && v in layers[q] ==> v in res
        invariant forall v :: v in layers[p] && v !in todo ==> v in res
        decreases todo
      {
        var b :| b in todo;
        res, owner := res + [b], owner + [p];
        todo := todo - {b};
      }
    }
  }

  /**
   * Under the layered contract, every tail of every rule is listed before
   * each occurrence of the rule's head.
   */
  lemma TailsPrecedeHeads(rules: seq<Rule>, layers: seq<set<Symbol>>, res: seq<Symbol>, owner: seq<nat>,
                          r: Rule, u: Symbol, j: nat)
    requires Layered(Deps(rules), layers) && Flattened(layers, res, owner)
    requires r in rules && u in r.rhs && j < |res| && res[j] == r.lhs
    ensures u in res[..j]
  {
    var v := r.lhs;
    assert v in Heads(rules);
    assert u in TailsOf(rules, v);
    assert u in Deps(rules)[v];
    var q :| 0 <= q < owner[j] && u in layers[q];
    assert u in res;
    var k :| 0 <= k < |res| && res[k] == u;
    assert owner[k] == q;
    assert k < j;
    assert res[..j][k] == u;
  }

  /**
   * With a by-head index that lists rules of the forest under their own
   * heads, the flattened layers are an order the dynamic programs accept:
   * distinct nodes, each after the tails of its head rules.
   */
  lemma TopologicalSortIsTopological(rules: seq<Rule>, byLhs: map<Symbol, seq<Rule>>,
                                     layers: seq<set<Symbol>>, res: seq<Symbol>, owner: seq<nat>)
    requires Layered(Deps(rules), layers) && Flattened(layers, res, owner)
    requires forall v, r :: r in RulesAt(byLhs, v) ==> r in rules && r.lhs == v
    ensures TopologicalOrder(byLhs, res)
  {
    FlattenedDistinct(rules, layers, res, owner);
    forall i | 0 <= i < |res| ensures Ready(byLhs, Elems(res[..i]), res[i]) {
      forall r, u | r in RulesAt(byLhs, res[i]) && u in r.rhs ensures u in Elems(res[..i]) {
        TailsPrecedeHeads(rules, layers, res, owner, r, u, i);
      }
    }
  }

  /** Disjoint layers, each listed without repeats, give distinct nodes. */
  lemma FlattenedDistinct(rules: seq<Rule>, layers: seq<set<Symbol>>, res: seq<Symbol>, owner: seq<nat>)
    requires Layered(Deps(rules), layers) && Flattened(layers, res, owner)
    ensures forall i, j :: 0 <= i < j < |res| ==> res[i] != res[j]
  {
    forall i, j | 0 <= i < j < |res| ensures res[i] != res[j] {
      if owner[i] < owner[j] {
        assert res[i] in layers[owner[i]] && res[j] in layers[owner[j]];
      }
    }
  }

  /**
   * The same order suits the outside pass.  With the by-tail index built from
   * the forest's rules and an inside table over the order, each node comes
   * before the head of every rule it is a tail of, and the other tails of
   * that rule have inside values, so the outside pass never reads a missing
   * entry.
   */
  lemma TopologicalSortSuitsOutside(rules: seq<Rule>, byRhs: map<Symbol, seq<Rule>>, inside: map<Symbol, Ext>,
                                    layers: seq<set<Symbol>>, res: seq<Symbol>, owner: seq<nat>)
    requires Layered(Deps(rules), layers) && Flattened(layers, res, owner)
    requires forall n :: n in byRhs ==> byRhs[n] == RulesWithTail(rules, n)
    requires inside.Keys == Elems(res)
    ensures OutsideOrder(byRhs, inside, res)
  {
    FlattenedDistinct(rules, layers, res, owner);
    forall i | 0 <= i < |res| - 1 ensures OutsideReady(byRhs, inside, Elems(res[i + 1..]), res[i]) {
      forall r | r in RulesAt(byRhs, res[i])
        ensures r.lhs in Elems(res[i + 1..])
        ensures forall u :: u in r.rhs && u != res[i] ==> u in inside
      {
        RulesWithTailMembers(rules, res[i], r);
        var k := HeadListed(rules, layers, res, owner, r);
        TailsPrecedeHeads(rules, layers, res, owner, r, res[i], k);
        var m :| 0 <= m < k && res[..k][m] == res[i];
        assert res[m] == res[i];
        assert i < k;
        assert res[i + 1..][k - i - 1] == r.lhs;
        forall u | u in r.rhs && u != res[i] ensures u in inside {
          TailsPrecedeHeads(rules, layers, res, owner, r, u, k);
        }
      }
    }
  }

  /** The head of every rule is listed. */
  lemma HeadListed(rules: seq<Rule>, layers: seq<set<Symbol>>, res: seq<Symbol>, owner: seq<nat>, r: Rule)
    returns (k: nat)
    requires Layered(Deps(rules), layers) && Flattened(layers, res, owner)
    requires r in rules
    ensures k < |res| && res[k] == r.lhs
  {
    assert r.lhs in Heads(rules);
    assert r.lhs in Deps(rules);
    var p :| 0 <= p < |layers| && r.lhs in layers[p];
    assert r.lhs in res;
    k :| 0 <= k < |res| && res[k] == r.lhs;
  }
}
