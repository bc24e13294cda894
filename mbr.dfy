/**
 * Minimum-Bayes-risk decoding: derivations are sampled top-down from a
 * forest by a breadth-first expansion, each sample's target yield becomes a
 * candidate, and the candidate with the smallest total loss against all
 * candidates is returned.
 *
 * The random choice of a rule is an oracle `choose(sample, step, count)`
 * returning an index below `count`; the loss function is a parameter.
 */
module Mbr {
  import opened Wrappers
  import opened Hypergraph

  // ---------------------------------------------------------------- ancestral sampling

  /**
   * `sample` is a breadth-first expansion of `queue`: nodes leave from the
   * front; a terminal leaves without a rule; a nonterminal takes the next rule
   * of the sample, which must be one of its head rules, and that rule's tails
   * join the back of the queue in order.
   */
  ghost predicate BreadthFirst(byLhs: map<Symbol, seq<Rule>>, queue: seq<Symbol>, sample: seq<Rule>)
    decreases |sample|, |queue|
  {
    if queue == [] then sample == []
    else if queue[0].IsTerminal() then BreadthFirst(byLhs, queue[1..], sample)
    else sample != [] && sample[0] in RulesAt(byLhs, queue[0]) && BreadthFirst(byLhs, queue[1..] + sample[0].rhs, sample[1..])
  }

  /** Every tail of a head rule of a nonterminal has a smaller rank: the forest is acyclic. */
  ghost predicate Ranked(byLhs: map<Symbol, seq<Rule>>, rank: Symbol -> nat) {
    forall v: Symbol, r: Rule, u: Symbol :: !v.IsTerminal() && r in RulesAt(byLhs, v) && u in r.rhs ==> rank(u) < rank(v)
  }

  /** An upper bound on the number of expansion steps below `v` (1 plus the sizes under all its head rules). */
  ghost function NodeSize(byLhs: map<Symbol, seq<Rule>>, rank: Symbol -> nat, v: Symbol): nat
    requires Ranked(byLhs, rank)
    decreases rank(v), 2, 0
  {
    if v.IsTerminal() then 1 else 1 + RulesSize(byLhs, rank, v, RulesAt(byLhs, v))
  }

  ghost function RulesSize(byLhs: map<Symbol, seq<Rule>>, rank: Symbol -> nat, v: Symbol, rs: seq<Rule>): nat
    requires Ranked(byLhs, rank) && !v.IsTerminal()
    requires forall r :: r in rs ==> r in RulesAt(byLhs, v)
    decreases rank(v), 1, |rs|
  {
    if rs == [] then 0
    else RulesSize(byLhs, rank, v, rs[..|rs| - 1]) + TailsSize(byLhs, rank, rank(v), rs[|rs| - 1].rhs)
  }

  ghost function TailsSize(byLhs: map<Symbol, seq<Rule>>, rank: Symbol -> nat, bound: nat, s: seq<Symbol>): nat
    requires Ranked(byLhs, rank)
    requires forall u :: u in s ==> rank(u) < bound
    decreases bound, 0, |s|
  {
    if s == [] then 0 else NodeSize(byLhs, rank, s[0]) + TailsSize(byLhs, rank, bound, s[1..])
  }

  ghost function QueueSize(byLhs: map<Symbol, seq<Rule>>, rank: Symbol -> nat, q: seq<Symbol>): nat
    requires Ranked(byLhs, rank)
  {
    if q == [] then 0 else NodeSize(byLhs, rank, q[0]) + QueueSize(byLhs, rank, q[1..])
  }

  lemma {:induction false} TailsSizeIsQueueSize(byLhs: map<Symbol, seq<Rule>>, rank: Symbol -> nat, bound: nat, s: seq<Symbol>)
    requires Ranked(byLhs, rank)
    requires forall u :: u in s ==> rank(u) < bound
    ensures TailsSize(byLhs, rank, bound, s) == QueueSize(byLhs, rank, s)
  {
    if s != [] {
      TailsSizeIsQueueSize(byLhs, rank, bound, s[1..]);
    }
  }

  lemma {:induction false} QueueSizeAppend(byLhs: map<Symbol, seq<Rule>>, rank: Symbol -> nat, a: seq<Symbol>, b: seq<Symbol>)
    requires Ranked(byLhs, rank)
    ensures QueueSize(byLhs, rank, a + b) == QueueSize(byLhs, rank, a) + QueueSize(byLhs, rank, b)
  {
    if a != [] {
      assert (a + b)[1..] == a[1..] + b;
      QueueSizeAppend(byLhs, rank, a[1..], b);
    } else {
      assert a + b == b;
    }
  }

  lemma {:induction false} RuleWithinRulesSize(byLhs: map<Symbol, seq<Rule>>, rank: Symbol -> nat, v: Symbol, rs: seq<Rule>, r: Rule)
    requires Ranked(byLhs, rank) && !v.IsTerminal()
    requires forall q :: q in rs ==> q in RulesAt(byLhs, v)
    requires r in rs
    ensures TailsSize(byLhs, rank, rank(v), r.rhs) <= RulesSize(byLhs, rank, v, rs)
  {
    if rs[|rs| - 1] != r {
      LastSplit(rs);
      RuleWithinRulesSize(byLhs, rank, v, rs[..|rs| - 1], r);
    }
  }

  /** Expanding the front nonterminal by one of its head rules shrinks the queue's size. */
  lemma ExpandShrinks(byLhs: map<Symbol, seq<Rule>>, rank: Symbol -> nat, queue: seq<Symbol>, r: Rule)
    requires Ranked(byLhs, rank) && queue != [] && !queue[0].IsTerminal() && r in RulesAt(byLhs, queue[0])
    ensures QueueSize(byLhs, rank, queue[1..] + r.rhs) < QueueSize(byLhs, rank, queue)
  {
    RuleWithinRulesSize(byLhs, rank, queue[0], RulesAt(byLhs, queue[0]), r);
    TailsSizeIsQueueSize(byLhs, rank, rank(queue[0]), r.rhs);
    QueueSizeAppend(byLhs, rank, queue[1..], r.rhs);
  }

  /**
   * One sample: start from the root and expand the front of the queue until it
   * is empty.  A nonterminal without head rules leaves nothing to choose from:
   * that node is the error.
   */
  method SampleOne(forest: Forest, root: Symbol, choose: (nat, nat, nat) -> nat, i: nat, ghost rank: Symbol -> nat)
    returns (res: Result<seq<Rule>, Symbol>)
    requires Ranked(forest.rulesByLhs, rank)
    requires forall a, b, n :: n > 0 ==> choose(a, b, n) < n
    ensures res.Ok? ==> BreadthFirst(forest.rulesByLhs, [root], res.value)
    ensures res.Err? ==> !res.error.IsTerminal() && RulesAt(forest.rulesByLhs, res.error) == []
  {
    var byLhs := forest.rulesByLhs;
    var nodeQueue := [root];
    var sample: seq<Rule> := [];
    assert forall rest: seq<Rule> {:trigger sample + rest} :: sample + rest == rest;
    while |nodeQueue| > 0
      invariant forall rest :: BreadthFirst(byLhs, nodeQueue, rest) ==> BreadthFirst(byLhs, [root], sample + rest)
      decreases QueueSize(byLhs, rank, nodeQueue)
    {
      var curNode := nodeQueue[0];
      if curNode.IsTerminal() {
        nodeQueue := nodeQueue[1..];
        continue;
      }
      var fs := RulesAt(byLhs, curNode);
      if |fs| == 0 {
        return Err(curNode);
      }
      var sampledRule := fs[choose(i, |sample|, |fs|)];
      ExpandShrinks(byLhs, rank, nodeQueue, sampledRule);
      ghost var before := nodeQueue;
      nodeQueue := nodeQueue[1..];
      for j := 0 to |sampledRule.rhs|
        invariant nodeQueue == before[1..] + sampledRule.rhs[..j]
      {
        assert sampledRule.rhs[..j + 1] == sampledRule.rhs[..j] + [sampledRule.rhs[j]];
        nodeQueue := nodeQueue + [sampledRule.rhs[j]];
      }
      assert sampledRule.rhs[..|sampledRule.rhs|] == sampledRule.rhs;
      forall rest | BreadthFirst(byLhs, nodeQueue, rest)
        ensures BreadthFirst(byLhs, [root], sample + [sampledRule] + rest)
      {
        assert ([sampledRule] + rest)[1..] == rest;
        assert BreadthFirst(byLhs, before, [sampledRule] + rest);
        assert sample + [sampledRule] + rest == sample + ([sampledRule] + rest);
      }
      sample := sample + [sampledRule];
    }
    assert BreadthFirst(byLhs, nodeQueue, []);
    assert sample + [] == sample;
    return Ok(sample);
  }

  /**
   * `numSamples` independent samples from the root; the first sample that
   * reaches a nonterminal without head rules makes the whole call fail.
   */
  method AncestralSampling(forest: Forest, root: Symbol, numSamples: nat, choose: (nat, nat, nat) -> nat,
                           ghost rank: Symbol -> nat)
    returns (res: Result<seq<seq<Rule>>, Symbol>)
    requires Ranked(forest.rulesByLhs, rank)
    requires forall a, b, n :: n > 0 ==> choose(a, b, n) < n
    ensures numSamples == 0 ==> res == Ok([])
    ensures res.Ok? ==> |res.value| == numSamples
    ensures res.Ok? ==> forall s :: s in res.value ==> BreadthFirst(forest.rulesByLhs, [root], s)
    ensures res.Err? ==> !res.error.IsTerminal() && RulesAt(forest.rulesByLhs, res.error) == []
  {
    var samples: seq<seq<Rule>> := [];
    for i := 0 to numSamples
      invariant |samples| == i
      invariant forall s :: s in samples ==> BreadthFirst(forest.rulesByLhs, [root], s)
    {
      var sample := SampleOne(forest, root, choose, i, rank);
      if sample.Err? {
        return Err(sample.error);
      }
      samples := samples + [sample.value];
    }
    return Ok(samples);
  }

  /**
   * With a by-head index that lists rules under their own heads, a
   * breadth-first sample of a nonterminal root starts with a root rule, and
   * every rule of it is a head rule of its own left-hand side.
   */
  lemma {:induction false} BreadthFirstRules(byLhs: map<Symbol, seq<Rule>>, queue: seq<Symbol>, sample: seq<Rule>)
    requires forall v, r :: r in RulesAt(byLhs, v) ==> r.lhs == v
    requires BreadthFirst(byLhs, queue, sample)
    ensures queue != [] && !queue[0].IsTerminal() ==> sample != [] && sample[0].lhs == queue[0]
    ensures forall k :: 0 <= k < |sample| ==> sample[k] in RulesAt(byLhs, sample[k].lhs)
    decreases |sample|, |queue|
  {
    if queue != [] {
      if queue[0].IsTerminal() {
        BreadthFirstRules(byLhs, queue[1..], sample);
      } else {
        BreadthFirstRules(byLhs, queue[1..] + sample[0].rhs, sample[1..]);
        forall k | 0 <= k < |sample| ensures sample[k] in RulesAt(byLhs, sample[k].lhs) {
          if k > 0 {
            assert sample[k] == sample[1..][k - 1];
          }
        }
      }
    }
  }

  // ---------------------------------------------------------------- target yield

  datatype YieldError = EmptyDerivation | EmptyRhs | NotASpan | IndexOutOfRange(index: int)

  /** Python list indexing: `-len <= idx < len`, a negative index counting from the end. */
  predicate InRange(idx: int, len: nat) {
    -(len as int) <= idx < len
  }

  function Position(idx: int, len: nat): (p: nat)
    requires InRange(idx, len)
    ensures p < len
  {
    if idx < 0 then idx + len else idx
  }

  /** The length the yield is given: the end of the first rule's first tail span (0 when negative). */
  function YieldLength(derivation: seq<Rule>): nat
    requires derivation != [] && derivation[0].rhs != [] && derivation[0].rhs[0].Span?
  {
    var n := derivation[0].rhs[0].end;
    if n < 0 then 0 else n
  }

  /** The yield is defined: a first rule with a span tail, no rule without tails, every terminal span index in range. */
  predicate YieldDefined(derivation: seq<Rule>) {
    && derivation != [] && derivation[0].rhs != [] && derivation[0].rhs[0].Span?
    && forall k :: 0 <= k < |derivation| ==>
      && derivation[k].rhs != []
      && (derivation[k].rhs[0].IsTerminal() ==>
            derivation[k].rhs[0].Span? && InRange(derivation[k].rhs[0].start, YieldLength(derivation)))
  }

  /** Rule `r` writes position `p` of a yield of length `len`. */
  predicate Writes(r: Rule, len: nat, p: nat) {
    && r.rhs != [] && r.rhs[0].IsTerminal() && r.rhs[0].Span?
    && InRange(r.rhs[0].start, len) && Position(r.rhs[0].start, len) == p
  }

  /** What a terminal rule writes: the object of the symbol inside its first tail's span. */
  function Word(r: Rule): Obj
    requires r.rhs != [] && r.rhs[0].Span?
  {
    r.rhs[0].sym.Obj()
  }

  /**
   * `c` is the target yield of `derivation`: a list of the given length in
   * which each terminal rule writes its word at its start index; the last rule
   * writing a position wins and unwritten positions stay None.
   */
  ghost predicate IsYield(derivation: seq<Rule>, c: seq<Option<Obj>>) {
    && YieldDefined(derivation)
    && |c| == YieldLength(derivation)
    && (forall p :: 0 <= p < |c| ==>
          (c[p].Some? <==> exists k :: 0 <= k < |derivation| && Writes(derivation[k], |c|, p)))
    && (forall p, k ::
          (0 <= p < |c| && 0 <= k < |derivation| && Writes(derivation[k], |c|, p)
           && (forall k' :: k < k' < |derivation| ==> !Writes(derivation[k'], |c|, p)))
          ==> c[p] == Some(Word(derivation[k])))
  }

  /** Among the rules writing position `p`, one comes last. */
  lemma LastWriter(derivation: seq<Rule>, len: nat, p: nat, k0: nat) returns (k: nat)
    requires k0 < |derivation| && Writes(derivation[k0], len, p)
    ensures k0 <= k < |derivation| && Writes(derivation[k], len, p)
    ensures forall k' :: k < k' < |derivation| ==> !Writes(derivation[k'], len, p)
    decreases |derivation| - k0
  {
    if exists k' :: k0 < k' < |derivation| && Writes(derivation[k'], len, p) {
      var k' :| k0 < k' < |derivation| && Writes(derivation[k'], len, p);
      k := LastWriter(derivation, len, p, k');
    } else {
      k := k0;
    }
  }

  /** A derivation has at most one target yield. */
  lemma YieldIsDetermined(derivation: seq<Rule>, c1: seq<Option<Obj>>, c2: seq<Option<Obj>>)
    requires IsYield(derivation, c1) && IsYield(derivation, c2)
    ensures c1 == c2
  {
    forall p | 0 <= p < |c1| ensures c1[p] == c2[p] {
      if c1[p].Some? {
        var k0 :| 0 <= k0 < |derivation| && Writes(derivation[k0], |c1|, p);
        var k := LastWriter(derivation, |c1|, p, k0);
      }
    }
  }

  /** The target yield of a derivation, or the first reason it has none. */
  method TargetYield(derivation: seq<Rule>) returns (res: Result<seq<Option<Obj>>, YieldError>)
    ensures res.Ok? <==> YieldDefined(derivation)
    ensures res.Ok? ==> IsYield(derivation, res.value)
  {
    if |derivation| == 0 {
      return Err(EmptyDerivation);
    }
    if |derivation[0].rhs| == 0 {
      return Err(EmptyRhs);
    }
    if !derivation[0].rhs[0].Span? {
      return Err(NotASpan);
    }
    var sentenceLength := YieldLength(derivation);
    var result: seq<Option<Obj>> := seq(sentenceLength, _ => None);
    for k := 0 to |derivation|
      invariant |result| == sentenceLength
      invariant forall k' :: 0 <= k' < k ==> derivation[k'].rhs != [] && (derivation[k'].rhs[0].IsTerminal() ==>
        derivation[k'].rhs[0].Span? && InRange(derivation[k'].rhs[0].start, sentenceLength))
      invariant forall p :: 0 <= p < sentenceLength ==>
        (result[p].Some? <==> exists k' :: 0 <= k' < k && Writes(derivation[k'], sentenceLength, p))
      invariant forall p, k' ::
        (0 <= p < sentenceLength && 0 <= k' < k && Writes(derivation[k'], sentenceLength, p)
         && (forall k'' :: k' < k'' < k ==> !Writes(derivation[k''], sentenceLength, p)))
        ==> result[p] == Some(Word(derivation[k']))
    {
      var rule := derivation[k];
      if |rule.rhs| == 0 {
        return Err(EmptyRhs);
      }
      if rule.rhs[0].IsTerminal() {
        if !rule.rhs[0].Span? {
          return Err(NotASpan);
        }
        var idx := rule.rhs[0].start;
        if !InRange(idx, sentenceLength) {
          return Err(IndexOutOfRange(idx));
        }
        result := result[Position(idx, sentenceLength) := Some(Word(rule))];
      }
    }
    return Ok(result);
  }

  // ---------------------------------------------------------------- minimum Bayes risk

  type Candidate = seq<Option<Obj>>

  /** The loss of `c` against each of `others`, summed. */
  function SumLoss(loss: (Candidate, Candidate) -> real, c: Candidate, others: seq<Candidate>): real {
    if others == [] then 0.0 else SumLoss(loss, c, others[..|others| - 1]) + loss(c, others[|others| - 1])
  }

  /** The risk of candidate `i`: its loss against every candidate, itself included. */
  function Risk(loss: (Candidate, Candidate) -> real, candidates: seq<Candidate>, i: nat): real
    requires i < |candidates|
  {
    SumLoss(loss, candidates[i], candidates)
  }

  /** The first index of a smallest entry, as `np.argmin`; no index for an empty array. */
  method ArgMin(a: array<real>) returns (best: Option<nat>)
    ensures best.None? <==> a.Length == 0
    ensures best.Some? ==> best.value < a.Length
    ensures best.Some? ==> forall j :: 0 <= j < a.Length ==> a[best.value] <= a[j]
    ensures best.Some? ==> forall j :: 0 <= j < best.value ==> a[j] > a[best.value]
  {
    if a.Length == 0 {
      return None;
    }
    var k := 0;
    for i := 1 to a.Length
      invariant k < i
      invariant forall j :: 0 <= j < i ==> a[k] <= a[j]
      invariant forall j :: 0 <= j < k ==> a[j] > a[k]
    {
      if a[i] < a[k] {
        k := i;
      }
    }
    return Some(k);
  }

  /**
   * The index of the minimum-risk candidate, the first one among equal
   * risks; none when there are no candidates.
   */
  method MinimumRisk(candidates: seq<Candidate>, loss: (Candidate, Candidate) -> real) returns (best: Option<nat>)
    ensures best.None? <==> candidates == []
    ensures best.Some? ==> best.value < |candidates|
    ensures best.Some? ==> forall j :: 0 <= j < |candidates| ==> Risk(loss, candidates, best.value) <= Risk(loss, candidates, j)
    ensures best.Some? ==> forall j :: 0 <= j < best.value ==> Risk(loss, candidates, j) > Risk(loss, candidates, best.value)
  {
    var n := |candidates|;
    var candidateLoss := new real[n];
    for i := 0 to n
      invariant forall j :: 0 <= j < i ==> candidateLoss[j] == Risk(loss, candidates, j)
    {
      var total := 0.0;
      for c := 0 to n
        invariant total == SumLoss(loss, candidates[i], candidates[..c])
      {
        assert candidates[..c + 1][..c] == candidates[..c];
        total := total + loss(candidates[i], candidates[c]);
      }
      assert candidates[..n] == candidates;
      candidateLoss[i] := total;
    }
    best := ArgMin(candidateLoss);
    if best.Some? {
      var k := best.value;
      forall j | 0 <= j < n ensures Risk(loss, candidates, k) <= Risk(loss, candidates, j) {
        assert candidateLoss[k] <= candidateLoss[j];
      }
      forall j | 0 <= j < k ensures Risk(loss, candidates, j) > Risk(loss, candidates, k) {
        assert candidateLoss[j] > candidateLoss[k];
      }
    }
  }

  datatype MbrError = SamplingFailed(node: Symbol) | YieldFailed(error: YieldError) | NoSamples

  /**
   * MBR decoding: sample, take the yields, return the candidate of minimum
   * risk.  A failed sample or yield, or no samples at all, is an error.  The
   * ghost `samples` are the derivations drawn and `candidates` their yields.
   */
  method MBRDecoding(forest: Forest, root: Symbol, numSamples: nat, loss: (Candidate, Candidate) -> real,
                     choose: (nat, nat, nat) -> nat, ghost rank: Symbol -> nat)
    returns (res: Result<Candidate, MbrError>, ghost samples: seq<seq<Rule>>, ghost candidates: seq<Candidate>)
    requires Ranked(forest.rulesByLhs, rank)
    requires forall a, b, n :: n > 0 ==> choose(a, b, n) < n
    ensures res == Err(NoSamples) <==> numSamples == 0
    ensures res.Err? && res.error.SamplingFailed? ==>
      !res.error.node.IsTerminal() && RulesAt(forest.rulesByLhs, res.error.node) == []
    ensures res.Err? && res.error.YieldFailed? ==>
      exists i :: 0 <= i < |samples| && BreadthFirst(forest.rulesByLhs, [root], samples[i]) && !YieldDefined(samples[i])
    ensures res.Ok? ==> |samples| == |candidates| == numSamples
    ensures res.Ok? ==> forall i :: 0 <= i < numSamples ==>
      BreadthFirst(forest.rulesByLhs, [root], samples[i]) && IsYield(samples[i], candidates[i])
    ensures res.Ok? ==> exists k ::
      (&& 0 <= k < |candidates| && res.value == candidates[k]
       && (forall j :: 0 <= j < |candidates| ==> Risk(loss, candidates, k) <= Risk(loss, candidates, j))
       && (forall j :: 0 <= j < k ==> Risk(loss, candidates, j) > Risk(loss, candidates, k)))
    ensures res.Ok? && numSamples == 1 ==> res.value == candidates[0]
  {
    samples, candidates := [], [];
    var sampled := AncestralSampling(forest, root, numSamples, choose, rank);
    if sampled.Err? {
      return Err(SamplingFailed(sampled.error)), samples, candidates;
    }
    var drawn := sampled.value;
    samples := drawn;
    assert forall i :: 0 <= i < |drawn| ==> drawn[i] in sampled.value;
    var cands: seq<Candidate> := [];
    for i := 0 to |drawn|
      invariant |cands| == i
      invariant forall j :: 0 <= j < i ==> IsYield(drawn[j], cands[j])
    {
      var y := TargetYield(drawn[i]);
      if y.Err? {
        return Err(YieldFailed(y.error)), samples, candidates;
      }
      cands := cands + [y.value];
    }
    candidates := cands;
    var best := MinimumRisk(cands, loss);
    if best.None? {
      return Err(NoSamples), samples, candidates;
    }
    return Ok(cands[best.value]), samples, candidates;
  }
}
