/**
 * Grammar symbols, rules and derivation forests as the parser hands them to the
 * training and decoding code, and the by-tail index that the outside pass needs.
 */
module Hypergraph {

  /**
   * A grammar symbol: a terminal or a nonterminal, possibly wrapped in span
   * annotations.  The parser wraps a symbol once for the source span and once
   * more for the target (or length) span.
   */
  datatype Symbol =
    | Terminal(word: string)
    | Nonterminal(name: string)
    | Span(sym: Symbol, start: int, end: int)
  {
    /** A span is terminal exactly when the symbol it wraps is. */
    predicate IsTerminal() {
      match this
      case Terminal(_) => true
      case Nonterminal(_) => false
      case Span(s, _, _) => s.IsTerminal()
    }

    /** The symbol with every span annotation removed. */
    function Root(): (r: Symbol)
      ensures !r.Span?
      ensures r.IsTerminal() == IsTerminal()
    {
      match this
      case Span(s, _, _) => s.Root()
      case _ => this
    }

    /** What `obj()` returns: the underlying string, or the (symbol, start, end) triple of a span. */
    function Obj(): Obj {
      match this
      case Terminal(w) => Text(w)
      case Nonterminal(n) => Text(n)
      case Span(s, a, b) => Annotated(s, a, b)
    }
  }

  datatype Obj = Text(text: string) | Annotated(inner: Symbol, start: int, end: int)

  /** A production (hyperedge): one head and its ordered tails. */
  datatype Rule = Rule(lhs: Symbol, rhs: seq<Symbol>)

  /** The rules of a by-head or by-tail index at `n`; a node without an entry has none. */
  function RulesAt(index: map<Symbol, seq<Rule>>, n: Symbol): seq<Rule> {
    if n in index then index[n] else []
  }

  /** Number of occurrences of `n` in `s`. */
  function Count(s: seq<Symbol>, n: Symbol): (c: nat)
    ensures c <= |s|
    ensures c > 0 <==> n in s
  {
    if s == [] then 0 else Count(s[..|s| - 1], n) + (if s[|s| - 1] == n then 1 else 0)
  }

  function Repeat(r: Rule, k: nat): (s: seq<Rule>)
    ensures |s| == k && forall i :: 0 <= i < k ==> s[i] == r
  {
    if k == 0 then [] else Repeat(r, k - 1) + [r]
  }

  /**
   * The rules having `n` among their tails, in the order of `rules`, each
   * repeated once per occurrence of `n` in its tails.
   */
  function RulesWithTail(rules: seq<Rule>, n: Symbol): seq<Rule> {
    if rules == [] then []
    else RulesWithTail(rules[..|rules| - 1], n) + Repeat(rules[|rules| - 1], Count(rules[|rules| - 1].rhs, n))
  }

  ghost predicate OccursAsTail(rules: seq<Rule>, n: Symbol) {
    exists r :: r in rules && n in r.rhs
  }

  /** A derivation forest: its rules and the by-head index kept by the grammar object. */
  class Forest {
    var rules: seq<Rule>
    var rulesByLhs: map<Symbol, seq<Rule>>
    var rulesByRhs: map<Symbol, seq<Rule>>

    constructor (rules: seq<Rule>, rulesByLhs: map<Symbol, seq<Rule>>)
      ensures this.rules == rules && this.rulesByLhs == rulesByLhs && rulesByRhs == map[]
    {
      this.rules := rules;
      this.rulesByLhs := rulesByLhs;
      rulesByRhs := map[];
    }

    /**
     * Builds the by-tail index: every node occurring as a tail is mapped to the
     * rules it occurs in, in rule order, once per occurrence.  Only the by-tail
     * index changes.
     */
    method ExtendWithRulesByRhs()
      modifies this`rulesByRhs
      ensures forall n :: n in rulesByRhs <==> OccursAsTail(rules, n)
      ensures forall n :: n in rulesByRhs ==> rulesByRhs[n] == RulesWithTail(rules, n)
    {
      var byRhs: map<Symbol, seq<Rule>> := map[];
      var i := 0;
      while i < |rules|
        invariant 0 <= i <= |rules|
        invariant forall n :: n in byRhs <==> OccursAsTail(rules[..i], n)
        invariant forall n :: n in byRhs ==> byRhs[n] == RulesWithTail(rules[..i], n)
      {
        assert rules[..i + 1] == rules[..i] + [rules[i]];
        byRhs := AddTails(byRhs, rules[..i], rules[i]);
        i := i + 1;
      }
      assert rules[..i] == rules;
      rulesByRhs := byRhs;
    }
  }

  /** One step of the by-tail construction: files `rule` under each of its tails, once per occurrence. */
  method AddTails(byRhs: map<Symbol, seq<Rule>>, done: seq<Rule>, rule: Rule) returns (res: map<Symbol, seq<Rule>>)
    requires forall n :: n in byRhs <==> OccursAsTail(done, n)
    requires forall n :: n in byRhs ==> byRhs[n] == RulesWithTail(done, n)
    ensures forall n :: n in res <==> OccursAsTail(done + [rule], n)
    ensures forall n :: n in res ==> res[n] == RulesWithTail(done + [rule], n)
  {
    res := byRhs;
    assert rule.rhs[..0] == [];
    var j := 0;
    while j < |rule.rhs|
      invariant 0 <= j <= |rule.rhs|
      invariant PartialIndex(res, done, rule, j)
    {
      var node := rule.rhs[j];
      PartialIndexStep(res, done, rule, j);
      var entry := if node in res then res[node] else [];
      res := res[node := entry + [rule]];
      j := j + 1;
    }
    PartialIndexComplete(res, done, rule);
  }

  lemma PartialIndexComplete(index: map<Symbol, seq<Rule>>, done: seq<Rule>, rule: Rule)
    requires PartialIndex(index, done, rule, |rule.rhs|)
    ensures forall n :: n in index <==> OccursAsTail(done + [rule], n)
    ensures forall n :: n in index ==> index[n] == RulesWithTail(done + [rule], n)
  {
    assert rule.rhs[..|rule.rhs|] == rule.rhs;
    assert (done + [rule])[..|done|] == done;
    OccursAsTailSnoc(done, rule);
  }

  /** The by-tail index after the rules `done` and the first `j` tails of `rule`. */
  ghost predicate PartialIndex(index: map<Symbol, seq<Rule>>, done: seq<Rule>, rule: Rule, j: nat)
    requires j <= |rule.rhs|
  {
    && (forall n :: n in index <==> OccursAsTail(done, n) || n in rule.rhs[..j])
    && (forall n :: n in index ==> index[n] == PartialEntry(done, rule, j, n))
  }

  lemma PartialIndexStep(index: map<Symbol, seq<Rule>>, done: seq<Rule>, rule: Rule, j: nat)
    requires j < |rule.rhs| && PartialIndex(index, done, rule, j)
    ensures PartialIndex(index[rule.rhs[j] := (if rule.rhs[j] in index then index[rule.rhs[j]] else []) + [rule]], done, rule, j + 1)
  {
    var node := rule.rhs[j];
    PartialEntryStep(done, rule, j);
    if node !in index {
      NoTailNoEntries(done, node);
    }
  }

  /** The by-tail entry of `n` after the rules `done` and the first `j` tails of `rule`. */
  function PartialEntry(done: seq<Rule>, rule: Rule, j: nat, n: Symbol): seq<Rule>
    requires j <= |rule.rhs|
  {
    RulesWithTail(done, n) + Repeat(rule, Count(rule.rhs[..j], n))
  }

  lemma PartialEntryStep(done: seq<Rule>, rule: Rule, j: nat)
    requires j < |rule.rhs|
    ensures PartialEntry(done, rule, j + 1, rule.rhs[j]) == PartialEntry(done, rule, j, rule.rhs[j]) + [rule]
    ensures forall n :: n != rule.rhs[j] ==> PartialEntry(done, rule, j + 1, n) == PartialEntry(done, rule, j, n)
    ensures forall n :: n in rule.rhs[..j + 1] <==> n in rule.rhs[..j] || n == rule.rhs[j]
  {
    assert rule.rhs[..j + 1][..j] == rule.rhs[..j];
  }

  /** Concatenating rule lists concatenates their by-tail entries: the index keeps rule order. */
  lemma {:induction false} RulesWithTailAppend(a: seq<Rule>, b: seq<Rule>, n: Symbol)
    ensures RulesWithTail(a + b, n) == RulesWithTail(a, n) + RulesWithTail(b, n)
    decreases |b|
  {
    if b == [] {
      assert a + b == a;
    } else {
      var b' := b[..|b| - 1];
      assert (a + b)[..|a + b| - 1] == a + b';
      RulesWithTailAppend(a, b', n);
    }
  }

  /** A rule is listed under `n` exactly when it is a rule whose tails contain `n`. */
  lemma {:induction false} RulesWithTailMembers(rules: seq<Rule>, n: Symbol, r: Rule)
    ensures r in RulesWithTail(rules, n) <==> r in rules && n in r.rhs
  {
    if rules != [] {
      var last := rules[|rules| - 1];
      RulesWithTailMembers(rules[..|rules| - 1], n, r);
      assert rules == rules[..|rules| - 1] + [last];
      var k := Count(last.rhs, n);
      if r == last && n in r.rhs {
        assert Repeat(last, k)[0] == r;
      }
    }
  }

  lemma OccursAsTailSnoc(rules: seq<Rule>, rule: Rule)
    ensures forall n :: OccursAsTail(rules + [rule], n) <==> OccursAsTail(rules, n) || n in rule.rhs
  {
    forall n ensures OccursAsTail(rules + [rule], n) <==> OccursAsTail(rules, n) || n in rule.rhs {
      if OccursAsTail(rules + [rule], n) {
        var r :| r in rules + [rule] && n in r.rhs;
        if r != rule {
          assert r in rules;
        }
      }
      if OccursAsTail(rules, n) {
        var r :| r in rules && n in r.rhs;
        assert r in rules + [rule];
      }
      if n in rule.rhs {
        assert rule in rules + [rule];
      }
    }
  }

  lemma NoTailNoEntries(rules: seq<Rule>, n: Symbol)
    requires !OccursAsTail(rules, n)
    ensures RulesWithTail(rules, n) == []
  {
    if RulesWithTail(rules, n) != [] {
      RulesWithTailMembers(rules, n, RulesWithTail(rules, n)[0]);
    }
  }

  /** Each rule is listed under `n` as many times as it occurs, times the occurrences of `n` among its tails. */
  lemma {:induction false} RulesWithTailMultiplicity(rules: seq<Rule>, n: Symbol, r: Rule)
    ensures multiset(RulesWithTail(rules, n))[r] == multiset(rules)[r] * Count(r.rhs, n)
  {
    if rules != [] {
      var init, last := rules[..|rules| - 1], rules[|rules| - 1];
      var k := Count(last.rhs, n);
      RulesWithTailMultiplicity(init, n, r);
      RepeatMultiplicity(last, k, r);
      assert RulesWithTail(rules, n) == RulesWithTail(init, n) + Repeat(last, k);
      LastSplit(rules);
      ScaleStep(multiset(RulesWithTail(rules, n))[r], multiset(rules)[r],
                multiset(RulesWithTail(init, n))[r], multiset(init)[r], Count(r.rhs, n), last == r);
    }
  }

  lemma LastSplit<T>(s: seq<T>)
    requires s != []
    ensures s == s[..|s| - 1] + [s[|s| - 1]]
  {}

  lemma ScaleStep(x: nat, y: nat, a: nat, m: nat, c: nat, same: bool)
    requires a == m * c
    requires x == a + (if same then c else 0)
    requires y == m + (if same then 1 else 0)
    ensures x == y * c
  {
    if same {
      assert (m + 1) * c == m * c + c;
    }
  }

  lemma {:induction false} RepeatMultiplicity(q: Rule, k: nat, r: Rule)
    ensures multiset(Repeat(q, k))[r] == if q == r then k else 0
  {
    if k > 0 {
      RepeatMultiplicity(q, k - 1, r);
    }
  }
}
