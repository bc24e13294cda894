/**
 * The sparse feature maps the featurisers fill: a `defaultdict(float)` from
 * feature names to values, which every featuriser only ever increments.
 */
module SparseFeatures {
  import opened Hypergraph
  import opened Spans

  type FMap = map<string, real>

  /** A defaultdict read: an absent feature is worth 0. */
  function Lookup(m: FMap, key: string): real {
    if key in m then m[key] else 0.0
  }

  /** `m[key] += amount` on a defaultdict: the key is created if absent, nothing else changes. */
  function Bump(m: FMap, key: string, amount: real): FMap {
    m[key := Lookup(m, key) + amount]
  }

  /** `after` is `before` with every entry of `delta` added to it. */
  ghost predicate Added(after: FMap, before: FMap, delta: FMap) {
    && after.Keys == before.Keys + delta.Keys
    && forall k :: k in after ==> after[k] == Lookup(before, k) + Lookup(delta, k)
  }

  lemma AddedNothing(m: FMap)
    ensures Added(m, m, map[])
  {}

  /** Incrementing a feature not yet in `delta` adds it to `delta`. */
  lemma AddedBump(after: FMap, before: FMap, delta: FMap, key: string, amount: real)
    requires Added(after, before, delta) && key !in delta
    ensures Added(Bump(after, key, amount), before, delta[key := amount])
  {
    var next := Bump(after, key, amount);
    forall k | k in next ensures next[k] == Lookup(before, k) + Lookup(delta[key := amount], k) {
      if k != key {
        assert Lookup(next, k) == Lookup(after, k);
      }
    }
  }

  /** Two feature names that differ at some position are different names. */
  lemma Differ(a: string, b: string, i: nat)
    requires i < |a| && i < |b| && a[i] != b[i]
    ensures a != b
  {}

  /** Adding to an empty map yields exactly what was added. */
  lemma AddedToEmpty(after: FMap, delta: FMap)
    requires Added(after, map[], delta)
    ensures after == delta
  {
    forall k | k in after ensures after[k] == delta[k] {
      assert after[k] == Lookup(map[], k) + Lookup(delta, k);
    }
  }

  /** The feature map of one edge, as a Python `defaultdict(float)` mutated in place. */
  class FeatureMap {
    var entries: FMap

    constructor ()
      ensures entries == map[]
    {
      entries := map[];
    }

    method Increment(key: string, amount: real)
      modifies this
      ensures entries == Bump(old(entries), key, amount)
    {
      entries := entries[key := Lookup(entries, key) + amount];
    }
  }

  /**
   * Why an edge could not be featurised: an empty right-hand side, a symbol
   * whose `obj()` is not a (symbol, start, end) triple where one is unpacked,
   * an empty name indexed at 0, or a span destructor's refusal.
   */
  datatype FeatureError = EmptyRhs | NotATriple(symbol: Symbol) | EmptyName(symbol: Symbol) | BadSpan(error: SpanError)

  /** One half of a key of the IBM1 table: a word, or a symbol where the code passes one. */
  datatype Token = Word(w: string) | Sym(s: Symbol)

  /**
   * The dense IBM1 feature values: `logProb(a, b)` is the log of the
   * probability of the pair plus 1e-10, `geometric(a, b)` the log of the
   * square root of both directions' product (each plus 1e-10).
   */
  datatype Ibm1 = Ibm1(logProb: (Token, Token) -> real, geometric: (Token, Token) -> real)
}
