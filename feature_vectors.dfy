/**
 * The sparse feature vectors of the expected-feature pass: a Python
 * dictionary from feature names to floats, where a missing name reads as 0.
 */
module FeatureVectors {
  import opened ExtReal

  /** An entry of a feature vector; a missing feature is 0. */
  function Lookup(phi: map<string, Float>, f: string): Float {
    if f in phi then phi[f] else Zero
  }

  /** What one edge with factor `k` and features `fm` adds to feature `f`: Python's `k * value`. */
  function Contribution(k: Ext, fm: map<string, real>, f: string): Float {
    if f in fm then Times(k, fm[f]) else Zero
  }

  /** Adds `k` times each feature of `fm` to `phi`, creating missing entries at 0. */
  method AddScaled(phi: map<string, Float>, fm: map<string, real>, k: Ext) returns (res: map<string, Float>)
    ensures res.Keys == phi.Keys + fm.Keys
    ensures forall f :: Lookup(res, f) == Add(Lookup(phi, f), Contribution(k, fm, f))
  {
    res := phi;
    var todo := fm.Keys;
    while todo != {}
      invariant todo <= fm.Keys
      invariant forall f :: f in res <==> f in phi || (f in fm && f !in todo)
      invariant forall f :: Lookup(res, f) == Add(Lookup(phi, f), if f in fm && f !in todo then Times(k, fm[f]) else Zero)
      decreases todo
    {
      var f :| f in todo;
      if f !in res {
        res := res[f := Zero];
      }
      res := res[f := Add(res[f], Times(k, fm[f]))];
      todo := todo - {f};
    }
  }
}
