/**
 * Maximum-likelihood training: the counting pass over the samples, the
 * per-state Gaussian builders, the normalisation of counts into
 * log-probabilities, and the eigenvalue floor used when a builder's covariance
 * is decomposed.
 */
module Training {
  import opened Common
  import opened Tally
  import opened Counting

  /** The floor below which an eigenvalue's magnitude is raised when a covariance is decomposed. */
  const MinimumVariance: real := 0.0001

  /**
   * Accumulates one state's observations. Only the observation count is kept
   * here; the first and second moment accumulators are not part of this model.
   */
  class GaussianBuilder {
    const dim: nat
    var divisor: nat

    constructor (dim: nat)
      ensures this.dim == dim && divisor == 0
    {
      this.dim := dim;
      divisor := 0;
    }

    /** Adds one observation: the count goes up by one. */
    method Update(vec: Vector)
      modifies this
      ensures divisor == old(divisor) + 1
    {
      divisor := divisor + 1;
    }
  }

  /**
   * What training reads of each sample without failing: a first and a last tag,
   * and a token for every tag position.
   */
  predicate Trainable(data: seq<Sample>)
  {
    forall i :: 0 <= i < |data| ==> 0 < |data[i].tags| <= |data[i].tokens|
  }

  /** `log` applied to every value of a map. */
  function LogMap<K>(m: map<K, real>, log: real -> real): (r: map<K, real>)
    ensures r.Keys == m.Keys
  {
    map k | k in m :: log(m[k])
  }

  /**
   * Trains the model: counts initial tags, occurrences and transitions (with a
   * final transition of every sample into the terminal state), registers states
   * in first-seen order, feeds every token's embedding to its tag's builder, and
   * turns the counts into log-probabilities, then fits one emission distribution
   * per builder. `embed` is the embedding lookup, `log` the natural logarithm
   * and `fit` a builder's Gaussian estimate, all left uninterpreted.
   */
  method Train<D>(data: seq<Sample>, dim: nat, embed: string -> Vector, log: real -> real, fit: GaussianBuilder -> D)
    returns (hmm: HMM, emitter: map<Tag, D>, builders: map<Tag, GaussianBuilder>)
    requires Trainable(data)
    ensures TagsPresent(data)
    ensures hmm.states == CountAll(data).states && hmm.terminal == EndTag
    ensures |data| == 0 ==> hmm.init == map[]
    ensures |data| > 0 ==> hmm.init == LogMap(Ratios(CountAll(data).init, |data|), log)
    ensures forall t :: t in CountAll(data).trans ==> Get(CountAll(data).visited, t.from) > 0
    ensures hmm.transitions == LogMap(TransitionRatios(CountAll(data).trans, CountAll(data).visited), log)
    ensures builders.Keys == CountAll(data).visited.Keys
    ensures forall s :: s in builders ==> builders[s].divisor == CountAll(data).visited[s]
    ensures BuildersMatch(builders, CountAll(data).visited)
    ensures forall s :: s in builders ==> fresh(builders[s])
    ensures emitter == BuildEmitter(builders, fit)
  {
    var c := Start;
    builders := map[];
    for i := 0 to |data|
      invariant c == CountAll(data[..i])
      invariant BuildersMatch(builders, c.visited)
      invariant forall s :: s in builders ==> fresh(builders[s])
    {
      CountAllSnoc(data, i);
      c, builders := VisitSample(c, builders, data[i], dim, embed);
    }
    assert data[..|data|] == data;
    TransitionKeys(data);
    assert |data| == 0 ==> c.init == map[];
    var initLog := NormalizeInit(c.init, |data|, log);
    var transLog := NormalizeTransitions(c.trans, c.visited, log);
    hmm := HMM(c.states, EndTag, initLog, transLog);
    emitter := BuildEmitter(builders, fit);
  }

  /**
   * The emitter built from the trained builders: each state's distribution is
   * fitted from that state's builder, and no state has one without a builder.
   * `fit` stands for a builder's Gaussian estimate, whose numerics are not part
   * of this model.
   */
  function BuildEmitter<D>(builders: map<Tag, GaussianBuilder>, fit: GaussianBuilder -> D): (r: map<Tag, D>)
    ensures r.Keys == builders.Keys
    ensures forall s :: s in r ==> r[s] == fit(builders[s])
  {
    map s | s in builders :: fit(builders[s])
  }

  /** One builder per visited tag, distinct objects, each having seen as many observations as the tag occurred. */
  ghost predicate BuildersMatch(builders: map<Tag, GaussianBuilder>, visited: map<Tag, nat>)
    reads builders.Values
  {
    && builders.Keys == visited.Keys
    && (forall s :: s in builders ==> builders[s].divisor == visited[s])
    && (forall s, u :: s in builders && u in builders && s != u ==> builders[s] != builders[u])
  }

  /**
   * The body of the trainer's loop over samples: bumps the first tag's initial
   * count, visits every position (registering, counting, updating the tag's
   * builder with the token's embedding, counting the transition from the previous
   * tag), then counts the transition from the last tag to the terminal state.
   */
  method VisitSample(c: Counts, builders: map<Tag, GaussianBuilder>, sample: Sample, dim: nat, embed: string -> Vector)
    returns (c': Counts, builders': map<Tag, GaussianBuilder>)
    requires 0 < |sample.tags| <= |sample.tokens|
    requires BuildersMatch(builders, c.visited)
    modifies builders.Values
    ensures c' == CountSample(c, sample.tags)
    ensures BuildersMatch(builders', c'.visited)
    ensures forall s :: s in builders' ==> (s in builders && builders'[s] == builders[s]) || fresh(builders'[s])
  {
    var tags := sample.tags;
    c' := Begin(c, tags);
    builders' := builders;
    var j := 0;
    while j < |tags|
      invariant 0 <= j <= |tags|
      invariant c' == VisitTags(Begin(c, tags), tags, j)
      invariant BuildersMatch(builders', c'.visited)
      invariant forall s :: s in builders' ==> (s in builders && builders'[s] == builders[s]) || fresh(builders'[s])
    {
      var tag := tags[j];
      var states := if Get(c'.visited, tag) == 0 then c'.states + [tag] else c'.states;
      var visited := Incr(c'.visited, tag);
      builders' := Observe(builders', c'.visited, tag, embed(sample.tokens[j]), dim);
      var trans := if j > 0 then Incr(c'.trans, Transition(tags[j - 1], tag)) else c'.trans;
      c' := Counts(states, c'.init, visited, trans);
      j := j + 1;
    }
    c' := c'.(trans := Incr(c'.trans, Transition(tags[|tags| - 1], EndTag)));
  }

  /**
   * Feeds one observation of `tag` to its builder, creating the builder the
   * first time the tag is seen.
   */
  method Observe(builders: map<Tag, GaussianBuilder>, visited: map<Tag, nat>, tag: Tag, vec: Vector, dim: nat)
    returns (builders': map<Tag, GaussianBuilder>)
    requires BuildersMatch(builders, visited)
    modifies builders.Values
    ensures BuildersMatch(builders', Incr(visited, tag))
    ensures forall s :: s in builders' ==> (s in builders && builders'[s] == builders[s]) || fresh(builders'[s])
  {
    builders' := builders;
    if tag !in builders' {
      var b := new GaussianBuilder(dim);
      builders' := builders'[tag := b];
    }
    builders'[tag].Update(vec);
  }

  /** Every initial count `c` becomes `log(c / n)`, for the `n` samples; the keys stay the same. */
  method NormalizeInit(init: map<Tag, nat>, n: nat, log: real -> real) returns (r: map<Tag, real>)
    requires init != map[] ==> n > 0
    ensures n > 0 ==> r == LogMap(Ratios(init, n), log)
    ensures n == 0 ==> r == map[]
  {
    r := map[];
    var pending := init.Keys;
    while pending != {}
      invariant pending <= init.Keys
      invariant r.Keys == init.Keys - pending
      invariant forall s :: s in r ==> n > 0 && r[s] == log(init[s] as real / n as real)
      decreases pending
    {
      var s :| s in pending;
      r := r[s := log(init[s] as real / n as real)];
      pending := pending - {s};
    }
  }

  /**
   * Every transition count becomes `log(count / occurrences of its source)`; the
   * keys stay the same.
   */
  method NormalizeTransitions(trans: map<Transition, nat>, visited: map<Tag, nat>, log: real -> real)
    returns (r: map<Transition, real>)
    requires forall t :: t in trans ==> Get(visited, t.from) > 0
    ensures r == LogMap(TransitionRatios(trans, visited), log)
  {
    r := map[];
    var pending := trans.Keys;
    while pending != {}
      invariant pending <= trans.Keys
      invariant r.Keys == trans.Keys - pending
      invariant forall t :: t in r ==> r[t] == log(trans[t] as real / Get(visited, t.from) as real)
      decreases pending
    {
      var t :| t in pending;
      r := r[t := log(trans[t] as real / Get(visited, t.from) as real)];
      pending := pending - {t};
    }
  }

  function Abs(x: real): real
  {
    if x < 0.0 then -x else x
  }

  /**
   * The eigenvalue floor: a value whose magnitude is below the floor becomes the
   * floor itself; every other value, negative ones included, is kept.
   */
  function Clamp(val: real): (r: real)
    ensures Abs(r) >= MinimumVariance
    ensures Abs(val) >= MinimumVariance ==> r == val
    ensures Abs(val) < MinimumVariance ==> r == MinimumVariance
  {
    if Abs(val) < MinimumVariance then MinimumVariance else val
  }

  /**
   * A clamped eigenvalue is positive exactly when the original is above minus the
   * floor: a negative eigenvalue of magnitude at least the floor stays negative.
   */
  lemma ClampSign(val: real)
    ensures Clamp(val) > 0.0 <==> val > -MinimumVariance
    ensures Clamp(Clamp(val)) == Clamp(val)
  {
  }

  /**
   * The diagonal of the eigenvalue matrix built from the eigenvalues of a
   * covariance: each one clamped to the floor.
   */
  method ClampEigenvalues(eigVals: seq<real>) returns (lambda: array<real>)
    ensures fresh(lambda)
    ensures lambda.Length == |eigVals|
    ensures forall i :: 0 <= i < |eigVals| ==> lambda[i] == Clamp(eigVals[i])
    ensures forall i :: 0 <= i < lambda.Length ==> Abs(lambda[i]) >= MinimumVariance
  {
    lambda := new real[|eigVals|];
    for i := 0 to |eigVals|
      invariant forall k :: 0 <= k < i ==> lambda[k] == Clamp(eigVals[k])
    {
      var val := eigVals[i];
      if Abs(val) < MinimumVariance {
        val := MinimumVariance;
      }
      lambda[i] := val;
    }
  }
}
