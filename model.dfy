/**
 * The trained tagger: the Gaussian emitter's per-state log-densities, and
 * tagging a tokenized phrase by embedding its tokens and asking the hidden
 * Markov model for its most likely state sequence.
 */
module Tagger {
  import opened Common
  import opened Counting
  import opened Training

  /** A log-density: a finite value, or minus infinity for an impossible emission. */
  datatype LogValue = NegInf | Finite(value: real)

  /**
   * The log-density of `obs` in each of `states`: the state's distribution
   * evaluated at `obs` when the emitter has one, minus infinity otherwise.
   * `D` is the per-state distribution and `logProb` its density, whose
   * numerics are not part of this model.
   */
  function Emissions<D>(emitter: map<Tag, D>, obs: Vector, states: seq<Tag>, logProb: (D, Vector) -> real)
    : (r: seq<LogValue>)
    ensures |r| == |states|
    ensures forall i :: 0 <= i < |states| ==>
      (states[i] in emitter ==> r[i] == Finite(logProb(emitter[states[i]], obs)))
    ensures forall i :: 0 <= i < |states| ==> (r[i] == NegInf <==> states[i] !in emitter)
  {
    if states == [] then []
    else
      var s := states[|states| - 1];
      Emissions(emitter, obs, states[..|states| - 1], logProb)
        + [if s in emitter then Finite(logProb(emitter[s], obs)) else NegInf]
  }

  /** Asking for two lists of states at once gives the two answers one after the other. */
  lemma {:induction false} EmissionsAppend<D>(
    emitter: map<Tag, D>, obs: Vector, a: seq<Tag>, b: seq<Tag>, logProb: (D, Vector) -> real)
    ensures Emissions(emitter, obs, a + b, logProb)
      == Emissions(emitter, obs, a, logProb) + Emissions(emitter, obs, b, logProb)
    decreases |b|
  {
    if b == [] {
      assert a + b == a;
    } else {
      var b' := b[..|b| - 1];
      EmissionsAppend(emitter, obs, a, b', logProb);
      assert (a + b)[..|a + b| - 1] == a + b';
    }
  }

  /**
   * The emitter's log-densities for an observation, one per requested state,
   * in the order the states were given.
   */
  method LogProbs<D>(emitter: map<Tag, D>, obs: Vector, states: seq<Tag>, logProb: (D, Vector) -> real)
    returns (res: seq<LogValue>)
    ensures res == Emissions(emitter, obs, states, logProb)
  {
    res := [];
    for i := 0 to |states|
      invariant res == Emissions(emitter, obs, states[..i], logProb)
    {
      var state := states[i];
      if state in emitter {
        res := res + [Finite(logProb(emitter[state], obs))];
      } else {
        res := res + [NegInf];
      }
      assert states[..i + 1][..i] == states[..i];
    }
    assert states[..|states|] == states;
  }

  /**
   * The emitter the trainer builds (one fitted distribution per builder, and the
   * trainer keeps one builder per tag it visited) gives every tag of the
   * training data a finite log-density; the terminal state, when no sample uses
   * it as a tag, is the only state that emits nothing.
   */
  lemma TrainedEmissions<D>(
    data: seq<Sample>, builders: map<Tag, GaussianBuilder>, fit: GaussianBuilder -> D,
    obs: Vector, logProb: (D, Vector) -> real)
    requires TagsPresent(data)
    requires builders.Keys == CountAll(data).visited.Keys
    ensures forall t :: t in Flat(data) ==> t in BuildEmitter(builders, fit)
    ensures EndTag !in Flat(data) ==> forall i :: 0 <= i < |CountAll(data).states| ==>
      ((Emissions(BuildEmitter(builders, fit), obs, CountAll(data).states, logProb)[i] == NegInf)
       == (CountAll(data).states[i] == EndTag))
  {
    CountAllDescribes(data);
    StatesDistinct(data);
    var states := CountAll(data).states;
    forall i | 0 <= i < |states| ensures states[i] in Flat(data) || states[i] == EndTag {
      assert states[i] in states;
    }
  }

  /** The observation sequence of a phrase: each token's embedding, in order. */
  function Observations(tokens: seq<string>, embed: string -> Vector): (r: seq<Vector>)
    ensures |r| == |tokens|
    ensures forall i :: 0 <= i < |tokens| ==> r[i] == embed(tokens[i])
  {
    seq(|tokens|, i requires 0 <= i < |tokens| => embed(tokens[i]))
  }

  /**
   * Tags a tokenized phrase: embeds every token, asks for the most likely
   * hidden state sequence, and returns those states as tags. `embed` is the
   * embedding lookup and `mostLikely` the decoder, both left uninterpreted; the
   * decoder's empty answer (no possible state sequence) comes back as no tags.
   */
  method Tag(hmm: HMM, tokens: seq<string>, embed: string -> Vector, mostLikely: (HMM, seq<Vector>) -> seq<Tag>)
    returns (res: seq<string>)
    ensures res == mostLikely(hmm, Observations(tokens, embed))
  {
    var obsSeq := new Vector[|tokens|];
    for i := 0 to |tokens|
      invariant forall k :: 0 <= k < i ==> obsSeq[k] == embed(tokens[k])
    {
      obsSeq[i] := embed(tokens[i]);
    }
    assert obsSeq[..] == Observations(tokens, embed);
    var hidden := mostLikely(hmm, obsSeq[..]);
    res := [];
    for i := 0 to |hidden|
      invariant res == hidden[..i]
    {
      res := res + [hidden[i]];
    }
  }
}
