/**
 * The counting pass of maximum-likelihood training, as values: what the trainer's
 * maps hold after each tag, each sample and the whole corpus, and the
 * conservation laws they obey. The imperative trainer in module Training is
 * proved to compute exactly these values.
 */
module Counting {
  import opened Common
  import opened Tally

  /**
   * The trainer's bookkeeping: the registered states, how often each tag starts
   * a sample, how often each tag occurs, and how often each transition occurs.
   */
  datatype Counts = Counts(
    states: seq<Tag>,
    init: map<Tag, nat>,
    visited: map<Tag, nat>,
    trans: map<Transition, nat>)

  /** Before any sample: only the terminal state is registered. */
  const Start: Counts := Counts([EndTag], map[], map[], map[])

  /** Every sample has at least one tag (the trainer reads the first and the last one). */
  predicate TagsPresent(data: seq<Sample>)
  {
    forall i :: 0 <= i < |data| ==> |data[i].tags| > 0
  }

  /**
   * Position `i` of a sample: a tag never visited before is registered as a
   * state, its occurrence is counted, and (past the first position) so is the
   * transition from the previous tag.
   */
  function VisitTag(c: Counts, tags: seq<Tag>, i: nat): Counts
    requires i < |tags|
  {
    var tag := tags[i];
    var states := if Get(c.visited, tag) == 0 then c.states + [tag] else c.states;
    var trans := if i > 0 then Incr(c.trans, Transition(tags[i - 1], tag)) else c.trans;
    Counts(states, c.init, Incr(c.visited, tag), trans)
  }

  /** The first `n` positions of a sample, in order. */
  function VisitTags(c: Counts, tags: seq<Tag>, n: nat): Counts
    requires n <= |tags|
  {
    if n == 0 then c else VisitTag(VisitTags(c, tags, n - 1), tags, n - 1)
  }

  /** The initial count of the sample's first tag bumped, before its positions are visited. */
  function Begin(c: Counts, tags: seq<Tag>): Counts
    requires |tags| > 0
  {
    c.(init := Incr(c.init, tags[0]))
  }

  /** A whole sample: its first tag, every position, and the final transition to the terminal state. */
  function CountSample(c: Counts, tags: seq<Tag>): Counts
    requires |tags| > 0
  {
    var v := VisitTags(Begin(c, tags), tags, |tags|);
    v.(trans := Incr(v.trans, Transition(tags[|tags| - 1], EndTag)))
  }

  /** The samples in order. */
  function CountAll(data: seq<Sample>): Counts
    requires TagsPresent(data)
  {
    if data == [] then Start
    else CountSample(CountAll(data[..|data| - 1]), data[|data| - 1].tags)
  }

  /** Counting one more sample extends the count of the samples before it. */
  lemma CountAllSnoc(data: seq<Sample>, i: nat)
    requires TagsPresent(data) && i < |data|
    ensures TagsPresent(data[..i]) && TagsPresent(data[..i + 1])
    ensures CountAll(data[..i + 1]) == CountSample(CountAll(data[..i]), data[i].tags)
  {
    assert data[..i + 1][..i] == data[..i];
  }

  // ---------------------------------------------------------------------------
  // Reference definitions, independent of the trainer's step-by-step updates.

  /** All tags of the corpus, sample after sample. */
  function Flat(data: seq<Sample>): seq<Tag>
  {
    if data == [] then [] else Flat(data[..|data| - 1]) + data[|data| - 1].tags
  }

  /** Number of occurrences of `t` in `s`. */
  function Occ(s: seq<Tag>, t: Tag): nat
  {
    if s == [] then 0 else Occ(s[..|s| - 1], t) + (if s[|s| - 1] == t then 1 else 0)
  }

  /** The elements of `s` in order of first occurrence. */
  function Distinct(s: seq<Tag>): seq<Tag>
  {
    if s == [] then []
    else
      var d := Distinct(s[..|s| - 1]);
      if s[|s| - 1] in s[..|s| - 1] then d else d + [s[|s| - 1]]
  }

  /** Number of samples whose first tag is `t`. */
  function Starts(data: seq<Sample>, t: Tag): nat
    requires TagsPresent(data)
  {
    if data == [] then 0
    else Starts(data[..|data| - 1], t) + (if data[|data| - 1].tags[0] == t then 1 else 0)
  }

  predicate NoDuplicates(s: seq<Tag>)
  {
    forall i, j :: 0 <= i < j < |s| ==> s[i] != s[j]
  }

  // ---------------------------------------------------------------------------
  // Properties of the reference definitions.

  lemma {:induction false} OccPositive(s: seq<Tag>, t: Tag)
    ensures Occ(s, t) > 0 <==> t in s
  {
    if s != [] {
      OccPositive(s[..|s| - 1], t);
      assert s == s[..|s| - 1] + [s[|s| - 1]];
    }
  }

  /** `Distinct(s)` holds each element of `s` exactly once. */
  lemma {:induction false} DistinctElements(s: seq<Tag>)
    ensures forall x :: x in Distinct(s) <==> x in s
    ensures NoDuplicates(Distinct(s))
  {
    if s != [] {
      DistinctElements(s[..|s| - 1]);
      assert s == s[..|s| - 1] + [s[|s| - 1]];
    }
  }

  lemma FlatSnoc(data: seq<Sample>, x: Sample)
    ensures Flat(data + [x]) == Flat(data) + x.tags
  {
    assert (data + [x])[..|data|] == data;
  }

  // ---------------------------------------------------------------------------
  // States and occurrence counts.

  /** The registered states and the occurrence counts are determined by the tags seen so far. */
  ghost predicate Describes(c: Counts, seen: seq<Tag>)
  {
    && c.states == [EndTag] + Distinct(seen)
    && (forall t :: Get(c.visited, t) == Occ(seen, t))
    && (forall t :: t in c.visited <==> t in seen)
  }

  lemma VisitTagDescribes(c: Counts, tags: seq<Tag>, i: nat, seen: seq<Tag>)
    requires i < |tags| && Describes(c, seen)
    ensures Describes(VisitTag(c, tags, i), seen + [tags[i]])
  {
    var s' := seen + [tags[i]];
    assert s'[..|s'| - 1] == seen;
    OccPositive(seen, tags[i]);
    var c' := VisitTag(c, tags, i);
    forall t ensures Get(c'.visited, t) == Occ(s', t) {
    }
  }

  lemma {:induction false} VisitTagsDescribes(c: Counts, tags: seq<Tag>, n: nat, seen: seq<Tag>)
    requires n <= |tags| && Describes(c, seen)
    ensures Describes(VisitTags(c, tags, n), seen + tags[..n])
  {
    if n == 0 {
      assert seen + tags[..0] == seen;
    } else {
      var prior := seen + tags[..n - 1];
      VisitTagsDescribes(c, tags, n - 1, seen);
      VisitTagDescribes(VisitTags(c, tags, n - 1), tags, n - 1, prior);
      PrefixSnoc(seen, tags, n);
    }
  }

  lemma PrefixSnoc(seen: seq<Tag>, tags: seq<Tag>, n: nat)
    requires 0 < n <= |tags|
    ensures seen + tags[..n - 1] + [tags[n - 1]] == seen + tags[..n]
  {
    assert tags[..n] == tags[..n - 1] + [tags[n - 1]];
  }

  lemma CountSampleDescribes(c: Counts, tags: seq<Tag>, seen: seq<Tag>)
    requires |tags| > 0 && Describes(c, seen)
    ensures Describes(CountSample(c, tags), seen + tags)
  {
    VisitTagsDescribes(Begin(c, tags), tags, |tags|, seen);
    assert tags[..|tags|] == tags;
  }

  /**
   * After the counting pass, the states are the terminal state followed by every
   * tag of the corpus in first-seen order, and each tag's occurrence count is
   * its number of occurrences in the corpus.
   */
  lemma {:induction false} CountAllDescribes(data: seq<Sample>)
    requires TagsPresent(data)
    ensures Describes(CountAll(data), Flat(data))
  {
    if data != [] {
      var init := data[..|data| - 1];
      CountAllDescribes(init);
      CountSampleDescribes(CountAll(init), data[|data| - 1].tags, Flat(init));
    }
  }

  /**
   * The state list has no duplicates exactly when no input tag is the terminal
   * state's label: a tag spelled like the terminal state is registered a second time.
   */
  lemma StatesDistinct(data: seq<Sample>)
    requires TagsPresent(data)
    ensures CountAll(data).states == [EndTag] + Distinct(Flat(data))
    ensures forall t :: t in CountAll(data).states <==> t == EndTag || t in Flat(data)
    ensures NoDuplicates(CountAll(data).states) <==> EndTag !in Flat(data)
  {
    CountAllDescribes(data);
    DistinctElements(Flat(data));
    PrefixedNoDuplicates(EndTag, Distinct(Flat(data)));
  }

  lemma PrefixedNoDuplicates(x: Tag, d: seq<Tag>)
    requires NoDuplicates(d)
    ensures NoDuplicates([x] + d) <==> x !in d
  {
    var st := [x] + d;
    if x in d {
      var j :| 0 <= j < |d| && d[j] == x;
      assert st[0] == st[j + 1];
    } else {
      forall i, j | 0 <= i < j < |st| ensures st[i] != st[j] {
        if i > 0 {
          assert st[i] == d[i - 1] && st[j] == d[j - 1];
        } else {
          assert st[j] == d[j - 1];
        }
      }
    }
  }

  // ---------------------------------------------------------------------------
  // Initial counts.

  lemma {:induction false} VisitTagsKeepsInit(c: Counts, tags: seq<Tag>, n: nat)
    requires n <= |tags|
    ensures VisitTags(c, tags, n).init == c.init
  {
    if n > 0 {
      VisitTagsKeepsInit(c, tags, n - 1);
    }
  }

  /**
   * Each tag's initial count is the number of samples it starts; only tags that
   * start a sample are keys; and the counts sum to the number of samples.
   */
  lemma {:induction false} InitCounts(data: seq<Sample>)
    requires TagsPresent(data)
    ensures forall t :: Get(CountAll(data).init, t) == Starts(data, t)
    ensures forall t :: t in CountAll(data).init <==> Starts(data, t) > 0
    ensures Total(CountAll(data).init) == |data|
  {
    if data != [] {
      var prior := data[..|data| - 1];
      var tags := data[|data| - 1].tags;
      InitCounts(prior);
      var c := CountAll(prior);
      VisitTagsKeepsInit(Begin(c, tags), tags, |tags|);
      assert CountAll(data).init == Incr(c.init, tags[0]);
      TotalIncr(c.init, tags[0]);
    }
  }

  // ---------------------------------------------------------------------------
  // Transition counts.

  lemma {:induction false} VisitTagsTransitions(c: Counts, tags: seq<Tag>, n: nat)
    requires 0 < n <= |tags|
    ensures Total(VisitTags(c, tags, n).trans) == Total(c.trans) + n - 1
  {
    if n > 1 {
      VisitTagsTransitions(c, tags, n - 1);
      TotalIncr(VisitTags(c, tags, n - 1).trans, Transition(tags[n - 2], tags[n - 1]));
    }
  }

  /** A sample with n tags adds exactly n transition counts: n - 1 adjacent pairs and one to the terminal state. */
  lemma SampleTransitions(c: Counts, tags: seq<Tag>)
    requires |tags| > 0
    ensures Total(CountSample(c, tags).trans) == Total(c.trans) + |tags|
  {
    var b := Begin(c, tags);
    VisitTagsTransitions(b, tags, |tags|);
    var v := VisitTags(b, tags, |tags|);
    TotalIncr(v.trans, Transition(tags[|tags| - 1], EndTag));
  }

  /** Every occurrence of a tag is followed by exactly one counted transition out of it. */
  ghost predicate Balanced(c: Counts)
  {
    forall s :: Total(Out(c.trans, s)) == Get(c.visited, s)
  }

  /** Mid-sample: every occurrence but the latest one, of `p`, has its outgoing transition counted. */
  ghost predicate Pending(c: Counts, p: Tag)
  {
    forall s :: Total(Out(c.trans, s)) + (if s == p then 1 else 0) == Get(c.visited, s)
  }

  lemma {:induction false} VisitTagsPending(c: Counts, tags: seq<Tag>, n: nat)
    requires 0 < n <= |tags| && Balanced(c)
    ensures Pending(VisitTags(c, tags, n), tags[n - 1])
  {
    var prev := VisitTags(c, tags, n - 1);
    var next := VisitTags(c, tags, n);
    if n == 1 {
      forall s ensures Total(Out(next.trans, s)) + (if s == tags[0] then 1 else 0) == Get(next.visited, s) {
        assert Get(next.visited, s) == Get(c.visited, s) + (if s == tags[0] then 1 else 0);
      }
    } else {
      VisitTagsPending(c, tags, n - 1);
      var k := Transition(tags[n - 2], tags[n - 1]);
      forall s ensures Total(Out(next.trans, s)) + (if s == tags[n - 1] then 1 else 0) == Get(next.visited, s) {
        OutTotalIncr(prev.trans, k, s);
        assert Get(next.visited, s) == Get(prev.visited, s) + (if s == tags[n - 1] then 1 else 0);
      }
    }
  }

  lemma SampleBalanced(c: Counts, tags: seq<Tag>)
    requires |tags| > 0 && Balanced(c)
    ensures Balanced(CountSample(c, tags))
  {
    var b := Begin(c, tags);
    VisitTagsPending(b, tags, |tags|);
    var v := VisitTags(b, tags, |tags|);
    var k := Transition(tags[|tags| - 1], EndTag);
    forall s ensures Total(Out(Incr(v.trans, k), s)) == Get(v.visited, s) {
      OutTotalIncr(v.trans, k, s);
    }
  }

  /** For every tag, the transitions counted out of it add up to its occurrence count. */
  lemma {:induction false} TransitionsBalanced(data: seq<Sample>)
    requires TagsPresent(data)
    ensures Balanced(CountAll(data))
  {
    if data != [] {
      TransitionsBalanced(data[..|data| - 1]);
      SampleBalanced(CountAll(data[..|data| - 1]), data[|data| - 1].tags);
    } else {
      forall s ensures Total(Out(Start.trans, s)) == Get(Start.visited, s) {
        assert Out(Start.trans, s) == map[];
      }
    }
  }

  /** The corpus has as many transition counts as tags. */
  lemma {:induction false} TransitionTotal(data: seq<Sample>)
    requires TagsPresent(data)
    ensures Total(CountAll(data).trans) == |Flat(data)|
  {
    if data != [] {
      TransitionTotal(data[..|data| - 1]);
      SampleTransitions(CountAll(data[..|data| - 1]), data[|data| - 1].tags);
    }
  }

  // ---------------------------------------------------------------------------
  // Which transitions exist.

  /** Every transition leaves a visited tag and enters a visited tag or the terminal state. */
  ghost predicate KeysVisited(c: Counts)
  {
    forall t :: t in c.trans ==> t.from in c.visited && (t.to == EndTag || t.to in c.visited)
  }

  lemma {:induction false} VisitTagsKeys(c: Counts, tags: seq<Tag>, n: nat)
    requires n <= |tags| && KeysVisited(c)
    ensures KeysVisited(VisitTags(c, tags, n))
    ensures n > 0 ==> tags[n - 1] in VisitTags(c, tags, n).visited
  {
    if n > 0 {
      VisitTagsKeys(c, tags, n - 1);
      VisitTagKeys(VisitTags(c, tags, n - 1), tags, n - 1);
    }
  }

  lemma VisitTagKeys(c: Counts, tags: seq<Tag>, i: nat)
    requires i < |tags| && KeysVisited(c)
    requires i > 0 ==> tags[i - 1] in c.visited
    ensures KeysVisited(VisitTag(c, tags, i)) && tags[i] in VisitTag(c, tags, i).visited
  {
  }

  lemma {:induction false} CountAllKeys(data: seq<Sample>)
    requires TagsPresent(data)
    ensures KeysVisited(CountAll(data))
  {
    if data != [] {
      var prior := data[..|data| - 1];
      var tags := data[|data| - 1].tags;
      CountAllKeys(prior);
      CountAllDescribes(prior);
      VisitTagsKeys(Begin(CountAll(prior), tags), tags, |tags|);
    }
  }

  /**
   * Transitions leave tags of the corpus only (so never the terminal state, when
   * no tag is spelled like it) and enter a tag of the corpus or the terminal state;
   * every source has a positive occurrence count.
   */
  lemma TransitionKeys(data: seq<Sample>)
    requires TagsPresent(data)
    ensures forall t :: t in CountAll(data).trans ==>
      t.from in Flat(data) && (t.to == EndTag || t.to in Flat(data))
    ensures forall t :: t in CountAll(data).trans ==> Get(CountAll(data).visited, t.from) > 0
    ensures EndTag !in Flat(data) ==> forall t :: t in CountAll(data).trans ==> t.from != EndTag
  {
    CountAllKeys(data);
    CountAllDescribes(data);
    forall t | t in CountAll(data).trans ensures Get(CountAll(data).visited, t.from) > 0 {
      OccPositive(Flat(data), t.from);
    }
  }

  // ---------------------------------------------------------------------------
  // Normalisation.

  /** Each transition count divided by the occurrence count of its source. */
  function TransitionRatios(trans: map<Transition, nat>, visited: map<Tag, nat>): (r: map<Transition, real>)
    requires forall t :: t in trans ==> Get(visited, t.from) > 0
    ensures r.Keys == trans.Keys
  {
    map t | t in trans :: trans[t] as real / Get(visited, t.from) as real
  }

  /** Counts that add up to their denominator give ratios that add up to one. */
  lemma RatiosSumToOne<K>(m: map<K, nat>, d: nat)
    requires d > 0 && Total(m) == d
    ensures RealTotal(Ratios(m, d)) == 1.0
  {
    RatiosTotal(m, d);
    OneRatio(d as real);
  }

  lemma OneRatio(r: real)
    requires r > 0.0
    ensures r / r == 1.0
  {
  }

  /** The normalised initial ratios form a probability distribution. */
  lemma InitDistribution(data: seq<Sample>)
    requires TagsPresent(data) && |data| > 0
    ensures RealTotal(Ratios(CountAll(data).init, |data|)) == 1.0
  {
    InitCounts(data);
    RatiosSumToOne(CountAll(data).init, |data|);
  }

  /** For every visited tag, the normalised ratios of its outgoing transitions form a probability distribution. */
  lemma TransitionDistribution(data: seq<Sample>, s: Tag)
    requires TagsPresent(data) && s in CountAll(data).visited
    ensures forall t :: t in CountAll(data).trans ==> Get(CountAll(data).visited, t.from) > 0
    ensures RealTotal(Out(TransitionRatios(CountAll(data).trans, CountAll(data).visited), s)) == 1.0
  {
    var c := CountAll(data);
    TransitionKeys(data);
    TransitionsBalanced(data);
    var v := Get(c.visited, s);
    assert v > 0 by {
      CountAllDescribes(data);
      OccPositive(Flat(data), s);
    }
    assert Out(TransitionRatios(c.trans, c.visited), s) == Ratios(Out(c.trans, s), v);
    RatiosSumToOne(Out(c.trans, s), v);
  }
}
