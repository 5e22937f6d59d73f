/** Types shared by the trainer, the corpus reader and the tagger. */
module Common {

  /** A hidden state: a part-of-speech tag label. */
  type Tag = string

  /** The terminal state every tagged sentence must move into after its last tag. */
  const EndTag: Tag := "<end>"

  /** An embedding vector; its numerics are not part of this model. */
  type Vector = seq<real>

  /** One labelled sentence: tokens and their gold tags, position by position. */
  datatype Sample = Sample(tokens: seq<string>, tags: seq<Tag>)

  /** An ordered pair of states, the key of the transition table. */
  datatype Transition = Transition(from: Tag, to: Tag)

  datatype Option<T> = None | Some(value: T)

  /**
   * The parameters of a hidden Markov model: the state enumeration, the terminal
   * state, and log-probabilities for initial states and transitions. An absent
   * entry stands for an impossible event.
   */
  datatype HMM = HMM(
    states: seq<Tag>,
    terminal: Tag,
    init: map<Tag, real>,
    transitions: map<Transition, real>)
}
