/**
 * The corpus reader. A corpus file holds one token per line: the token, its tag
 * and at least one more whitespace-separated field. A line holding only a
 * newline ends the current sentence. The file is given here as its whole
 * content; reading it from disk is not part of this model.
 */
module Corpus {
  import opened Common

  datatype ReadError = InvalidLine(line: string)

  datatype Result<T> = Success(value: T) | Failure(error: ReadError)

  /** A sub-word tokenizer, when one is used: maps a word to its sub-tokens. */
  type Tokenizer = Option<string -> seq<string>>

  // ---------------------------------------------------------------------------
  // Whitespace and fields.

  /** The white space characters of Unicode, as Go's unicode.IsSpace recognises them. */
  predicate IsSpace(c: char)
  {
    || c == ' ' || c == '\t' || c == '\n' || c == '\r' || c == '\U{000B}' || c == '\U{000C}'
    || c == '\U{0085}' || c == '\U{00A0}' || c == '\U{1680}'
    || ('\U{2000}' <= c <= '\U{200A}')
    || c == '\U{2028}' || c == '\U{2029}' || c == '\U{202F}' || c == '\U{205F}' || c == '\U{3000}'
  }

  predicate NoSpace(s: string)
  {
    forall i :: 0 <= i < |s| ==> !IsSpace(s[i])
  }

  /** Length of the longest prefix of `s` without white space. */
  function WordLength(s: string): (n: nat)
    ensures n <= |s| && NoSpace(s[..n])
    ensures n < |s| ==> IsSpace(s[n])
    ensures s != [] && !IsSpace(s[0]) ==> n > 0
  {
    if s == [] || IsSpace(s[0]) then 0
    else
      var n := 1 + WordLength(s[1..]);
      assert s[..n] == [s[0]] + s[1..][..n - 1];
      n
  }

  /** The maximal runs of non-white-space characters of `s`, in order (Go's strings.Fields). */
  function Fields(s: string): (r: seq<string>)
    ensures forall i :: 0 <= i < |r| ==> |r[i]| > 0 && NoSpace(r[i])
    decreases |s|
  {
    if s == [] then []
    else if IsSpace(s[0]) then Fields(s[1..])
    else
      var n := WordLength(s);
      [s[..n]] + Fields(s[n..])
  }

  /** `s` without its white space characters. */
  function Squeeze(s: string): string
  {
    if s == [] then [] else (if IsSpace(s[0]) then [] else [s[0]]) + Squeeze(s[1..])
  }

  function Concat(ss: seq<string>): string
  {
    if ss == [] then [] else ss[0] + Concat(ss[1..])
  }

  lemma {:induction false} SqueezeAppend(a: string, b: string)
    ensures Squeeze(a + b) == Squeeze(a) + Squeeze(b)
  {
    if a != [] {
      SqueezeAppend(a[1..], b);
      assert (a + b)[1..] == a[1..] + b;
    } else {
      assert a + b == b;
    }
  }

  lemma {:induction false} SqueezeWord(w: string)
    requires NoSpace(w)
    ensures Squeeze(w) == w
  {
    if w != [] {
      SqueezeWord(w[1..]);
    }
  }

  /**
   * The fields, joined, are the line without its white space: splitting loses
   * only white space and keeps every other character in order.
   */
  lemma {:induction false} FieldsJoin(s: string)
    ensures Concat(Fields(s)) == Squeeze(s)
    decreases |s|
  {
    if s != [] {
      if IsSpace(s[0]) {
        FieldsJoin(s[1..]);
      } else {
        var n := WordLength(s);
        FieldsJoin(s[n..]);
        assert s == s[..n] + s[n..];
        SqueezeAppend(s[..n], s[n..]);
        SqueezeWord(s[..n]);
      }
    }
  }

  /** A word ends at the first white space: text after white space does not lengthen it. */
  lemma {:induction false} WordLengthAppend(a: string, t: string)
    requires WordLength(a) < |a| || (t != [] && IsSpace(t[0]))
    ensures WordLength(a + t) == WordLength(a)
    decreases |a|
  {
    if a == [] {
      assert a + t == t;
    } else if !IsSpace(a[0]) {
      assert (a + t)[1..] == a[1..] + t;
      WordLengthAppend(a[1..], t);
    }
  }

  lemma {:induction false} WordLengthAll(w: string)
    requires NoSpace(w)
    ensures WordLength(w) == |w|
  {
    if w != [] {
      WordLengthAll(w[1..]);
    }
  }

  /** Text without white space is a single field. */
  lemma FieldsWord(w: string)
    requires w != [] && NoSpace(w)
    ensures Fields(w) == [w]
  {
    WordLengthAll(w);
    assert w[..|w|] == w;
    assert w[|w|..] == [];
  }

  /** A white space character always separates fields: the fields on its two sides never merge. */
  lemma {:induction false} FieldsSplit(a: string, c: char, b: string)
    requires IsSpace(c)
    ensures Fields(a + [c] + b) == Fields(a) + Fields(b)
    decreases |a|
  {
    var s := a + [c] + b;
    if a == [] {
      assert s[1..] == b;
    } else if IsSpace(a[0]) {
      assert s[1..] == a[1..] + [c] + b;
      FieldsSplit(a[1..], c, b);
    } else {
      var k := WordLength(a);
      WordLengthAppend(a, [c] + b);
      assert s == a + ([c] + b);
      assert s[..k] == a[..k];
      assert s[k..] == a[k..] + [c] + b;
      FieldsSplit(a[k..], c, b);
    }
  }

  /** A line has no fields exactly when it is all white space. */
  lemma {:induction false} FieldsEmpty(s: string)
    ensures Fields(s) == [] <==> forall i :: 0 <= i < |s| ==> IsSpace(s[i])
    decreases |s|
  {
    if s != [] {
      FieldsEmpty(s[1..]);
      assert forall i :: 1 <= i < |s| ==> s[i] == s[1..][i - 1];
    }
  }

  // ---------------------------------------------------------------------------
  // Reading lines.

  /** What one call to the buffered reader's ReadString('\n') yields. */
  datatype Read =
    | Line(line: string, rest: string)  // up to and including the next newline
    | Eof(partial: string)              // no newline left: the remaining text

  function ReadString(s: string): (r: Read)
    ensures r.Line? ==> r.line + r.rest == s && |r.line| > 0
    ensures r.Line? ==> r.line[|r.line| - 1] == '\n' && '\n' !in r.line[..|r.line| - 1]
    ensures r.Eof? ==> r.partial == s && '\n' !in s
  {
    if s == [] then Eof([])
    else if s[0] == '\n' then Line("\n", s[1..])
    else
      match ReadString(s[1..])
      case Line(l, rest) =>
        assert ([s[0]] + l)[..|l|] == [s[0]] + l[..|l| - 1];
        Line([s[0]] + l, rest)
      case Eof(p) => Eof([s[0]] + p)
  }

  /** The lines ReadString returns before it reports the end of the file. */
  function CompleteLines(s: string): seq<string>
    decreases |s|
  {
    match ReadString(s)
    case Eof(_) => []
    case Line(l, rest) => [l] + CompleteLines(rest)
  }

  /** The text after the last newline, which the reader returns together with the end of the file. */
  function Trailing(s: string): string
    decreases |s|
  {
    match ReadString(s)
    case Eof(p) => p
    case Line(_, rest) => Trailing(rest)
  }

  predicate IsLine(l: string)
  {
    |l| > 0 && l[|l| - 1] == '\n' && '\n' !in l[..|l| - 1]
  }

  /** The complete lines followed by the trailing text give back the whole file. */
  lemma {:induction false} LinesRoundTrip(s: string)
    ensures Concat(CompleteLines(s)) + Trailing(s) == s
    decreases |s|
  {
    match ReadString(s)
    case Eof(_) =>
    case Line(l, rest) =>
      LinesRoundTrip(rest);
      var ls := CompleteLines(rest);
      assert CompleteLines(s) == [l] + ls;
      assert ([l] + ls)[1..] == ls;
      assert Concat([l] + ls) == l + Concat(ls);
  }

  /** Each complete line holds exactly one newline, at its end, and the trailing text holds none. */
  lemma {:induction false} LinesWellFormed(s: string)
    ensures forall i :: 0 <= i < |CompleteLines(s)| ==> IsLine(CompleteLines(s)[i])
    ensures '\n' !in Trailing(s)
    decreases |s|
  {
    match ReadString(s)
    case Eof(_) =>
    case Line(l, rest) =>
      LinesWellFormed(rest);
      var ls := CompleteLines(rest);
      assert CompleteLines(s) == [l] + ls;
      assert IsLine(l);
  }

  lemma {:induction false} ReadStringAppend(a: string, b: string)
    requires ReadString(a).Line?
    ensures ReadString(a + b) == Line(ReadString(a).line, ReadString(a).rest + b)
  {
    if a[0] != '\n' {
      ReadStringAppend(a[1..], b);
      assert (a + b)[1..] == a[1..] + b;
    }
  }

  /**
   * Reading a file that ends with a newline and then more text yields the first
   * file's lines followed by the more text's lines.
   */
  lemma {:induction false} LinesAppend(a: string, b: string)
    requires a == [] || a[|a| - 1] == '\n'
    ensures CompleteLines(a + b) == CompleteLines(a) + CompleteLines(b)
    decreases |a|
  {
    if a == [] {
      assert a + b == b;
    } else {
      EndsWithLine(a);
      var r := ReadString(a);
      LinesAppend(r.rest, b);
      LinesAppendStep(a, b);
    }
  }

  /** A non-empty text ending in a newline holds a first line, and what follows it ends in a newline too. */
  lemma EndsWithLine(a: string)
    requires a != [] && a[|a| - 1] == '\n'
    ensures ReadString(a).Line?
    ensures ReadString(a).rest == [] || ReadString(a).rest[|ReadString(a).rest| - 1] == '\n'
  {
    assert a[|a| - 1] in a;
    var r := ReadString(a);
    assert a == r.line + r.rest;
  }

  lemma LinesAppendStep(a: string, b: string)
    requires ReadString(a).Line?
    requires CompleteLines(ReadString(a).rest + b) == CompleteLines(ReadString(a).rest) + CompleteLines(b)
    ensures CompleteLines(a + b) == CompleteLines(a) + CompleteLines(b)
  {
    var r := ReadString(a);
    ReadStringAppend(a, b);
    CompleteLinesStep(a);
    CompleteLinesStep(a + b);
    AppendAssociates([r.line], CompleteLines(r.rest), CompleteLines(b));
  }

  lemma AppendAssociates<T>(x: seq<T>, y: seq<T>, z: seq<T>)
    ensures x + (y + z) == (x + y) + z
  {
  }

  /** A file with a complete first line reads as that line followed by the lines of the rest. */
  lemma CompleteLinesStep(s: string)
    requires ReadString(s).Line?
    ensures CompleteLines(s) == [ReadString(s).line] + CompleteLines(ReadString(s).rest)
  {
  }


  // ---------------------------------------------------------------------------
  // Lines, sentences and samples.

  /** A line that carries a token: at least three fields. */
  predicate TokenLine(l: string)
  {
    |Fields(l)| >= 3
  }

  /** A line the reader rejects: neither a bare newline nor a token line. */
  predicate Invalid(l: string)
  {
    l != "\n" && !TokenLine(l)
  }

  /** The first rejected line, if any. */
  function FirstInvalid(lines: seq<string>): (r: Option<string>)
    ensures r.Some? ==> r.value in lines && Invalid(r.value)
    ensures r.None? <==> forall i :: 0 <= i < |lines| ==> !Invalid(lines[i])
  {
    if lines == [] then None
    else
      match FirstInvalid(lines[..|lines| - 1])
      case Some(l) => Some(l)
      case None => if Invalid(lines[|lines| - 1]) then Some(lines[|lines| - 1]) else None
  }

  /** The reported line is the first rejected one: every line before it is accepted. */
  lemma {:induction false} FirstInvalidIsFirst(lines: seq<string>)
    requires FirstInvalid(lines).Some?
    ensures exists i :: (0 <= i < |lines| && lines[i] == FirstInvalid(lines).value && Invalid(lines[i])
      && forall j :: 0 <= j < i ==> !Invalid(lines[j]))
  {
    var prior := lines[..|lines| - 1];
    match FirstInvalid(prior)
    case Some(l) =>
      FirstInvalidIsFirst(prior);
      var i :| 0 <= i < |prior| && prior[i] == l && Invalid(prior[i]) && forall j :: 0 <= j < i ==> !Invalid(prior[j]);
      assert lines[i] == prior[i];
      assert forall j :: 0 <= j < i ==> lines[j] == prior[j];
    case None =>
      var i := |lines| - 1;
      assert forall j :: 0 <= j < i ==> lines[j] == prior[j];
  }

  /**
   * The tokens and tags a token line adds to its sentence: the first field, or
   * the tokenizer's sub-tokens of it, each tagged with the second field. Any
   * further fields are ignored. Other lines add nothing (the reader fails on
   * them before they would be used).
   */
  function Contribution(l: string, tokenizer: Tokenizer): (r: Sample)
    ensures |r.tokens| == |r.tags|
    ensures TokenLine(l) ==> forall i :: 0 <= i < |r.tags| ==> r.tags[i] == Fields(l)[1]
    ensures TokenLine(l) && tokenizer.None? ==> r.tokens == [Fields(l)[0]]
    ensures TokenLine(l) && tokenizer.Some? ==> r.tokens == tokenizer.value(Fields(l)[0])
  {
    var f := Fields(l);
    if |f| < 3 then Sample([], [])
    else
      var tokens := if tokenizer.Some? then tokenizer.value(f[0]) else [f[0]];
      Sample(tokens, seq(|tokens|, _ => f[1]))
  }

  function Append(a: Sample, b: Sample): Sample
  {
    Sample(a.tokens + b.tokens, a.tags + b.tags)
  }

  /** The sentence made of the given token lines. */
  function SampleOf(group: seq<string>, tokenizer: Tokenizer): Sample
  {
    if group == [] then Sample([], [])
    else Append(SampleOf(group[..|group| - 1], tokenizer), Contribution(group[|group| - 1], tokenizer))
  }

  /** The groups of lines each closed by a bare-newline line; lines after the last one belong to no group. */
  function Sentences(lines: seq<string>): seq<seq<string>>
  {
    if lines == [] then []
    else
      var prior := lines[..|lines| - 1];
      if lines[|lines| - 1] == "\n" then Sentences(prior) + [Pending(prior)] else Sentences(prior)
  }

  /** The lines after the last bare-newline line: the sentence still open. */
  function Pending(lines: seq<string>): seq<string>
  {
    if lines == [] then []
    else
      var prior := lines[..|lines| - 1];
      if lines[|lines| - 1] == "\n" then [] else Pending(prior) + [lines[|lines| - 1]]
  }

  function SamplesOf(groups: seq<seq<string>>, tokenizer: Tokenizer): (r: seq<Sample>)
    ensures |r| == |groups|
  {
    if groups == [] then []
    else SamplesOf(groups[..|groups| - 1], tokenizer) + [SampleOf(groups[|groups| - 1], tokenizer)]
  }

  /**
   * The reader's result, from the file's complete lines: the first rejected
   * line as an error, or one sample per closed sentence.
   */
  function Parse(content: string, tokenizer: Tokenizer): Result<seq<Sample>>
  {
    var lines := CompleteLines(content);
    match FirstInvalid(lines)
    case Some(l) => Failure(InvalidLine(l))
    case None => Success(SamplesOf(Sentences(lines), tokenizer))
  }

  // ---------------------------------------------------------------------------
  // The reader.

  /**
   * Reads the samples of a corpus: line by line, a bare newline closes the
   * current sentence, any other line must have at least three fields and adds
   * its token (or the tokenizer's sub-tokens) with its tag.
   */
  method ReadSamples(content: string, tokenizer: Tokenizer) returns (res: Result<seq<Sample>>)
    ensures res == Parse(content, tokenizer)
  {
    var data: seq<Sample> := [];
    var cur := Sample([], []);
    var rest := content;
    ghost var consumed: seq<string> := [];
    while true
      invariant CompleteLines(content) == consumed + CompleteLines(rest)
      invariant FirstInvalid(consumed) == None
      invariant data == SamplesOf(Sentences(consumed), tokenizer)
      invariant cur == SampleOf(Pending(consumed), tokenizer)
      decreases |rest|
    {
      var r := ReadString(rest);
      if r.Eof? {
        break;
      }
      var line := r.line;
      NextLine(content, consumed, rest);
      ReadLineStep(consumed, line, tokenizer);
      consumed := consumed + [line];
      rest := r.rest;
      if line == "\n" {
        data := data + [cur];
        cur := Sample([], []);
        continue;
      }
      var fields := Fields(line);
      if |fields| < 3 {
        assert FirstInvalid(consumed) == Some(line);
        FirstInvalidPrefix(consumed, CompleteLines(rest));
        res := Failure(InvalidLine(line));
        assert res == Parse(content, tokenizer);
        return;
      }
      var tokens := [fields[0]];
      if tokenizer.Some? {
        tokens := tokenizer.value(tokens[0]);
      }
      cur := AddTokens(cur, tokens, fields[1]);
    }
    assert CompleteLines(rest) == [];
    assert consumed + [] == consumed;
    return Success(data);
  }

  /** Appends each token to the sentence, each with the same tag. */
  method AddTokens(cur: Sample, tokens: seq<string>, tag: Tag) returns (r: Sample)
    ensures r.tokens == cur.tokens + tokens
    ensures r.tags == cur.tags + seq(|tokens|, _ => tag)
  {
    r := cur;
    for k := 0 to |tokens|
      invariant r.tokens == cur.tokens + tokens[..k]
      invariant r.tags == cur.tags + seq(k, _ => tag)
    {
      r := Sample(r.tokens + [tokens[k]], r.tags + [tag]);
      assert tokens[..k + 1] == tokens[..k] + [tokens[k]];
      assert seq(k + 1, _ => tag) == seq(k, _ => tag) + [tag];
    }
    assert tokens[..|tokens|] == tokens;
  }

  lemma {:induction false} FirstInvalidPrefix(a: seq<string>, b: seq<string>)
    requires FirstInvalid(a).Some?
    ensures FirstInvalid(a + b) == FirstInvalid(a)
    decreases |b|
  {
    if b == [] {
      assert a + b == a;
    } else {
      var b' := b[..|b| - 1];
      FirstInvalidPrefix(a, b');
      assert (a + b)[..|a + b| - 1] == a + b';
    }
  }

  /** How one more line changes the closed sentences, the open one and the first rejected line. */
  lemma ReadLineStep(before: seq<string>, line: string, tokenizer: Tokenizer)
    ensures line == "\n" ==> (SamplesOf(Sentences(before + [line]), tokenizer)
      == SamplesOf(Sentences(before), tokenizer) + [SampleOf(Pending(before), tokenizer)])
    ensures line == "\n" ==> Pending(before + [line]) == []
    ensures line != "\n" ==> Sentences(before + [line]) == Sentences(before)
    ensures line != "\n" ==> (SampleOf(Pending(before + [line]), tokenizer)
      == Append(SampleOf(Pending(before), tokenizer), Contribution(line, tokenizer)))
    ensures FirstInvalid(before + [line])
      == if FirstInvalid(before).Some? then FirstInvalid(before) else if Invalid(line) then Some(line) else None
  {
    var lines := before + [line];
    assert lines[..|lines| - 1] == before;
    if line == "\n" {
      var gs := Sentences(before) + [Pending(before)];
      assert gs[..|gs| - 1] == Sentences(before);
    } else {
      var p := Pending(before) + [line];
      assert p[..|p| - 1] == Pending(before);
    }
  }

  /** Reading one more line moves it from the unread lines to the consumed ones. */
  lemma NextLine(content: string, consumed: seq<string>, rest: string)
    requires CompleteLines(content) == consumed + CompleteLines(rest)
    requires ReadString(rest).Line?
    ensures CompleteLines(content) == consumed + [ReadString(rest).line] + CompleteLines(ReadString(rest).rest)
  {
    var r := ReadString(rest);
    assert CompleteLines(rest) == [r.line] + CompleteLines(r.rest);
    assert consumed + ([r.line] + CompleteLines(r.rest)) == consumed + [r.line] + CompleteLines(r.rest);
  }

  // ---------------------------------------------------------------------------
  // Properties of the reader.

  /** Number of bare-newline lines. */
  function Blanks(lines: seq<string>): nat
  {
    if lines == [] then 0
    else Blanks(lines[..|lines| - 1]) + (if lines[|lines| - 1] == "\n" then 1 else 0)
  }

  lemma {:induction false} SentencesCount(lines: seq<string>)
    ensures |Sentences(lines)| == Blanks(lines)
  {
    if lines != [] {
      SentencesCount(lines[..|lines| - 1]);
    }
  }

  /** One sample per bare-newline line read before the end of the file. */
  lemma SampleCount(content: string, tokenizer: Tokenizer)
    requires Parse(content, tokenizer).Success?
    ensures |Parse(content, tokenizer).value| == Blanks(CompleteLines(content))
  {
    SentencesCount(CompleteLines(content));
  }

  lemma {:induction false} SampleOfAligned(group: seq<string>, tokenizer: Tokenizer)
    ensures |SampleOf(group, tokenizer).tokens| == |SampleOf(group, tokenizer).tags|
  {
    if group != [] {
      SampleOfAligned(group[..|group| - 1], tokenizer);
    }
  }

  lemma {:induction false} SamplesOfAt(groups: seq<seq<string>>, tokenizer: Tokenizer, i: nat)
    requires i < |groups|
    ensures SamplesOf(groups, tokenizer)[i] == SampleOf(groups[i], tokenizer)
  {
    if i < |groups| - 1 {
      SamplesOfAt(groups[..|groups| - 1], tokenizer, i);
    }
  }

  /** Every sample read has as many tags as tokens. */
  lemma SamplesAligned(content: string, tokenizer: Tokenizer)
    requires Parse(content, tokenizer).Success?
    ensures forall s :: s in Parse(content, tokenizer).value ==> |s.tokens| == |s.tags|
  {
    var gs := Sentences(CompleteLines(content));
    forall s | s in SamplesOf(gs, tokenizer) ensures |s.tokens| == |s.tags| {
      var i :| 0 <= i < |gs| && SamplesOf(gs, tokenizer)[i] == s;
      SamplesOfAt(gs, tokenizer, i);
      SampleOfAligned(gs[i], tokenizer);
    }
  }

  /** Lines after the last bare-newline line close no sentence. */
  lemma {:induction false} OpenSentenceDropped(lines: seq<string>, extra: seq<string>)
    requires forall i :: 0 <= i < |extra| ==> extra[i] != "\n"
    ensures Sentences(lines + extra) == Sentences(lines)
  {
    if extra == [] {
      assert lines + extra == lines;
    } else {
      var e := extra[..|extra| - 1];
      OpenSentenceDropped(lines, e);
      assert (lines + extra)[..|lines + extra| - 1] == lines + e;
    }
  }

  /** A last line without a newline is ignored, whatever it holds. */
  lemma UnterminatedLineIgnored(content: string, fragment: string, tokenizer: Tokenizer)
    requires content == [] || content[|content| - 1] == '\n'
    requires '\n' !in fragment
    ensures Parse(content + fragment, tokenizer) == Parse(content, tokenizer)
  {
    LinesAppend(content, fragment);
    assert CompleteLines(fragment) == [];
    assert CompleteLines(content) + [] == CompleteLines(content);
  }

  /** A token line never closes a sentence. */
  lemma TokenLineNotBlank(l: string)
    requires TokenLine(l)
    ensures l != "\n"
  {
    if l == "\n" {
      FieldsEmpty(l);
      assert false;
    }
  }

  /**
   * Well-formed token lines after the last bare-newline line are read, and then
   * dropped: the result is the same as without them.
   */
  lemma TrailingLinesDropped(content: string, more: string, tokenizer: Tokenizer)
    requires content == [] || content[|content| - 1] == '\n'
    requires forall i :: 0 <= i < |CompleteLines(more)| ==> TokenLine(CompleteLines(more)[i])
    ensures Parse(content + more, tokenizer) == Parse(content, tokenizer)
  {
    var a, b := CompleteLines(content), CompleteLines(more);
    LinesAppend(content, more);
    assert CompleteLines(content + more) == a + b;
    forall i | 0 <= i < |b| ensures b[i] != "\n" {
      TokenLineNotBlank(b[i]);
    }
    OpenSentenceDropped(a, b);
    assert FirstInvalid(a + b) == FirstInvalid(a) by {
      FirstInvalidValidLines(a, b);
    }
  }

  lemma FirstInvalidValidLines(a: seq<string>, b: seq<string>)
    requires forall i :: 0 <= i < |b| ==> !Invalid(b[i])
    ensures FirstInvalid(a + b) == FirstInvalid(a)
  {
    if FirstInvalid(a).Some? {
      FirstInvalidPrefix(a, b);
    } else {
      forall i | 0 <= i < |a + b| ensures !Invalid((a + b)[i]) {
        if i >= |a| {
          assert (a + b)[i] == b[i - |a|];
        } else {
          assert (a + b)[i] == a[i];
        }
      }
    }
  }

  /** A line of white space only, other than a bare newline, is rejected (for instance a space then a newline). */
  lemma BlankLookingLineRejected(line: string)
    requires line != "\n"
    requires forall i :: 0 <= i < |line| ==> IsSpace(line[i])
    ensures Invalid(line)
  {
    FieldsEmpty(line);
  }

  /** A file holding only a space and a newline is rejected. */
  lemma SpaceLineFails(tokenizer: Tokenizer)
    ensures Parse(" \n", tokenizer) == Failure(InvalidLine(" \n"))
  {
    var content := " \n";
    assert content[1..] == "\n";
    assert ReadString("\n") == Line("\n", []) by { assert "\n"[1..] == []; }
    assert ReadString(content) == Line(" \n", []);
    assert CompleteLines(content) == [" \n"];
    BlankLookingLineRejected(" \n");
    assert [" \n"][..0] == [];
  }

  /**
   * A file holding only a bare-newline line closes an empty sentence: the
   * reader gives a sample with no tokens and no tags, though the trainer needs
   * at least one tag per sample.
   */
  lemma EmptySentence(tokenizer: Tokenizer)
    ensures Parse("\n", tokenizer) == Success([Sample([], [])])
  {
    assert ReadString("\n") == Line("\n", []) by { assert "\n"[1..] == []; }
    assert CompleteLines("\n") == ["\n"];
    assert ["\n"][..0] == [];
    assert Sentences(["\n"]) == [[]];
    assert FirstInvalid(["\n"]) == None;
    var groups: seq<seq<string>> := [[]];
    assert groups[..0] == [];
    assert SamplesOf(groups, tokenizer) == [Sample([], [])];
  }

  /**
   * A bare-newline line right after another closes an empty sentence too: two
   * more blank lines after a well-read file add the open sentence and then a
   * sample with no tokens and no tags.
   */
  lemma BlankAfterBlank(content: string, tokenizer: Tokenizer)
    requires content == [] || content[|content| - 1] == '\n'
    requires Parse(content, tokenizer).Success?
    ensures Parse(content + "\n\n", tokenizer) == Success(Parse(content, tokenizer).value
      + [SampleOf(Pending(CompleteLines(content)), tokenizer), Sample([], [])])
  {
    var a := CompleteLines(content);
    var blanks := ["\n", "\n"];
    assert CompleteLines(content + "\n\n") == a + blanks by {
      LinesAppend(content, "\n\n");
      assert ReadString("\n") == Line("\n", []) by { assert "\n"[1..] == []; }
      assert ReadString("\n\n") == Line("\n", "\n") by { assert "\n\n"[1..] == "\n"; }
    }
    assert FirstInvalid(a + blanks) == None by {
      FirstInvalidValidLines(a, blanks);
    }
    SentencesBlanks(a);
    SamplesOfTwo(Sentences(a), Pending(a), [], tokenizer);
  }

  lemma SamplesOfTwo(gs: seq<seq<string>>, p: seq<string>, q: seq<string>, tokenizer: Tokenizer)
    ensures SamplesOf(gs + [p, q], tokenizer) == SamplesOf(gs, tokenizer) + [SampleOf(p, tokenizer), SampleOf(q, tokenizer)]
  {
    var two := gs + [p, q];
    assert two[..|two| - 1] == gs + [p];
    assert (gs + [p])[..|gs|] == gs;
  }

  lemma SentencesBlanks(a: seq<string>)
    ensures Sentences(a + ["\n", "\n"]) == Sentences(a) + [Pending(a), []]
  {
    var one := a + ["\n"];
    var two := a + ["\n", "\n"];
    assert two[..|two| - 1] == one;
    assert one[..|one| - 1] == a;
  }

  /** Fields past the second never matter, beyond making the line long enough. */
  lemma ExtraFieldsIgnored(a: string, b: string, tokenizer: Tokenizer)
    requires TokenLine(a) && TokenLine(b)
    requires Fields(a)[..2] == Fields(b)[..2]
    ensures Contribution(a, tokenizer) == Contribution(b, tokenizer)
  {
    assert Fields(a)[0] == Fields(a)[..2][0] && Fields(a)[1] == Fields(a)[..2][1];
    assert Fields(b)[0] == Fields(b)[..2][0] && Fields(b)[1] == Fields(b)[..2][1];
  }
}
