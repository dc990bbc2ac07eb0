/** `scripts/message_builder.py`: the few-shot prompt that build_message
    assembles and prints. */
module MessageBuilder {
  import opened Optional
  import opened Strings
  import opened Json

  const RulesIntro: string := "Rules that need to be followed to write the code:\n"
  const Separator: string := "################\n"
  const ExamplesTitle: string := "Examples:\n"
  const TargetIntro: string := "Please process the following example:\n"

  /** A few-shot example once its two fields have been formatted. */
  datatype Shot = Shot(question: string, answer: string)

  /** A value inside an f-string: a string as itself, anything else as
      `show` prints it. */
  function Formatted(v: Value, show: Value -> string): string {
    if v.Str? then v.s else show(v)
  }

  /** The two fields a few-shot example contributes; None when
      `ex['input_text']` or `ex['expected_dsl_output']` raises. */
  function ShotOf(ex: Value, show: Value -> string): (r: Option<Shot>)
    ensures r.Some? <==> ex.Obj? && "input_text" in ex.fields && "expected_dsl_output" in ex.fields
  {
    if ex.Obj? && "input_text" in ex.fields && "expected_dsl_output" in ex.fields then
      Some(Shot(Formatted(ex.fields["input_text"], show), Formatted(ex.fields["expected_dsl_output"], show)))
    else None
  }

  predicate AllShots(shots: seq<Value>, show: Value -> string) {
    forall i :: 0 <= i < |shots| ==> ShotOf(shots[i], show).Some?
  }

  function Shots(shots: seq<Value>, show: Value -> string): (r: seq<Shot>)
    requires AllShots(shots, show)
    ensures |r| == |shots| && forall i :: 0 <= i < |shots| ==> Some(r[i]) == ShotOf(shots[i], show)
  {
    seq(|shots|, i requires 0 <= i < |shots| && AllShots(shots, show) => ShotOf(shots[i], show).value)
  }

  /** The grammar section and the separator (lines 20 and 23). */
  function Header(grammar: string): string {
    RulesIntro + (grammar + ("\n\n" + Separator))
  }

  function ExampleLine(idx: nat): string { "Example " + Decimal(idx) + ":\n" }
  function QuestionLine(q: string): string { "Question: " + q + "\n" }
  function AnswerLine(a: string): string { "Answer: " + a + "\n\n" }

  /** One numbered example (lines 29-31). */
  function Block(idx: nat, shot: Shot): string {
    ExampleLine(idx) + (QuestionLine(shot.question) + AnswerLine(shot.answer))
  }

  /** The numbered examples, the first one numbered `start`. */
  function Blocks(shots: seq<Shot>, start: nat): string
    decreases |shots|
  {
    if shots == [] then "" else Block(start, shots[0]) + Blocks(shots[1..], start + 1)
  }

  /** The examples section: absent when there are no examples. */
  function ExamplesSection(shots: seq<Shot>): string {
    if shots == [] then "" else ExamplesTitle + Blocks(shots, 1)
  }

  /** The whole message. */
  function Message(grammar: string, shots: seq<Shot>, example: string): string {
    Header(grammar) + (ExamplesSection(shots) + (TargetIntro + example))
  }

  lemma {:induction false} BlocksAppend(p: seq<Shot>, q: seq<Shot>, start: nat)
    ensures Blocks(p + q, start) == Blocks(p, start) + Blocks(q, start + |p|)
    decreases |p|
  {
    if p == [] {
      assert p + q == q;
    } else {
      assert (p + q)[1..] == p[1..] + q;
      BlocksAppend(p[1..], q, start + 1);
    }
  }

  lemma BlocksSingle(shot: Shot, start: nat)
    ensures Blocks([shot], start) == Block(start, shot)
  {
    assert [shot][1..] == [];
  }

  /** Numbering carries on across a split of the example list: example `i`
      (from 0) is written as block number `i + 1`, after the blocks of the
      examples before it and before those after it. */
  lemma BlockAt(shots: seq<Shot>, i: nat)
    requires i < |shots|
    ensures Blocks(shots, 1) == Blocks(shots[..i], 1) + (Block(i + 1, shots[i]) + Blocks(shots[i + 1..], i + 2))
  {
    var after := [shots[i]] + shots[i + 1..];
    assert shots == shots[..i] + after;
    BlocksAppend(shots[..i], after, 1);
    BlocksAppend([shots[i]], shots[i + 1..], i + 1);
    BlocksSingle(shots[i], i + 1);
  }

  lemma PrefixOfConcat(a: string, b: string)
    ensures StartsWith(a + b, a) && (a + b)[|a|..] == b
  {
    assert (a + b)[..|a|] == a;
  }

  lemma SuffixOfConcat(a: string, b: string)
    ensures EndsWith(a + b, b)
  {
    assert (a + b)[|a|..] == b;
  }

  lemma FrameOfConcat(a: string, b: string, c: string)
    ensures StartsWith(a + (b + c), a) && EndsWith(a + (b + c), c)
  {
    PrefixOfConcat(a, b + c);
    assert a + (b + c) == (a + b) + c;
    SuffixOfConcat(a + b, c);
  }

  /** The message starts with the rules title, the grammar, a blank line and
      the separator, and ends with the target example's title and the
      example itself. */
  lemma MessageFrame(grammar: string, shots: seq<Shot>, example: string)
    ensures StartsWith(Message(grammar, shots, example), RulesIntro + (grammar + ("\n\n" + Separator)))
    ensures EndsWith(Message(grammar, shots, example), TargetIntro + example)
  {
    FrameOfConcat(Header(grammar), ExamplesSection(shots), TargetIntro + example);
  }

  /** The examples title follows the separator exactly when there are
      examples (the target's title starts with `P`, not `E`). */
  lemma ExamplesIffShots(grammar: string, shots: seq<Shot>, example: string)
    ensures StartsWith(Message(grammar, shots, example)[|Header(grammar)|..], ExamplesTitle) <==> shots != []
  {
    var rest := ExamplesSection(shots) + (TargetIntro + example);
    PrefixOfConcat(Header(grammar), rest);
    assert Message(grammar, shots, example)[|Header(grammar)|..] == rest;
    SectionStart(shots, TargetIntro + example);
  }

  lemma SectionStart(shots: seq<Shot>, tail: string)
    requires StartsWith(tail, TargetIntro)
    ensures StartsWith(ExamplesSection(shots) + tail, ExamplesTitle) <==> shots != []
  {
    if shots == [] {
      assert ExamplesSection(shots) + tail == tail;
      assert tail[0] == TargetIntro[0];
    } else {
      PrefixOfConcat(ExamplesTitle, Blocks(shots, 1) + tail);
      assert ExamplesSection(shots) + tail == ExamplesTitle + (Blocks(shots, 1) + tail);
    }
  }

  lemma NextBlock(start: string, done: seq<Shot>, shot: Shot, message: string)
    requires message == (start + Blocks(done, 1)) + Block(|done| + 1, shot)
    ensures message == start + Blocks(done + [shot], 1)
  {
    BlocksAppend(done, [shot], 1);
    BlocksSingle(shot, 1 + |done|);
    Associate(start, Blocks(done, 1), Block(|done| + 1, shot));
  }

  lemma Reassociate(a: string, b: string, c: string, d: string)
    ensures ((a + b) + c) + d == a + (b + (c + d))
  {
  }

  lemma Associate(a: string, b: string, c: string)
    ensures (a + b) + c == a + (b + c)
  {
  }

  lemma EmptyRight(a: string)
    ensures a + "" == a
  {
  }

  /** The three `+=` of one loop turn (lines 29-31); None when a field
      lookup raises. */
  method AppendExample(message: string, idx: nat, ex: Value, show: Value -> string)
    returns (grown: Option<string>)
    ensures grown.Some? <==> ShotOf(ex, show).Some?
    ensures grown.Some? ==> grown.value == message + Block(idx, ShotOf(ex, show).value)
  {
    var m := message + ExampleLine(idx);
    if !(ex.Obj? && "input_text" in ex.fields) {
      return None;
    }
    m := m + QuestionLine(Formatted(ex.fields["input_text"], show));
    if !("expected_dsl_output" in ex.fields) {
      return None;
    }
    m := m + AnswerLine(Formatted(ex.fields["expected_dsl_output"], show));
    return Some(m);
  }

  /** The numbered loop of lines 28-31, appending to `message`; None when
      a field lookup raises. */
  method AppendExamples(message: string, fewShotExamples: seq<Value>, show: Value -> string)
    returns (grown: Option<string>)
    ensures grown.Some? <==> AllShots(fewShotExamples, show)
    ensures grown.Some? ==> grown.value == message + Blocks(Shots(fewShotExamples, show), 1)
  {
    var m := message;
    ghost var done: seq<Shot> := [];
    var i := 0;
    while i < |fewShotExamples|
      invariant 0 <= i <= |fewShotExamples|
      invariant |done| == i
      invariant forall j :: 0 <= j < i ==> Some(done[j]) == ShotOf(fewShotExamples[j], show)
      invariant m == message + Blocks(done, 1)
    {
      var next := AppendExample(m, i + 1, fewShotExamples[i], show);
      if next.None? {
        return None;
      }
      var shot := ShotOf(fewShotExamples[i], show).value;
      NextBlock(message, done, shot, next.value);
      m := next.value;
      done := done + [shot];
      i := i + 1;
    }
    assert done == Shots(fewShotExamples, show);
    return Some(m);
  }

  /** build_message. The message is printed, not returned, so the method
      yields the printed text; None when reading a few-shot example raises,
      in which case nothing is printed. */
  method BuildMessage(grammar: string, fewShotExamples: seq<Value>, example: string, show: Value -> string)
    returns (printed: Option<string>)
    ensures printed.Some? <==> AllShots(fewShotExamples, show)
    ensures printed.Some? ==> printed.value == Message(grammar, Shots(fewShotExamples, show), example)
  {
    var message := RulesIntro + grammar + "\n\n";
    message := message + Separator;
    Reassociate(RulesIntro, grammar, "\n\n", Separator);
    ghost var shots: seq<Shot> := [];
    if fewShotExamples != [] {
      message := message + ExamplesTitle;
      var grown := AppendExamples(message, fewShotExamples, show);
      if grown.None? {
        return None;
      }
      shots := Shots(fewShotExamples, show);
      Associate(Header(grammar), ExamplesTitle, Blocks(shots, 1));
      message := grown.value;
    } else {
      EmptyRight(Header(grammar));
    }
    assert AllShots(fewShotExamples, show) && shots == Shots(fewShotExamples, show);
    assert message == Header(grammar) + ExamplesSection(shots);
    message := message + TargetIntro;
    message := message + example;
    Reassociate(Header(grammar), ExamplesSection(shots), TargetIntro, example);
    return Some(message);
  }
}
