/** The prompts the inference client sends: the closed-book few-shot prompt, the
    answer-extraction demonstrations and query, and the two question-answering templates.
    Demonstration records arrive as sequences (they are read from a JSON file and from a
    remote dataset); rendered context and title lists arrive as strings.
 */
module Prompts {

  /** A record of the closed-book demonstration file: a question and its short answers. */
  datatype ClosedBookDemo = ClosedBookDemo(question: string, shortAnswers: seq<string>)

  /** A record of the answer-extraction example dataset. */
  datatype ExtractDemo = ExtractDemo(question: string, longAnswer: string, answers: seq<string>)

  /** One extraction demonstration: an (item, answer) pair of the dataset. */
  datatype Shot = Shot(question: string, longAnswer: string, shortAnswer: string)

  /** The parts joined in order, as repeated `+=` builds them. */
  function Concat(parts: seq<string>): string {
    if parts == [] then "" else parts[0] + Concat(parts[1..])
  }

  lemma {:induction false} ConcatAppend(a: seq<string>, b: seq<string>)
    ensures Concat(a + b) == Concat(a) + Concat(b)
  {
    if a == [] {
      assert a + b == b;
    } else {
      assert (a + b)[1..] == a[1..] + b;
      ConcatAppend(a[1..], b);
    }
  }

  lemma ConcatSnoc(parts: seq<string>, last: string)
    ensures Concat(parts + [last]) == Concat(parts) + last
  {
    ConcatAppend(parts, [last]);
    assert Concat([last]) == last + Concat([]);
  }

  /** Appending is associative; stated once so that the loops below need not rediscover it. */
  lemma AppendAssoc(a: string, b: string, c: string)
    ensures (a + b) + c == a + (b + c)
  {
  }

  /** A slice of the middle part of a three-part text is the same slice of that part. */
  lemma SliceAfterPrefix(pre: string, body: string, post: string, start: nat, n: nat)
    requires start + n <= |body|
    ensures |pre| + start + n <= |pre + body + post|
    ensures (pre + body + post)[..|pre|] == pre
    ensures (pre + body + post)[|pre| + start..|pre| + start + n] == body[start..start + n]
  {
  }

  /** Each part sits in the joined text right after the parts before it, so the parts appear
      complete and in their order. */
  lemma {:induction false} ConcatPartAt(parts: seq<string>, i: nat)
    requires i < |parts|
    ensures |Concat(parts[..i])| + |parts[i]| <= |Concat(parts)|
    ensures Concat(parts)[|Concat(parts[..i])|..|Concat(parts[..i])| + |parts[i]|] == parts[i]
  {
    assert parts == parts[..i] + [parts[i]] + parts[i + 1..];
    ConcatAppend(parts[..i] + [parts[i]], parts[i + 1..]);
    ConcatAppend(parts[..i], [parts[i]]);
    assert Concat([parts[i]]) == parts[i] + Concat([]);
  }

  // ---------------------------------------------------------------- closed book

  const ClosedBookInstruction: string :=
    "Here are some examples of questions and their corresponding answer, each with a 'Question' field and an 'Answer' field. "
    + "Answer the question directly and don't output other thing. "

  /** The end index of Python's slice `xs[:n]` on a list of length len. */
  function SliceEnd(n: int, len: nat): (k: nat)
    ensures k <= len
  {
    if n >= 0 then (if n <= len then n else len)
    else if len + n >= 0 then len + n else 0
  }

  /** The final line of the closed-book prompt, left open for the model to complete. */
  function ClosedBookQuery(question: string): string {
    "Question: " + question + " Answer: "
  }

  /** A demonstration uses its first short answer, so it needs one. */
  predicate HasShortAnswers(demos: seq<ClosedBookDemo>) {
    forall i :: 0 <= i < |demos| ==> |demos[i].shortAnswers| > 0
  }

  /** The line a demonstration contributes. */
  function DemoLine(d: ClosedBookDemo): string
    requires |d.shortAnswers| > 0
  {
    "Question: " + d.question + " Answer: " + d.shortAnswers[0] + "\n"
  }

  function DemoLines(demos: seq<ClosedBookDemo>): (lines: seq<string>)
    requires HasShortAnswers(demos)
    ensures |lines| == |demos|
  {
    seq(|demos|, i requires 0 <= i < |demos| => DemoLine(demos[i]))
  }

  /** The demonstrations `predict_close_book` puts in its prompt: `demo[:num_demo]`. */
  function UsedDemos(demos: seq<ClosedBookDemo>, numDemo: int): seq<ClosedBookDemo> {
    demos[..SliceEnd(numDemo, |demos|)]
  }

  /** The closed-book prompt: instruction, one line per used demonstration, the open query. */
  function ClosedBookPrompt(question: string, demos: seq<ClosedBookDemo>, numDemo: int): string
    requires HasShortAnswers(UsedDemos(demos, numDemo))
  {
    ClosedBookInstruction + Concat(DemoLines(UsedDemos(demos, numDemo))) + ClosedBookQuery(question)
  }

  /** The prompt-building loop of `predict_close_book`. */
  method BuildClosedBookPrompt(question: string, demos: seq<ClosedBookDemo>, numDemo: int)
    returns (prompt: string)
    requires HasShortAnswers(UsedDemos(demos, numDemo))
    ensures prompt == ClosedBookPrompt(question, demos, numDemo)
  {
    var used := UsedDemos(demos, numDemo);
    prompt := ClosedBookInstruction;
    var i := 0;
    while i < |used|
      invariant 0 <= i <= |used|
      invariant prompt == ClosedBookInstruction + Concat(DemoLines(used[..i]))
    {
      var line := DemoLine(used[i]);
      assert DemoLines(used[..i + 1]) == DemoLines(used[..i]) + [line];
      ConcatSnoc(DemoLines(used[..i]), line);
      AppendAssoc(ClosedBookInstruction, Concat(DemoLines(used[..i])), line);
      prompt := prompt + line;
      i := i + 1;
    }
    assert used[..i] == used;
    prompt := prompt + ClosedBookQuery(question);
  }

  /** Every demonstration line is the open query of its question, answered with the first
      short answer: the demonstrations and the final query share one format. */
  lemma DemoLineIsAnsweredQuery(d: ClosedBookDemo)
    requires |d.shortAnswers| > 0
    ensures DemoLine(d) == ClosedBookQuery(d.question) + d.shortAnswers[0] + "\n"
  {
  }

  /** The prompt holds min(numDemo, |demos|) demonstration lines, the first ones of the file
      in file order; a file shorter than numDemo is used whole. */
  lemma ClosedBookUsesFirstDemos(question: string, demos: seq<ClosedBookDemo>, numDemo: nat)
    requires HasShortAnswers(UsedDemos(demos, numDemo))
    ensures |UsedDemos(demos, numDemo)| == if numDemo <= |demos| then numDemo else |demos|
    ensures numDemo >= |demos| ==> UsedDemos(demos, numDemo) == demos
    ensures forall i :: 0 <= i < |UsedDemos(demos, numDemo)| ==>
              DemoLines(UsedDemos(demos, numDemo))[i] == DemoLine(demos[i])
  {
  }

  /** Each used demonstration's line appears in the prompt, complete, after the instruction
      and the lines of the demonstrations before it. */
  lemma ClosedBookLineAt(question: string, demos: seq<ClosedBookDemo>, numDemo: int, i: nat)
    requires HasShortAnswers(UsedDemos(demos, numDemo))
    requires i < |UsedDemos(demos, numDemo)|
    ensures var lines := DemoLines(UsedDemos(demos, numDemo));
            var prompt := ClosedBookPrompt(question, demos, numDemo);
            var start := |ClosedBookInstruction| + |Concat(lines[..i])|;
            && lines[i] == DemoLine(UsedDemos(demos, numDemo)[i])
            && start + |lines[i]| <= |prompt|
            && prompt[start..start + |lines[i]|] == lines[i]
  {
    var lines := DemoLines(UsedDemos(demos, numDemo));
    assert ClosedBookPrompt(question, demos, numDemo)
        == ClosedBookInstruction + Concat(lines) + ClosedBookQuery(question);
    ConcatPartAt(lines, i);
    SliceAfterPrefix(ClosedBookInstruction, Concat(lines), ClosedBookQuery(question),
                     |Concat(lines[..i])|, |lines[i]|);
  }

  /** With no demonstrations the prompt is the instruction and the open query, and it still
      ends with the question and the `Answer:` marker. */
  lemma ClosedBookWithoutDemos(question: string, demos: seq<ClosedBookDemo>)
    ensures ClosedBookPrompt(question, demos, 0) == ClosedBookInstruction + "Question: " + question + " Answer: "
  {
    assert UsedDemos(demos, 0) == [];
  }

  /** A negative count slices from the end, as Python does: all but the last -numDemo. */
  lemma ClosedBookNegativeCount(demos: seq<ClosedBookDemo>, numDemo: int)
    requires numDemo < 0
    ensures UsedDemos(demos, numDemo) == if |demos| + numDemo >= 0 then demos[..|demos| + numDemo] else []
  {
  }

  // ---------------------------------------------------------------- answer extraction

  const ExtractInstruction: string :=
    "As an AI assistant, you have been provided with a question and its long answer. "
    + "Your task is to derive a very concise short answer, extracting a substring from the given long answer. "
    + "Short answer is typically an entity without any other redundant words."
    + "It's important to ensure that the output short answer remains as simple as possible.\n\n"

  const DemoHeader: string := "Here are some examples: "

  /** The number of extraction demonstrations `extract_answer` asks for. */
  const ExtractDemoCount: nat := 8

  /** The open query of the extraction prompt. */
  function ExtractQuery(question: string, longAnswer: string): string {
    "Question: " + question + "\nLong Answer: " + longAnswer + "\nShort Answer: "
  }

  /** The block one (item, answer) pair contributes. */
  function ShotText(s: Shot): string {
    "Question: " + s.question + "\nLong Answer: " + s.longAnswer + "\nShort Answer: " + s.shortAnswer + "\n\n"
  }

  function ShotTexts(shots: seq<Shot>): (texts: seq<string>)
    ensures |texts| == |shots|
  {
    seq(|shots|, k requires 0 <= k < |shots| => ShotText(shots[k]))
  }

  /** The pairs of one dataset item: one per answer, in order. */
  function ShotsOf(item: ExtractDemo): (shots: seq<Shot>)
    ensures |shots| == |item.answers|
  {
    seq(|item.answers|, j requires 0 <= j < |item.answers| =>
      Shot(item.question, item.longAnswer, item.answers[j]))
  }

  /** All (item, answer) pairs, item by item and answer by answer. */
  function Shots(items: seq<ExtractDemo>): seq<Shot> {
    if items == [] then [] else ShotsOf(items[0]) + Shots(items[1..])
  }

  lemma {:induction false} ShotsAppend(a: seq<ExtractDemo>, b: seq<ExtractDemo>)
    ensures Shots(a + b) == Shots(a) + Shots(b)
  {
    if a == [] {
      assert a + b == b;
    } else {
      assert (a + b)[1..] == a[1..] + b;
      ShotsAppend(a[1..], b);
    }
  }

  /** Exactly the (item, answer) pairs: each pair is a shot, and each shot is a pair. */
  lemma {:induction false} ShotsArePairs(items: seq<ExtractDemo>, s: Shot)
    ensures s in Shots(items) <==>
      exists i, j :: 0 <= i < |items| && 0 <= j < |items[i].answers| &&
        s == Shot(items[i].question, items[i].longAnswer, items[i].answers[j])
  {
    if items != [] {
      ShotsArePairs(items[1..], s);
      if s in ShotsOf(items[0]) {
        var j :| 0 <= j < |items[0].answers| && ShotsOf(items[0])[j] == s;
        assert s == Shot(items[0].question, items[0].longAnswer, items[0].answers[j]);
      }
      if exists i, j :: 0 <= i < |items| && 0 <= j < |items[i].answers| &&
           s == Shot(items[i].question, items[i].longAnswer, items[i].answers[j]) {
        var i, j :| 0 <= i < |items| && 0 <= j < |items[i].answers| &&
           s == Shot(items[i].question, items[i].longAnswer, items[i].answers[j]);
        if i == 0 {
          assert ShotsOf(items[0])[j] == s;
        } else {
          assert items[1..][i - 1] == items[i];
        }
      }
    }
  }

  /** Adding a pair adds its block after those of the pairs before it. */
  lemma ShotTextsStep(shots: seq<Shot>, j: nat)
    requires j < |shots|
    ensures Concat(ShotTexts(shots[..j + 1])) == Concat(ShotTexts(shots[..j])) + ShotText(shots[j])
  {
    assert ShotTexts(shots[..j + 1]) == ShotTexts(shots[..j]) + [ShotText(shots[j])];
    ConcatSnoc(ShotTexts(shots[..j]), ShotText(shots[j]));
  }

  /** Adding an item adds its blocks after those of the items before it. */
  lemma ShotBlocksStep(items: seq<ExtractDemo>, i: nat)
    requires i < |items|
    ensures Concat(ShotTexts(Shots(items[..i + 1])))
         == Concat(ShotTexts(Shots(items[..i]))) + Concat(ShotTexts(ShotsOf(items[i])))
  {
    var pre, item := items[..i], items[i];
    assert items[..i + 1] == pre + [item];
    ShotsAppend(pre, [item]);
    assert [item][1..] == [];
    assert Shots([item]) == ShotsOf(item);
    var a, b := ShotTexts(Shots(pre)), ShotTexts(ShotsOf(item));
    assert ShotTexts(Shots(pre) + ShotsOf(item)) == a + b;
    ConcatAppend(a, b);
  }

  /** `generate_demo_examples`: nothing for zero; otherwise the header and one block per
      (item, answer) pair of the first numDemo items. A negative count selects no item. */
  function DemoExamples(items: seq<ExtractDemo>, numDemo: int): string
    requires numDemo <= |items|
  {
    if numDemo == 0 then ""
    else DemoHeader + Concat(ShotTexts(Shots(items[..if numDemo < 0 then 0 else numDemo])))
  }

  /** The inner loop of `generate_demo_examples`: one block per answer of an item. */
  method AppendItemBlocks(prefix: string, item: ExtractDemo) returns (text: string)
    ensures text == prefix + Concat(ShotTexts(ShotsOf(item)))
  {
    ghost var shots := ShotsOf(item);
    text := prefix;
    var j := 0;
    while j < |item.answers|
      invariant 0 <= j <= |item.answers| == |shots|
      invariant text == prefix + Concat(ShotTexts(shots[..j]))
    {
      var block := ShotText(Shot(item.question, item.longAnswer, item.answers[j]));
      assert block == ShotText(shots[j]);
      ShotTextsStep(shots, j);
      AppendAssoc(prefix, Concat(ShotTexts(shots[..j])), block);
      text := text + block;
      j := j + 1;
    }
    assert shots[..j] == shots;
  }

  /** The outer loop of `generate_demo_examples`: the blocks of each selected item in turn.
      The count defaults to four, as in the source. */
  method GenerateDemoExamples(items: seq<ExtractDemo>, numDemo: int := 4) returns (demoPrompt: string)
    requires numDemo <= |items|
    ensures demoPrompt == DemoExamples(items, numDemo)
  {
    if numDemo == 0 {
      return "";
    }
    var selected := items[..if numDemo < 0 then 0 else numDemo];
    demoPrompt := DemoHeader;
    var i := 0;
    while i < |selected|
      invariant 0 <= i <= |selected|
      invariant demoPrompt == DemoHeader + Concat(ShotTexts(Shots(selected[..i])))
    {
      ghost var before := Concat(ShotTexts(Shots(selected[..i])));
      demoPrompt := AppendItemBlocks(demoPrompt, selected[i]);
      ShotBlocksStep(selected, i);
      AppendAssoc(DemoHeader, before, Concat(ShotTexts(ShotsOf(selected[i]))));
      i := i + 1;
    }
    assert selected[..i] == selected;
  }

  /** The number of (item, answer) pairs of a list of items. */
  function AnswerCount(items: seq<ExtractDemo>): nat {
    if items == [] then 0 else |items[0].answers| + AnswerCount(items[1..])
  }

  /** One block per (item, answer) pair: as many blocks as answers. */
  lemma {:induction false} ShotsCount(items: seq<ExtractDemo>)
    ensures |Shots(items)| == AnswerCount(items)
  {
    if items != [] {
      ShotsCount(items[1..]);
    }
  }

  /** Zero demonstrations give the empty text; otherwise the header comes first and the k-th
      (item, answer) block follows the blocks before it, complete. */
  lemma DemoExamplesBlockAt(items: seq<ExtractDemo>, numDemo: int, k: nat)
    requires numDemo <= |items|
    ensures numDemo == 0 ==> DemoExamples(items, numDemo) == ""
    ensures numDemo != 0 ==> DemoExamples(items, numDemo)[..|DemoHeader|] == DemoHeader
    ensures var shots := Shots(items[..if numDemo < 0 then 0 else numDemo]);
            numDemo != 0 && k < |shots| ==>
              var start := |DemoHeader| + |Concat(ShotTexts(shots[..k]))|;
              start + |ShotText(shots[k])| <= |DemoExamples(items, numDemo)| &&
              DemoExamples(items, numDemo)[start..start + |ShotText(shots[k])|] == ShotText(shots[k])
  {
    var shots := Shots(items[..if numDemo < 0 then 0 else numDemo]);
    if numDemo != 0 {
      var texts := ShotTexts(shots);
      SliceAfterPrefix(DemoHeader, Concat(texts), "", 0, 0);
      if k < |shots| {
        ConcatPartAt(texts, k);
        assert texts[..k] == ShotTexts(shots[..k]);
        SliceAfterPrefix(DemoHeader, Concat(texts), "", |Concat(texts[..k])|, |texts[k]|);
      }
    }
  }

  /** Every demonstration block is the open extraction query answered with one short answer:
      the demonstrations and the final query share one format. */
  lemma ShotTextIsAnsweredQuery(s: Shot)
    ensures ShotText(s) == ExtractQuery(s.question, s.longAnswer) + s.shortAnswer + "\n\n"
  {
  }

  /** The prompt `extract_answer` sends: instruction, eight items of demonstrations, open query. */
  function ExtractPrompt(items: seq<ExtractDemo>, question: string, longAnswer: string): string
    requires ExtractDemoCount <= |items|
  {
    ExtractInstruction + DemoExamples(items, ExtractDemoCount) + ExtractQuery(question, longAnswer)
  }

  /** The extraction prompt always carries the demonstration header (eight is not zero), the
      blocks of the first eight items, and ends with the open query for this long answer. */
  lemma ExtractPromptShape(items: seq<ExtractDemo>, question: string, longAnswer: string)
    requires ExtractDemoCount <= |items|
    ensures ExtractPrompt(items, question, longAnswer)
         == ExtractInstruction + DemoHeader + Concat(ShotTexts(Shots(items[..8])))
            + ExtractQuery(question, longAnswer)
  {
  }

  // ---------------------------------------------------------------- question answering

  /** The fixed text of the `predict_nq` template, between its slots. */
  const NqIntro: string :=
    "Go through the following context and then extract the answer of the question from the context. "
    + "The context is a list of Wikipedia documents, ordered by title: "
  const NqAfterTitles: string :=
    ". " + "Each Wikipedia document contains a title field and a text field. " + "The context is: "
  const NqAfterContext: string :=
    ". " + "Find the useful documents from the context, then extract the answer to answer the question: "
  const NqAfterQuestion: string :=
    "." + "Answer the question directly. Your response should be very concise. "

  /** The `predict_nq` template; `titles` and `context` are already rendered as text. */
  function NqPrompt(context: string, question: string, titles: string): string {
    NqIntro + titles + NqAfterTitles + context + NqAfterContext + question + NqAfterQuestion
  }

  /** The fixed text of the `predict_hotpotqa` template, between its slots. */
  const HotpotQaIntro: string :=
    "Go through the following context and then answer the question "
    + "The context is a list of Wikipedia documents titled: "
  const HotpotQaAfterTitles: string :=
    ". "
    + "There are two types of questions: comparison questions, which require a yes or no answer or a selection from two candidates, "
    + "and general questions, which demand a concise response. "
    + "The context is: "
  const HotpotQaAfterContext: string :=
    ". " + "Find the useful documents from the context, then answer the question: "
  const HotpotQaAfterQuestion: string :=
    "."
    + "For general questions, you should use the exact words from the context as the answer to avoid ambiguity. "
    + "Answer the question directly and don't output other thing.  "

  /** The `predict_hotpotqa` template; `titles` and `context` are already rendered as text. */
  function HotpotQaPrompt(context: string, question: string, titles: string): string {
    HotpotQaIntro + titles + HotpotQaAfterTitles + context + HotpotQaAfterContext + question + HotpotQaAfterQuestion
  }
}
