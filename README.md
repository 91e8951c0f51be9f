# LongRAG Gemini inference client, modelled in Dafny

This project models `GeminiInference`, the client that LongRAG uses to ask a hosted
Gemini model benchmark questions. The client builds a prompt, sends it to the model in a
fresh chat, and post-processes the reply with the regular expression
`(?i)(?<=\banswer:\s).*`. The open-domain (NQ) and multi-hop (HotpotQA) paths then make a
second call. That call asks the model to cut a short answer out of the long one, primed with
demonstrations from an example dataset. The closed-book path makes one call, primed with
demonstrations read from a JSON file.

Files and modules:

- `answer_text.dfy`, module `AnswerText`: `post_process` as functions on `string`. The
  look-behind is `MarkerEndsAt`. It is built from `AtWordBoundary` for `\b`, `EqIgnoreCase`
  and `Fold` for IGNORECASE, `IsSpace` for `\s` and `IsWordChar` for `\w`. The leftmost match
  is `FirstMarkerEnd`, found by the recursive search `FindMarkerFrom`. `LineEnd` is where
  `.*` stops. `PostProcess` puts them together. The lemmas state what the regex guarantees.
- `prompts.dfy`, module `Prompts`: the prompt texts. The two `+=` loops of the source are
  methods with loop invariants. `BuildClosedBookPrompt` is the loop of `predict_close_book`.
  `GenerateDemoExamples` and `AppendItemBlocks` are the outer and inner loops of
  `generate_demo_examples`. Each is proved equal to a specification function:
  `ClosedBookPrompt` or `DemoExamples`. Both are built from `Concat` over one rendered part
  per demonstration. `ExtractPrompt`, `NqPrompt` and `HotpotQaPrompt` are the f-string
  templates, with the instruction texts copied verbatim.
- `inference.dfy`, module `Gemini`: `ModelService` stands for the hosted model. It has a
  fixed reply function `respond`, and the ghost field `sent` lists every prompt sent so far
  (the source keeps no such list; it is there to state the round trips).
  `GeminiInference` holds the model. Its field is set once by the constructor, as
  `__init__` does. Its methods mirror `predict`, `extract_answer`, `predict_nq`,
  `predict_hotpotqa` and `predict_close_book`. Each method states the prompts it sends, in
  order, and what it returns in terms of `respond` and `PostProcess`.

Four points of the source's behaviour are easy to misread. The model follows the code on each:

- The look-behind consumes exactly one whitespace character. `"ANSWER:   Paris, France"`
  therefore gives `"  Paris, France"` with two leading spaces, not `"Paris, France"`.
  `PostProcessKeepsExtraSpaces` proves this.
- `.` does not match a newline. The result therefore runs to the first newline after the
  marker, not to the end of the text.
- The marker must also start at a word boundary: `"xanswer: y"` has no marker.
- `predict_close_book` returns `self.predict(prompt)`, so its answer is post-processed too.
  It makes no second extraction call.

## Model

| member | source | states |
|---|---|---|
| AnswerText.Fold | src/utils/gemini_inference.py:43 | IGNORECASE folding never moves a character into or out of `\w` or `\s` |
| AnswerText.FindMarkerFrom | src/utils/gemini_inference.py:43 | the result is the smallest position at or after `from` where `\banswer:\s` ends, or None when there is none from there on |
| AnswerText.FirstMarkerEnd | src/utils/gemini_inference.py:43 | `re.search` anchors its match at the leftmost position where the look-behind holds; None exactly when it holds nowhere |
| AnswerText.LineEnd | src/utils/gemini_inference.py:43 | `.*` from p stops at the first newline at or after p, or at the end of the text; no newline lies in between |
| AnswerText.PostProcess | src/utils/gemini_inference.py:42-47 | the result is never longer than the input |
| AnswerText.PostProcessMarked | src/utils/gemini_inference.py:42-45 | with a marker, the result starts right after the leftmost marker and its one whitespace character, runs to the next newline or the end of the text, may be empty, and holds no newline |
| AnswerText.PostProcessIdentityIff | src/utils/gemini_inference.py:44-47 | the text comes back unchanged if and only if it holds no marker |
| AnswerText.PostProcessIsSubstring | src/utils/gemini_inference.py:42-47 | the result is always a contiguous slice of the input |
| AnswerText.MarkerNeedsWordBoundary | src/utils/gemini_inference.py:43 | `answer:` directly after a letter, digit or underscore is not a marker |
| AnswerText.MarkerIgnoresCaseAt | src/utils/gemini_inference.py:43 | texts equal up to letter case have a marker at the same positions |
| AnswerText.FindMarkerIgnoresCase | src/utils/gemini_inference.py:43 | texts equal up to letter case give the same search result from any start |
| AnswerText.MarkerIgnoresCase | src/utils/gemini_inference.py:43 | `ANSWER:`, `Answer:` and `answer:` are found at the same place: texts equal up to case have the same first marker |
| AnswerText.PostProcessKeepsExtraSpaces | src/utils/gemini_inference.py:43-45 | `"ANSWER:   Paris, France"` gives `"  Paris, France"`: only one whitespace character is consumed |
| AnswerText.PostProcessAfterLowerMarker | src/utils/gemini_inference.py:43-45 | a reply `"answer: " + a`, with no newline in a, gives exactly a |
| AnswerText.PostProcessNotIdempotent | src/utils/gemini_inference.py:42-47 | `"answer: answer: x"` gives `"answer: x"`, and a second pass gives `"x"` |
| AnswerText.PostProcessIgnoresMarkerInsideWord | src/utils/gemini_inference.py:43-47 | `"xanswer: y"` holds no marker and comes back unchanged |
| AnswerText.PostProcessReturnsMarkedLine | src/utils/gemini_inference.py:43-45 | a reply `"Answer: " + a + "\n" + rest`, with no newline in a, gives exactly a |
| AnswerText.MarkerAfterPrefix | src/utils/gemini_inference.py:43 | after a text with no marker that does not end in a word character, `Answer: ` is where the leftmost match is anchored |
| AnswerText.PostProcessReturnsLineAfterMarker | src/utils/gemini_inference.py:42-45 | a reply `pre + "Answer: " + a + tail`, with no marker in `pre`, no word character ending it, no newline in `a` and `tail` empty or starting with a newline, gives exactly `a` |
| AnswerText.PostProcessMarkerMidSentence | src/utils/gemini_inference.py:43-45 | `"The capital is Answer: Paris"` gives `"Paris"` |
| Prompts.SliceEnd | src/utils/gemini_inference.py:88 | the end index of Python's `demo[:num_demo]` never exceeds the list length |
| Prompts.ClosedBookPrompt | src/utils/gemini_inference.py:84-92 | the closed-book prompt as the source assembles it: the instruction, one line per record of `demo[:num_demo]`, then the open query |
| Prompts.BuildClosedBookPrompt | src/utils/gemini_inference.py:84-92 | the loop builds exactly `ClosedBookPrompt`: the instruction, one line per demonstration of `demo[:num_demo]` in order, then the open query |
| Prompts.ClosedBookUsesFirstDemos | src/utils/gemini_inference.py:88-91 | for a count n ≥ 0 the prompt holds min(n, number of demos) lines, the i-th made from the i-th demonstration; a file shorter than n is used whole |
| Prompts.ClosedBookLineAt | src/utils/gemini_inference.py:88-91 | each used demonstration's line appears complete in the prompt, after the instruction and the lines before it |
| Prompts.ClosedBookWithoutDemos | src/utils/gemini_inference.py:84-92 | with a count of 0 the prompt is the instruction followed by `"Question: {question} Answer: "` |
| Prompts.ClosedBookNegativeCount | src/utils/gemini_inference.py:88 | a negative count drops that many demonstrations from the end, as Python slicing does |
| Prompts.DemoLineIsAnsweredQuery | src/utils/gemini_inference.py:90-92 | each demonstration line is the final query form answered with the first short answer and a newline |
| Prompts.DemoExamples | src/utils/gemini_inference.py:96-104 | the demonstration text: `""` for a count of 0, otherwise the header and one block per (item, answer) pair of the first items |
| Prompts.AppendItemBlocks | src/utils/gemini_inference.py:102-103 | the inner loop appends one block per answer of the item, in answer order |
| Prompts.GenerateDemoExamples | src/utils/gemini_inference.py:96-104 | the count defaults to 4; the nested loop builds exactly `DemoExamples`: `""` for 0, otherwise the header and one block per (item, answer) pair of the first num_demo items |
| Prompts.ShotsArePairs | src/utils/gemini_inference.py:101-103 | the blocks are exactly the (item, answer) pairs: each pair has a block and each block comes from a pair |
| Prompts.ShotsCount | src/utils/gemini_inference.py:101-103 | there are as many blocks as answers across the selected items |
| Prompts.DemoExamplesBlockAt | src/utils/gemini_inference.py:96-104 | the text is empty for 0; otherwise it starts with the header, and the k-th block appears complete after the blocks before it |
| Prompts.ShotTextIsAnsweredQuery | src/utils/gemini_inference.py:103 | each demonstration block is the final extraction query answered with one short answer and a blank line |
| Prompts.ExtractPrompt | src/utils/gemini_inference.py:107-114 | the extraction prompt: the instruction, the demonstrations of eight items, then the open query for the long answer |
| Prompts.ExtractPromptShape | src/utils/gemini_inference.py:107-114 | the extraction prompt is the instruction, the header, the blocks of the first 8 items, and `"Question: {q}\nLong Answer: {la}\nShort Answer: "` |
| Prompts.NqPrompt | src/utils/gemini_inference.py:55-62 | the `predict_nq` template, its fixed text copied from the f-string, with the titles, context and question in their slots |
| Prompts.HotpotQaPrompt | src/utils/gemini_inference.py:68-77 | the `predict_hotpotqa` template, its fixed text (including the two trailing spaces) copied from the f-string, with the titles, context and question in their slots |
| Gemini.ModelService.SendMessage | src/utils/gemini_inference.py:50-51 | one round trip: the reply is the model's answer to the prompt, and the prompt is appended to the list of prompts sent |
| Gemini.GeminiInference.constructor | src/utils/gemini_inference.py:35-40 | the client is bound to its one model |
| Gemini.GeminiInference.Predict | src/utils/gemini_inference.py:49-52 | exactly one prompt is sent, and the result is `PostProcess` of the model's reply |
| Gemini.GeminiInference.ExtractAnswer | src/utils/gemini_inference.py:106-116 | exactly one prompt is sent, `ExtractPrompt(question, long answer)`, and the result is `PostProcess` of its reply |
| Gemini.GeminiInference.PredictThenExtract | src/utils/gemini_inference.py:63-65 | the shared two-step pipeline: the task prompt is sent, then the extraction prompt built from its post-processed reply; both answers and the order of the two prompts are stated |
| Gemini.GeminiInference.PredictNq | src/utils/gemini_inference.py:54-65 | exactly two prompts are sent, the NQ template and then the extraction prompt built from the long answer; long = `PostProcess(M(p))`, short = `PostProcess(M(ExtractPrompt(q, long)))` |
| Gemini.GeminiInference.PredictHotpotQa | src/utils/gemini_inference.py:67-80 | the same two-call pipeline with the HotpotQA template |
| Gemini.GeminiInference.PredictCloseBook | src/utils/gemini_inference.py:82-94 | the count defaults to 16; exactly one prompt is sent, `ClosedBookPrompt`, and the answer is `PostProcess` of its reply |

## Left out

- SDK configuration and model construction (`genai.configure`, `GenerativeModel`, the generation and safety settings at lines 7-40) are foreign library calls. They are not modelled.
- The chat session and the network round trip are I/O. `ModelService.respond` is a fixed function, so the model assumes that one prompt always gets the same reply. Transport failures (network, quota, key) are not modelled: the source lets them propagate as exceptions.
- Loading the demonstration file (`load_json_file`) and the example dataset (`load_dataset(...)["train"]`) is file and network I/O. The records are passed in as sequences, and load failures are not modelled.
- The `str()` rendering of `context` and `titles` inside the f-strings is library formatting. `NqPrompt` and `HotpotQaPrompt` take both as already-rendered strings.
- AnswerText.IsWordChar: `\w` is limited to ASCII letters, digits and underscore. Python also counts other Unicode letters and digits, so a marker right after, say, `é` counts in the model but not in Python.
- AnswerText.EqIgnoreCase: IGNORECASE folds ASCII letters only. Python also matches U+017F (long s) against `s`, and the model does not.
- Prompts.BuildClosedBookPrompt: requires every used demonstration to have a short answer. The source raises IndexError on an empty `short_answers` list, and the model does not carry that exception.
- Prompts.GenerateDemoExamples: requires at least num_demo items in the dataset. `select(range(num_demo))` raises when there are fewer, and the model does not carry that exception.
- Prompts.AppendItemBlocks: the inner loop of `generate_demo_examples` is a separate method called from the outer loop. It builds the same text in the same order.
