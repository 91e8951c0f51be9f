/** The inference client: each prediction sends prompts to a hosted text model and
    post-processes the replies. The model is seen only through its text-to-text behaviour,
    and the client keeps the list of prompts it has sent, so that the number and order of
    round trips can be stated.
 */
module Gemini {
  import opened AnswerText
  import opened Prompts

  /** The hosted model. `respond` is what one fresh, history-free chat answers to a prompt;
      `sent` lists every prompt sent so far, oldest first. */
  class ModelService {
    const respond: string -> string
    ghost var sent: seq<string>

    constructor (respond: string -> string)
      ensures this.respond == respond && sent == []
    {
      this.respond := respond;
      sent := [];
    }

    /** One round trip: a new chat with empty history, one message, the reply's text. */
    method SendMessage(prompt: string) returns (text: string)
      modifies this
      ensures text == respond(prompt)
      ensures sent == old(sent) + [prompt]
    {
      sent := sent + [prompt];
      text := respond(prompt);
    }
  }

  /** `GeminiInference`: a client bound, once, to one model. */
  class GeminiInference {
    const model: ModelService

    constructor (model: ModelService)
      ensures this.model == model
    {
      this.model := model;
    }

    /** `predict`: one round trip, then post-processing of the reply. */
    method Predict(prompt: string) returns (answer: string)
      modifies model
      ensures answer == PostProcess(model.respond(prompt))
      ensures model.sent == old(model.sent) + [prompt]
    {
      var text := model.SendMessage(prompt);
      answer := PostProcess(text);
    }

    /** `extract_answer`: the extraction prompt with eight items of demonstrations, sent once. */
    method ExtractAnswer(extractDemos: seq<ExtractDemo>, question: string, longAnswer: string)
      returns (shortAnswer: string)
      requires ExtractDemoCount <= |extractDemos|
      modifies model
      ensures shortAnswer == PostProcess(model.respond(ExtractPrompt(extractDemos, question, longAnswer)))
      ensures model.sent == old(model.sent) + [ExtractPrompt(extractDemos, question, longAnswer)]
    {
      var prompt := ExtractInstruction;
      var demos := GenerateDemoExamples(extractDemos, ExtractDemoCount);
      prompt := prompt + demos;
      prompt := prompt + ExtractQuery(question, longAnswer);
      shortAnswer := Predict(prompt);
    }

    /** The two steps `predict_nq` and `predict_hotpotqa` share: the task prompt, then the
        extraction prompt built from the post-processed first reply. */
    method PredictThenExtract(extractDemos: seq<ExtractDemo>, taskPrompt: string, question: string)
      returns (longAnswer: string, shortAnswer: string)
      requires ExtractDemoCount <= |extractDemos|
      modifies model
      ensures longAnswer == PostProcess(model.respond(taskPrompt))
      ensures shortAnswer == PostProcess(model.respond(ExtractPrompt(extractDemos, question, longAnswer)))
      ensures model.sent == old(model.sent) + [taskPrompt, ExtractPrompt(extractDemos, question, longAnswer)]
    {
      longAnswer := Predict(taskPrompt);
      shortAnswer := ExtractAnswer(extractDemos, question, longAnswer);
    }

    /** `predict_nq`: exactly two round trips; the second asks for the short answer of the
        post-processed first reply. */
    method PredictNq(extractDemos: seq<ExtractDemo>, context: string, question: string, titles: string)
      returns (longAnswer: string, shortAnswer: string)
      requires ExtractDemoCount <= |extractDemos|
      modifies model
      ensures longAnswer == PostProcess(model.respond(NqPrompt(context, question, titles)))
      ensures shortAnswer == PostProcess(model.respond(ExtractPrompt(extractDemos, question, longAnswer)))
      ensures model.sent == old(model.sent)
                + [NqPrompt(context, question, titles), ExtractPrompt(extractDemos, question, longAnswer)]
    {
      longAnswer, shortAnswer := PredictThenExtract(extractDemos, NqPrompt(context, question, titles), question);
    }

    /** `predict_hotpotqa`: the same two round trips with the multi-hop template. */
    method PredictHotpotQa(extractDemos: seq<ExtractDemo>, context: string, question: string, titles: string)
      returns (longAnswer: string, shortAnswer: string)
      requires ExtractDemoCount <= |extractDemos|
      modifies model
      ensures longAnswer == PostProcess(model.respond(HotpotQaPrompt(context, question, titles)))
      ensures shortAnswer == PostProcess(model.respond(ExtractPrompt(extractDemos, question, longAnswer)))
      ensures model.sent == old(model.sent)
                + [HotpotQaPrompt(context, question, titles), ExtractPrompt(extractDemos, question, longAnswer)]
    {
      longAnswer, shortAnswer := PredictThenExtract(extractDemos, HotpotQaPrompt(context, question, titles), question);
    }

    /** `predict_close_book`: one round trip with the few-shot closed-book prompt; the reply
        goes through `predict`, so it is post-processed too. The count defaults to sixteen. */
    method PredictCloseBook(question: string, demos: seq<ClosedBookDemo>, numDemo: int := 16)
      returns (answer: string)
      requires HasShortAnswers(UsedDemos(demos, numDemo))
      modifies model
      ensures answer == PostProcess(model.respond(ClosedBookPrompt(question, demos, numDemo)))
      ensures model.sent == old(model.sent) + [ClosedBookPrompt(question, demos, numDemo)]
    {
      var prompt := BuildClosedBookPrompt(question, demos, numDemo);
      answer := Predict(prompt);
    }
  }
}
