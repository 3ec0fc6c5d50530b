/** The code-writing agent `CodeGenAgent` of lcmeval/agents/codegen.py. It
    asks for code that solves a task, cuts the code out of the reply's
    `<code>` … `</code>` block, and records each exchange. The language model
    is not modelled: the content of its reply is a parameter. */
module CodeGen {
  import opened Wrappers
  import opened Strings
  import opened Prompts

  const CodeOpen: string := "<code>"
  const CodeClose: string := "</code>"

  lemma TagShapes()
    ensures |CodeOpen| > 0 && Unbordered(CodeOpen)
    ensures |CodeClose| > 0 && Unbordered(CodeClose)
    ensures |ThinkEnd| > 0 && Trimmed(ThinkEnd) && Unbordered(ThinkEnd)
  {
    TagUnbordered(CodeOpen);
    TagUnbordered(CodeClose);
    ThinkEndShape();
  }

  /** `PROMPT_TEMPLATE`, with the single field `{task}`. */
  const CodeTemplate: Template := [
    Text("You are given a task description and you need to generate code to solve the task.\n\n"),
    Field("task"),
    Text("\n\nPlease follow the following rules:\n"
      + "1. The code should be a valid Python code that can be executed by the user.\n"
      + "2. The code should use the given numpy APIs to solve the task.\n"
      + "3. The code should be surrounded by <code> and </code> tags.\n"
      + "4. The code should be clear and concise.")
  ]

  /** One recorded exchange; `think` is the reasoning part, when the reply had one. */
  datatype Conversation = Conversation(prompt: string, response: string, code: string, think: Option<string>)

  /** `response.partition("<code>")[2].partition("</code>")[0].strip()`.
      Without an opening tag there is no code. */
  function ExtractCode(response: string): (code: string)
    ensures Trimmed(code)
    ensures !Contains(response, CodeOpen) ==> code == ""
  {
    Strip(Partition(Partition(response, CodeOpen).2, CodeClose).0)
  }

  /** The code is the text of the first block, stripped; text before the
      opening tag and after the closing tag plays no part. */
  lemma ExtractCodeBlock(before: string, code: string, after: string)
    requires !Contains(before, CodeOpen) && !Contains(code, CodeClose)
    ensures ExtractCode(before + CodeOpen + code + CodeClose + after) == Strip(code)
  {
    TagShapes();
    assert before + CodeOpen + code + CodeClose + after == before + CodeOpen + (code + CodeClose + after);
    PartitionAfter(before, CodeOpen, code + CodeClose + after);
    PartitionAfter(code, CodeClose, after);
  }

  /** A block that is never closed runs to the end of the reply. */
  lemma ExtractCodeUnclosed(before: string, code: string)
    requires !Contains(before, CodeOpen) && !Contains(code, CodeClose)
    ensures ExtractCode(before + CodeOpen + code) == Strip(code)
  {
    TagShapes();
    PartitionAfter(before, CodeOpen, code);
  }

  /** What `generate_code` reads out of a reply: the code, the response it
      records, and the reasoning. The test for a marker is made on the raw
      content but the cut on the stripped content; with the reasoning the
      recorded response is the text after the marker, not stripped again. */
  function ReadReply(content: string): (r: (string, string, Option<string>))
    ensures r.0 == ExtractCode(r.1)
    ensures r.2.Some? <==> Contains(content, ThinkEnd)
    ensures r.2.None? ==> r.1 == Strip(content)
  {
    var response := Strip(content);
    if Contains(content, ThinkEnd) then
      var (think, _, answer) := Partition(response, ThinkEnd);
      (ExtractCode(answer), answer, Some(Strip(think)))
    else (ExtractCode(response), response, None)
  }

  /** A reply whose stripped text is reasoning, the marker and an answer
      yields the code of the answer alone: a code block inside the reasoning
      is ignored. */
  lemma ReadReplyThink(content: string, think: string, answer: string)
    requires Strip(content) == think + ThinkEnd + answer
    requires !Contains(think, ThinkEnd)
    ensures ReadReply(content) == (ExtractCode(answer), answer, Some(Strip(think)))
  {
    TagShapes();
    ContainsIff(Strip(content), ThinkEnd, |think|);
    StripKeepsPattern(content, ThinkEnd);
    PartitionAfter(think, ThinkEnd, answer);
  }

  /** Reasoning, the marker, then a code block: the code is the block's. */
  lemma ReadReplyThinkThenCode(content: string, think: string, before: string, code: string, after: string)
    requires Strip(content) == think + ThinkEnd + (before + CodeOpen + code + CodeClose + after)
    requires !Contains(think, ThinkEnd) && !Contains(before, CodeOpen) && !Contains(code, CodeClose)
    ensures ReadReply(content).0 == Strip(code)
  {
    ReadReplyThink(content, think, before + CodeOpen + code + CodeClose + after);
    ExtractCodeBlock(before, code, after);
  }

  class CodeGenAgent {
    const promptTemplate: Template
    var history: seq<Conversation>

    /** `CodeGenAgent(prompt_template=PROMPT_TEMPLATE)`. */
    constructor (promptTemplate: Template := CodeTemplate)
      ensures this.promptTemplate == promptTemplate && history == []
    {
      this.promptTemplate := promptTemplate;
      history := [];
    }

    /** `build_prompt`: the given task put in place of `{task}`; the shipped
        template frames it with its instructions. */
    function BuildPrompt(task: string): (r: Result<string, Error>)
      ensures r.Success? <==> OnlyField(promptTemplate, "task")
      ensures r.Failure? ==> r.error == KeyError
      ensures promptTemplate == CodeTemplate ==>
        r == Success(CodeTemplate[0].text + task + CodeTemplate[2].text)
    {
      OneFieldTemplate(CodeTemplate[0].text, "task", CodeTemplate[2].text, task);
      Format(promptTemplate, "task", task)
    }

    /** `generate_code` with `content` the reply's content (None when the
        model returned none). An empty or missing reply raises ValueError;
        otherwise exactly one exchange is appended and the code returned. */
    method GenerateCode(task: string, content: Option<string>) returns (r: Result<string, Error>)
      modifies this
      ensures var p := BuildPrompt(task);
        && (p.Failure? ==> r == Failure(KeyError) && history == old(history))
        && (p.Success? && (content == None || content == Some("")) ==>
              r == Failure(ValueError) && history == old(history))
        && (p.Success? && content.Some? && content.value != "" ==>
              var reply := ReadReply(content.value);
              && r == Success(reply.0)
              && history == old(history) + [Conversation(p.value, reply.1, reply.0, reply.2)])
    {
      var prompt := BuildPrompt(task);
      if prompt.Failure? {
        return Failure(prompt.error);
      }
      if content.None? || content.value == "" {
        return Failure(ValueError);
      }
      var text := content.value;
      var response := Strip(text);
      var code: string;
      if Contains(text, ThinkEnd) {
        var (think, _, answer) := Partition(response, ThinkEnd);
        response := answer;
        code := ExtractCode(response);
        history := history + [Conversation(prompt.value, response, code, Some(Strip(think)))];
      } else {
        code := ExtractCode(response);
        history := history + [Conversation(prompt.value, response, code, None)];
      }
      return Success(code);
    }
  }
}
