/** `TaskGenAgent` of lcmeval/agents/taskgen.py, the agent that writes tasks. It
    turns a combination of APIs into a prompt, reads the model's reply, and
    keeps every exchange in its history. The language model itself is not
    modelled: the content of its reply is a parameter. */
module TaskGen {
  import opened Wrappers
  import opened Strings
  import opened Combinations
  import opened Coverage
  import opened Prompts

  /** One recorded exchange; `think` is the reasoning part, when the reply had one. */
  datatype Conversation = Conversation(prompt: string, response: string, task: string, think: Option<string>)

  /** The prompt `build_prompt` returns: the API listing, with its
      whitespace tail stripped, put in place of `{api_details}`. */
  function TaskGenPrompt(template: Template, names: seq<Name>, details: map<Name, ApiDetail>): (r: Result<string, Error>)
    ensures r.Success? <==>
      (forall i :: 0 <= i < |names| ==> names[i] in details) && OnlyField(template, "api_details")
    ensures r.Failure? ==> r.error == KeyError
  {
    match ApiInfos(names, details)
    case Failure(e) => Failure(e)
    case Success(infos) => Format(template, "api_details", Strip(infos))
  }

  /** What `generate_task` reads out of a reply: the generated task, and the reasoning
      before the first marker when there is a marker. Neither has whitespace
      at its ends, and the reasoning never holds the marker. */
  function ReadReply(content: string): (r: (string, Option<string>))
    ensures Trimmed(r.0)
    ensures r.1.Some? <==> Contains(content, ThinkEnd)
    ensures r.1.Some? ==> Trimmed(r.1.value) && !Contains(r.1.value, ThinkEnd)
    ensures !Contains(content, ThinkEnd) ==> r == (Strip(content), None)
  {
    if Contains(content, ThinkEnd) then
      var (think, _, task) := Partition(content, ThinkEnd);
      ThinkEndShape();
      StripKeepsPattern(think, ThinkEnd);
      (Strip(task), Some(Strip(think)))
    else (Strip(content), None)
  }

  /** A reply made of reasoning, the marker and an answer is read as that
      answer and that reasoning, whatever further markers the answer holds. */
  lemma ReadReplyThink(think: string, answer: string)
    requires !Contains(think, ThinkEnd)
    ensures ReadReply(think + ThinkEnd + answer) == (Strip(answer), Some(Strip(think)))
  {
    ThinkEndShape();
    PartitionAfter(think, ThinkEnd, answer);
  }

  /** With the shipped templates the prompt is the template's text around
      the stripped listing. */
  lemma DefaultPrompts(names: seq<Name>, details: map<Name, ApiDetail>)
    requires forall i :: 0 <= i < |names| ==> names[i] in details
    ensures var infos := Strip(ApiInfos(names, details).value);
      && TaskGenPrompt(ExplicitTemplate, names, details)
        == Success(ExplicitTemplate[0].text + infos + ExplicitTemplate[2].text)
      && TaskGenPrompt(ImplicitTemplate, names, details)
        == Success(ImplicitTemplate[0].text + infos + ImplicitTemplate[2].text)
  {
    var infos := Strip(ApiInfos(names, details).value);
    OneFieldTemplate(ExplicitTemplate[0].text, "api_details", ExplicitTemplate[2].text, infos);
    OneFieldTemplate(ImplicitTemplate[0].text, "api_details", ImplicitTemplate[2].text, infos);
  }

  class TaskGenAgent {
    const promptTemplate: Template
    var history: seq<Conversation>

    /** `TaskGenAgent(prompt_template=EXPLICIT_PROMPT_TEMPLATE)`. */
    constructor (promptTemplate: Template := ExplicitTemplate)
      ensures this.promptTemplate == promptTemplate && history == []
    {
      this.promptTemplate := promptTemplate;
      history := [];
    }

    /** `build_prompt`: accumulate one block per name, then format. It fails
        with KeyError exactly when a name has no entry or the template has a
        field other than `api_details`. */
    method BuildPrompt(apiNames: seq<Name>, apiDetails: map<Name, ApiDetail>) returns (r: Result<string, Error>)
      ensures r == TaskGenPrompt(promptTemplate, apiNames, apiDetails)
      ensures r.Success? <==>
        (forall i :: 0 <= i < |apiNames| ==> apiNames[i] in apiDetails) && OnlyField(promptTemplate, "api_details")
      ensures r.Failure? ==> r.error == KeyError
    {
      var apiInfos := "";
      for i := 0 to |apiNames|
        invariant ApiInfos(apiNames[..i], apiDetails) == Success(apiInfos)
      {
        if apiNames[i] !in apiDetails {
          return Failure(KeyError);
        }
        var detail := apiDetails[apiNames[i]];
        apiInfos := apiInfos + ApiBlock(apiNames[i], detail);
        assert apiNames[..i + 1][..i] == apiNames[..i];
      }
      assert apiNames[..|apiNames|] == apiNames;
      return Format(promptTemplate, "api_details", Strip(apiInfos));
    }

    /** `generate_task` with `content` the reply's content (None when the
        model returned none). A failing prompt raises before the model is
        asked; an empty or missing reply raises ValueError; otherwise exactly
        one exchange is appended and the generated task returned. */
    method GenerateTask(apiNames: seq<Name>, apiDetails: map<Name, ApiDetail>, content: Option<string>)
      returns (r: Result<string, Error>)
      modifies this
      ensures var p := TaskGenPrompt(promptTemplate, apiNames, apiDetails);
        && (p.Failure? ==> r == Failure(KeyError) && history == old(history))
        && (p.Success? && (content == None || content == Some("")) ==>
              r == Failure(ValueError) && history == old(history))
        && (p.Success? && content.Some? && content.value != "" ==>
              var reply := ReadReply(content.value);
              && r == Success(reply.0)
              && history == old(history) + [Conversation(p.value, Strip(content.value), reply.0, reply.1)])
    {
      var prompt := BuildPrompt(apiNames, apiDetails);
      if prompt.Failure? {
        return Failure(prompt.error);
      }
      if content.None? || content.value == "" {
        return Failure(ValueError);
      }
      var text := content.value;
      var response := Strip(text);
      var task: string;
      if Contains(text, ThinkEnd) {
        var (think, _, answer) := Partition(text, ThinkEnd);
        task := Strip(answer);
        history := history + [Conversation(prompt.value, response, task, Some(Strip(think)))];
      } else {
        task := Strip(text);
        history := history + [Conversation(prompt.value, response, task, None)];
      }
      return Success(task);
    }
  }
}
