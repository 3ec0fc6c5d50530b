/** The earlier agent for writing tasks, `TaskAgent`, of lcmeval/agents/task.py.
    It shares its templates and API blocks with taskgen.py, but puts the
    listing in the prompt unstripped, keeps no history, and cuts the reply
    with `split`, so it returns the text between the first and the second
    reasoning markers. The language model is not modelled: the content of
    its reply is a parameter. */
module Task {
  import opened Wrappers
  import opened Strings
  import opened Combinations
  import opened Coverage
  import opened Prompts
  import TaskGen

  /** The prompt `build_prompt` returns: the listing as accumulated, trailing
      newline included, put in place of `{api_details}`. */
  function TaskPrompt(template: Template, names: seq<Name>, details: map<Name, ApiDetail>): (r: Result<string, Error>)
    ensures r.Success? <==>
      (forall i :: 0 <= i < |names| ==> names[i] in details) && OnlyField(template, "api_details")
    ensures r.Failure? ==> r.error == KeyError
  {
    match ApiInfos(names, details)
    case Failure(e) => Failure(e)
    case Success(infos) => Format(template, "api_details", infos)
  }

  /** For a non-empty selection the two agents' prompts differ only in the
      listing's whitespace tail, which taskgen.py strips and task.py keeps. */
  lemma PromptsDiffer(template: Template, names: seq<Name>, details: map<Name, ApiDetail>)
    requires |names| > 0
    requires forall i :: 0 <= i < |names| ==> names[i] in details
    ensures var x := ApiInfos(names, details).value;
      && Hi(x) < |x| && AllSpace(x[Hi(x)..])
      && TaskPrompt(template, names, details) == Format(template, "api_details", x)
      && TaskGen.TaskGenPrompt(template, names, details) == Format(template, "api_details", x[..Hi(x)])
  {
    ApiInfosStrip(names, details);
  }

  /** `content.split("</think>")[1].strip()` when the marker occurs, else
      `content.strip()`. */
  function ReadReply(content: string): (task: string)
    ensures Trimmed(task)
    ensures Contains(content, ThinkEnd) ==> !Contains(task, ThinkEnd)
    ensures !Contains(content, ThinkEnd) ==> task == Strip(content)
  {
    ThinkEndShape();
    if Contains(content, ThinkEnd) then
      SplitPiecesFree(content, ThinkEnd, 1);
      StripKeepsPattern(Split(content, ThinkEnd)[1], ThinkEnd);
      Strip(Split(content, ThinkEnd)[1])
    else Strip(content)
  }

  /** After the reasoning and the marker, the returned text stops at the next marker. */
  lemma ReadReplyThink(think: string, answer: string)
    requires !Contains(think, ThinkEnd)
    ensures ReadReply(think + ThinkEnd + answer) == Strip(Partition(answer, ThinkEnd).0)
  {
    ThinkEndShape();
    var content := think + ThinkEnd + answer;
    PartitionAfter(think, ThinkEnd, answer);
    SplitSecond(content, ThinkEnd);
  }

  /** With at most one marker the two agents read the same task. */
  lemma AgreesWithTaskGen(content: string)
    requires Contains(content, ThinkEnd) ==> !Contains(Partition(content, ThinkEnd).2, ThinkEnd)
    ensures ReadReply(content) == TaskGen.ReadReply(content).0
  {
    if Contains(content, ThinkEnd) {
      ThinkEndShape();
      var (think, _, answer) := Partition(content, ThinkEnd);
      ReadReplyThink(think, answer);
    }
  }

  /** A reply with two markers: task.py returns the stripped middle piece,
      which holds no marker, while taskgen.py returns everything after the
      first marker, second marker included. */
  lemma TwoMarkers(a: string, b: string, c: string)
    requires !Contains(a, ThinkEnd) && !Contains(b, ThinkEnd)
    ensures ReadReply(a + ThinkEnd + (b + ThinkEnd + c)) == Strip(b)
    ensures TaskGen.ReadReply(a + ThinkEnd + (b + ThinkEnd + c)).0 == Strip(b + ThinkEnd + c)
    ensures Contains(TaskGen.ReadReply(a + ThinkEnd + (b + ThinkEnd + c)).0, ThinkEnd)
  {
    ThinkEndShape();
    var rest := b + ThinkEnd + c;
    ReadReplyThink(a, rest);
    PartitionAfter(b, ThinkEnd, c);
    TaskGen.ReadReplyThink(a, rest);
    assert OccursAt(rest, ThinkEnd, |b|) by {
      assert rest[|b|..|b| + |ThinkEnd|] == ThinkEnd;
    }
    ContainsIff(rest, ThinkEnd, |b|);
    StripKeepsPattern(rest, ThinkEnd);
  }

  class TaskAgent {
    const promptTemplate: Template

    /** `TaskAgent(prompt_template=EXPLICIT_PROMPT_TEMPLATE)`. */
    constructor (promptTemplate: Template := ExplicitTemplate)
      ensures this.promptTemplate == promptTemplate
    {
      this.promptTemplate := promptTemplate;
    }

    /** `build_prompt`: accumulate one block per name, then format, raising
        KeyError for a name with no entry or a foreign template field. */
    method BuildPrompt(apiNames: seq<Name>, apiDetails: map<Name, ApiDetail>) returns (r: Result<string, Error>)
      ensures r == TaskPrompt(promptTemplate, apiNames, apiDetails)
      ensures r.Success? <==>
        (forall i :: 0 <= i < |apiNames| ==> apiNames[i] in apiDetails) && OnlyField(promptTemplate, "api_details")
      ensures r.Failure? ==> r.error == KeyError
    {
      var apiInfos := "";
      for i := 0 to |apiNames|
        invariant ApiInfos(apiNames[..i], apiDetails) == Success(apiInfos)
      {
        if apiNames[i] !in apiDetails {
          return Failure(KeyError);
        }
        var detail := apiDetails[apiNames[i]];
        apiInfos := apiInfos + ApiBlock(apiNames[i], detail);
        assert apiNames[..i + 1][..i] == apiNames[..i];
      }
      assert apiNames[..|apiNames|] == apiNames;
      return Format(promptTemplate, "api_details", apiInfos);
    }

    /** `generate_task` with `content` the reply's content. A missing reply
        fails the `in` test with TypeError; an empty one gives "". */
    method GenerateTask(apiNames: seq<Name>, apiDetails: map<Name, ApiDetail>, content: Option<string>)
      returns (r: Result<string, Error>)
      ensures var p := TaskPrompt(promptTemplate, apiNames, apiDetails);
        && (p.Failure? ==> r == Failure(KeyError))
        && (p.Success? && content.None? ==> r == Failure(TypeError))
        && (p.Success? && content.Some? ==> r == Success(ReadReply(content.value)))
    {
      var prompt := BuildPrompt(apiNames, apiDetails);
      if prompt.Failure? {
        return Failure(prompt.error);
      }
      if content.None? {
        return Failure(TypeError);
      }
      var text := content.value;
      var task := if Contains(text, ThinkEnd) then Strip(Split(text, ThinkEnd)[1]) else Strip(text);
      return Success(task);
    }
  }
}
